/**
 * ProfileController: a signed-in user edits its own profile and changes its password.
 * Both actions run early-return guards and then set fields on the stored user and save it.
 * The password encoder is given as two functions, `encode` and `matches`.
 */
module ProfileController {
  import opened Wrappers
  import opened Errors
  import opened UserEntity
  import opened Store
  import opened Text

  /** The profile's department after the form: a given id that exists replaces it, anything else keeps it. */
  function ChosenDepartment(departments: set<nat>, departmentId: Option<nat>, current: Option<nat>): (r: Option<nat>)
    ensures departmentId.Some? && departmentId.value in departments ==> r == departmentId
    ensures departmentId.None? || departmentId.value !in departments ==> r == current
  {
    if departmentId.Some? && departmentId.value in departments then departmentId else current
  }

  /**
   * `updateProfile`: an unknown username fails. A new email that another account already
   * uses is rejected with nothing changed; keeping the current email skips that lookup.
   * Otherwise the names, email and phone number are set as given, the department is
   * replaced only by an existing one, and the user is saved.
   */
  method UpdateProfile(db: Database, username: string, firstName: string, lastName: string, email: string,
                       phoneNumber: Option<string>, departmentId: Option<nat>) returns (r: Result<User, Error>)
    requires db.Valid()
    modifies db
    ensures db.Valid()
    ensures r.Err? ==> db.Snapshot() == old(db.Snapshot())
    ensures (forall k :: k in old(db.users) ==> old(db.users)[k].username != username) ==>
      r == Err(UsernameNotFound(username))
    ensures forall k :: k in old(db.users) && old(db.users)[k].username == username ==>
      var user := old(db.users)[k];
      && (r.Err? <==> user.email != email && exists j :: j in old(db.users) && old(db.users)[j].email == email)
      && (r.Err? ==> r.error == EmailInUse)
      && (r.Ok? ==> && r.value == user.(firstName := Some(firstName), lastName := Some(lastName), email := email,
                                        phoneNumber := phoneNumber,
                                        department := ChosenDepartment(old(db.departments.Keys), departmentId, user.department))
                    && db.Snapshot() == old(db.Snapshot()).(users := old(db.users)[k := r.value]))
  {
    var found := FindUserByUsername(db.Snapshot(), username);
    if found.None? {
      return Err(UsernameNotFound(username));
    }
    var user := found.value;
    UsernameIdentifiesUser(db.Snapshot(), user.id);
    if user.email != email {
      if FindUserByEmail(db.Snapshot(), email).Some? {
        return Err(EmailInUse);
      }
    }
    var updated := user.(firstName := Some(firstName), lastName := Some(lastName), email := email,
                         phoneNumber := phoneNumber,
                         department := ChosenDepartment(db.departments.Keys, departmentId, user.department));
    assert NoCollision(db.users, updated);
    r := db.MergeUser(updated);
    assert r.Ok?;
  }

  /** The shortest new password `changePassword` accepts. */
  const MinPasswordLength := 6

  /**
   * `changePassword`: for a known user, the checks run in order (the current password must
   * match the stored hash, the new password must equal its confirmation, and it must have
   * at least six characters) and the first that fails is reported. Only when all pass is
   * the stored password replaced by the encoded new one.
   */
  method ChangePassword(db: Database, username: string, currentPassword: string, newPassword: string,
                        confirmPassword: string, matches: (string, string) -> bool, encode: string -> string)
    returns (r: Result<(), Error>)
    requires db.Valid()
    modifies db
    ensures db.Valid()
    ensures r.Err? ==> db.Snapshot() == old(db.Snapshot())
    ensures (forall k :: k in old(db.users) ==> old(db.users)[k].username != username) ==>
      r == Err(UsernameNotFound(username))
    ensures forall k :: k in old(db.users) && old(db.users)[k].username == username ==>
      var user := old(db.users)[k];
      && (!matches(currentPassword, user.password) ==> r == Err(PasswordIncorrect))
      && (matches(currentPassword, user.password) && newPassword != confirmPassword ==> r == Err(PasswordsDoNotMatch))
      && (matches(currentPassword, user.password) && newPassword == confirmPassword && Utf16Length(newPassword) < MinPasswordLength ==>
            r == Err(PasswordTooShort))
      && (r.Ok? <==> matches(currentPassword, user.password) && newPassword == confirmPassword &&
                     Utf16Length(newPassword) >= MinPasswordLength)
      && (r.Ok? ==> db.Snapshot() == old(db.Snapshot()).(users := old(db.users)[k := user.(password := encode(newPassword))]))
  {
    var found := FindUserByUsername(db.Snapshot(), username);
    if found.None? {
      return Err(UsernameNotFound(username));
    }
    var user := found.value;
    UsernameIdentifiesUser(db.Snapshot(), user.id);
    if !matches(currentPassword, user.password) {
      return Err(PasswordIncorrect);
    }
    if newPassword != confirmPassword {
      return Err(PasswordsDoNotMatch);
    }
    if Utf16Length(newPassword) < MinPasswordLength {
      return Err(PasswordTooShort);
    }
    var updated := user.(password := encode(newPassword));
    SameKeysNoCollision(db.Snapshot(), updated);
    var saved := db.MergeUser(updated);
    r := Ok(());
  }
}
