/**
 * UserService: the user lookups, the account creation that assigns exactly one role, the
 * edit that copies a DTO onto a stored user, and deletion. Every writing operation is one
 * transaction: when it fails, the tables are as they were before it.
 */
module UserService {
  import opened Wrappers
  import opened Errors
  import opened Enums
  import opened Records
  import opened UserEntity
  import opened Tables
  import opened Seqs
  import opened Dtos
  import opened Store
  import UserMapper

  /** `getAllUsers`: every stored user, as a DTO, in id order. */
  function GetAllUsers(s: State): (r: seq<UserDto>)
    requires ValidState(s)
    ensures |r| == |UserRows(s)|
    ensures forall d :: d in r <==> exists id :: id in s.users && d == UserDtoOf(s, s.users[id])
  {
    var r := UserMapper.ToDtoList(Some(UserRows(s)), u => UserDtoOf(s, u));
    AllUserDtos(s, r);
    r
  }

  lemma AllUserDtos(s: State, r: seq<UserDto>)
    requires ValidState(s)
    requires |r| == |UserRows(s)| && forall i :: 0 <= i < |r| ==> r[i] == UserDtoOf(s, UserRows(s)[i])
    ensures forall d :: d in r <==> exists id :: id in s.users && d == UserDtoOf(s, s.users[id])
  {
    forall d | d in r ensures exists id :: id in s.users && d == UserDtoOf(s, s.users[id]) {
      var i :| 0 <= i < |r| && r[i] == d;
      ListedUserIsStored(s, r, i);
    }
    forall id | id in s.users ensures UserDtoOf(s, s.users[id]) in r {
      StoredUserIsListed(s, r, id);
    }
  }

  lemma ListedUserIsStored(s: State, r: seq<UserDto>, i: nat)
    requires ValidState(s)
    requires |r| == |UserRows(s)| && forall i :: 0 <= i < |r| ==> r[i] == UserDtoOf(s, UserRows(s)[i])
    requires i < |r|
    ensures UserRows(s)[i].id in s.users && r[i] == UserDtoOf(s, s.users[UserRows(s)[i].id])
  {
    UserRowsComplete(s);
    assert UserRows(s)[i] in UserRows(s);
  }

  lemma StoredUserIsListed(s: State, r: seq<UserDto>, id: nat)
    requires ValidState(s)
    requires |r| == |UserRows(s)| && forall i :: 0 <= i < |r| ==> r[i] == UserDtoOf(s, UserRows(s)[i])
    requires id in s.users
    ensures UserDtoOf(s, s.users[id]) in r
  {
    var rows := UserRows(s);
    UserRowsComplete(s);
    assert s.users[id].id == id;
    assert s.users[id] in rows;
    var i :| 0 <= i < |rows| && rows[i] == s.users[id];
    assert r[i] == UserDtoOf(s, s.users[id]);
  }

  /** `getUserEntityById`: the stored user, or "User not found with id". */
  function GetUserEntityById(s: State, id: nat): (r: Result<User, Error>)
    ensures r.Err? <==> id !in s.users
    ensures r.Err? ==> r.error == UserNotFound(id)
    ensures r.Ok? ==> r.value == s.users[id]
  {
    if id in s.users then Ok(s.users[id]) else Err(UserNotFound(id))
  }

  /** `getUserById`: the stored user as a DTO, or "User not found with id". */
  function GetUserById(s: State, id: nat): (r: Result<UserDto, Error>)
    ensures r.Err? <==> id !in s.users
    ensures r.Err? ==> r.error == UserNotFound(id)
    ensures r.Ok? ==> r.value == UserDtoOf(s, s.users[id]) && r.value.password.None?
  {
    match GetUserEntityById(s, id)
    case Ok(u) => Ok(UserDtoOf(s, u))
    case Err(e) => Err(e)
  }

  /** `getUserByUsername`: the user with that username, or "User not found". */
  function GetUserByUsername(s: State, username: string): (r: Result<User, Error>)
    requires ValidState(s)
    ensures r.Err? <==> forall k :: k in s.users ==> s.users[k].username != username
    ensures r.Err? ==> r.error == UsernameNotFound(username)
    ensures r.Ok? ==> r.value.id in s.users && s.users[r.value.id] == r.value && r.value.username == username
  {
    match FindUserByUsername(s, username)
    case Some(u) => Ok(u)
    case None => Err(UsernameNotFound(username))
  }

  /** Looking a stored user up by its own username finds that user. */
  lemma GetUserByUsernameFindsOwner(s: State, id: nat)
    requires ValidState(s) && id in s.users
    ensures GetUserByUsername(s, s.users[id].username) == Ok(s.users[id])
  {
    UsernameIdentifiesUser(s, id);
  }

  /** The department a DTO's nullable id resolves to (`findById(...).orElse(null)`). */
  function ResolveDepartment(departments: map<nat, Department>, departmentId: Option<nat>, current: Option<nat>)
    : (r: Option<nat>)
    ensures departmentId.None? ==> r == current
    ensures departmentId.Some? && departmentId.value in departments ==> r == departmentId
    ensures departmentId.Some? && departmentId.value !in departments ==> r.None?
  {
    if departmentId.None? then current
    else if departmentId.value in departments then departmentId
    else None
  }

  /** `roleRepository.findByName(roleName).orElseGet(...)`: the role of that name, created with the description "User role" when there is none. */
  method FindOrCreateRole(db: Database, roleName: string) returns (role: Role)
    requires db.Valid()
    modifies db
    ensures db.Valid()
    ensures role.id in db.roles && db.roles[role.id] == role && role.name == roleName
    ensures FindRoleByName(old(db.Snapshot()), roleName).Some? ==>
      role == FindRoleByName(old(db.Snapshot()), roleName).value && db.Snapshot() == old(db.Snapshot())
    ensures FindRoleByName(old(db.Snapshot()), roleName).None? ==>
      && role == Role(old(db.nextRoleId), roleName, "User role")
      && db.Snapshot() == old(db.Snapshot()).(roles := old(db.roles)[role.id := role], nextRoleId := old(db.nextRoleId) + 1)
  {
    var found := FindRoleByName(db.Snapshot(), roleName);
    if found.Some? {
      role := found.value;
    } else {
      role := db.PersistRole(roleName, "User role");
    }
  }

  /**
   * What a successful `createUser` leaves in `t`, starting from `s`: a new user under the
   * next id, ACTIVE, with the encoded password and the DTO's names and contacts, holding
   * exactly the role named `roleName`, which is the stored one or else a new "User role".
   */
  ghost predicate CreatedUser(s: State, t: State, dto: UserDto, roleName: string, encode: string -> string, now: nat)
    requires ValidState(s)
  {
    && s.nextUserId in t.users
    && var u := t.users[s.nextUserId];
    && t.users == s.users[u.id := u]
    && dto.password.Some? && dto.username.Some? && dto.email.Some?
    && u.status == Active && u.password == encode(dto.password.value)
    && u.username == dto.username.value && u.email == dto.email.value
    && u.firstName == dto.firstName && u.lastName == dto.lastName && u.phoneNumber == dto.phoneNumber
    && u.createdAt == now && u.lastLogin.None?
    && u.department == ResolveDepartment(s.departments, dto.departmentId, None)
    && |u.roles| == 1
    && (forall id :: id in u.roles ==> id in t.roles && t.roles[id].name == roleName)
    && (FindRoleByName(s, roleName).Some? ==> u.roles == {FindRoleByName(s, roleName).value.id} && t.roles == s.roles)
    && (FindRoleByName(s, roleName).None? ==>
          u.roles == {s.nextRoleId} && t.roles == s.roles[s.nextRoleId := Role(s.nextRoleId, roleName, "User role")])
    && t == s.(users := t.users, roles := t.roles, nextUserId := u.id + 1, nextRoleId := t.nextRoleId, clock := now)
  }

  /** The facts the steps of `createUser` establish add up to `CreatedUser`. */
  lemma CreatedUserFromSteps(s: State, mid: State, t: State, dto: UserDto, roleName: string,
                             encode: string -> string, now: nat, role: Role, d: UserDraft, u: User)
    requires ValidState(s) && ValidState(mid) && s.clock <= now
    requires role.name == roleName && role.id in mid.roles && mid.roles[role.id] == role
    requires FindRoleByName(s, roleName).Some? ==>
      role == FindRoleByName(s, roleName).value && mid == s.(clock := now)
    requires FindRoleByName(s, roleName).None? ==>
      && role == Role(s.nextRoleId, roleName, "User role")
      && mid == s.(clock := now).(roles := s.roles[role.id := role], nextRoleId := s.nextRoleId + 1)
    requires dto.password.Some?
    requires d == UserMapper.ToEntity(dto).(password := Some(encode(dto.password.value)), status := Some(Active),
                                           roles := {role.id},
                                           department := ResolveDepartment(mid.departments, dto.departmentId, None))
    requires UserEntity.NotNullColumnsSet(d) && u == UserEntity.OnCreate(d, mid.nextUserId, mid.clock)
    requires t == mid.(users := mid.users[u.id := u], nextUserId := mid.nextUserId + 1)
    ensures CreatedUser(s, t, dto, roleName, encode, now)
  {
    assert u.id == s.nextUserId;
  }

  /**
   * `createUser(dto, roleName)`: the password is encoded (a null one is refused by the
   * encoder), the status is ACTIVE, the role named `roleName` is found or else created
   * with the description "User role", the role set is exactly that role, and the
   * department is the given one if it exists. A duplicate username or email, or a missing
   * one, is refused by the database and the transaction rolls back, new role included.
   */
  method CreateUser(db: Database, dto: UserDto, roleName: string, encode: string -> string, now: nat)
    returns (r: Result<UserDto, Error>)
    requires db.Valid() && db.clock <= now
    modifies db
    ensures db.Valid()
    ensures r.Ok? <==> && dto.password.Some? && dto.username.Some? && dto.email.Some?
                       && forall k :: k in old(db.users) ==>
                            old(db.users)[k].username != dto.username.value && old(db.users)[k].email != dto.email.value
    ensures r.Err? ==> db.Snapshot() == old(db.Snapshot()).(clock := now)
    ensures r.Err? ==> r.error == (if dto.password.None? then NullPassword else ConstraintViolation)
    ensures r.Ok? ==> && CreatedUser(old(db.Snapshot()), db.Snapshot(), dto, roleName, encode, now)
                      && r.value == UserDtoOf(db.Snapshot(), db.users[old(db.nextUserId)])
  {
    db.Advance(now);
    var start := db.Snapshot();
    if dto.password.None? {
      return Err(NullPassword);
    }
    var role := FindOrCreateRole(db, roleName);
    ghost var mid := db.Snapshot();
    var draft := UserMapper.ToEntity(dto).(password := Some(encode(dto.password.value)), status := Some(Active),
                                           roles := {role.id},
                                           department := ResolveDepartment(db.departments, dto.departmentId, None));
    var saved := db.PersistUser(draft);
    if saved.Err? {
      db.Rollback(start);
      return Err(ConstraintViolation);
    }
    var u := saved.value;
    CreatedUserFromSteps(old(db.Snapshot()), mid, db.Snapshot(), dto, roleName, encode, now, role, draft, u);
    r := Ok(UserDtoOf(db.Snapshot(), u));
  }

  /**
   * `updateUser(id, dto)`: the DTO's non-null fields are copied onto the stored user, the
   * department is replaced only when the DTO names one, and the user is saved; a username
   * or email another user holds is refused.
   */
  method UpdateUser(db: Database, id: nat, dto: UserDto) returns (r: Result<UserDto, Error>)
    requires db.Valid()
    modifies db
    ensures db.Valid()
    ensures id !in old(db.users) ==> r == Err(UserNotFound(id)) && db.Snapshot() == old(db.Snapshot())
    ensures id in old(db.users) ==>
      var u := UserMapper.UpdateFromDto(dto, old(db.users)[id])
                 .(department := ResolveDepartment(old(db.departments), dto.departmentId, old(db.users)[id].department));
      && (r.Ok? <==> NoCollision(old(db.users), u))
      && (r.Ok? ==> db.Snapshot() == old(db.Snapshot()).(users := old(db.users)[id := u])
                    && r.value == UserDtoOf(db.Snapshot(), u))
      && (r.Err? ==> r.error == ConstraintViolation && db.Snapshot() == old(db.Snapshot()))
  {
    if id !in db.users {
      return Err(UserNotFound(id));
    }
    var loaded := db.users[id];
    var u := UserMapper.UpdateFromDto(dto, loaded);
    u := u.(department := ResolveDepartment(db.departments, dto.departmentId, u.department));
    var saved := db.MergeUser(u);
    if saved.Err? {
      return Err(ConstraintViolation);
    }
    r := Ok(UserDtoOf(db.Snapshot(), u));
  }

  /** `deleteUser(id)`: `deleteById`, refused while some row still refers to the user. */
  method DeleteUser(db: Database, id: nat) returns (r: Result<(), Error>)
    requires db.Valid()
    modifies db
    ensures db.Valid()
    ensures r.Err? <==> id in old(db.users) && Referenced(old(db.Snapshot()), id)
    ensures r.Err? ==> db.Snapshot() == old(db.Snapshot())
    ensures r.Ok? ==> db.Snapshot() == old(db.Snapshot()).(users := old(db.users) - {id})
  {
    r := db.RemoveUser(id);
  }

  /** `updateLastLogin(username)`: the user's `lastLogin` reads the clock; nothing else changes. */
  method UpdateLastLogin(db: Database, username: string, now: nat) returns (r: Result<(), Error>)
    requires db.Valid() && db.clock <= now
    modifies db
    ensures db.Valid()
    ensures r.Err? <==> forall k :: k in old(db.users) ==> old(db.users)[k].username != username
    ensures r.Err? ==> r.error == UsernameNotFound(username) && db.Snapshot() == old(db.Snapshot()).(clock := now)
    ensures r.Ok? ==> exists id :: id in old(db.users) && old(db.users)[id].username == username &&
                        db.Snapshot() == old(db.Snapshot()).(users := old(db.users)[id := old(db.users)[id].(lastLogin := Some(now))],
                                                            clock := now)
  {
    db.Advance(now);
    var found := GetUserByUsername(db.Snapshot(), username);
    if found.Err? {
      return Err(found.error);
    }
    var u := found.value.(lastLogin := Some(now));
    SameKeysNoCollision(db.Snapshot(), u);
    var saved := db.MergeUser(u);
    r := Ok(());
  }

  function HoldsRoleNamed(roles: map<nat, Role>, roleName: string): User -> bool {
    (u: User) => exists id :: id in u.roles && id in roles && roles[id].name == roleName
  }

  function IsActive(u: User): bool {
    u.status == Active
  }

  /** `getUsersByRole(roleName)`: the users holding some role of that name, each once. */
  function GetUsersByRole(s: State, roleName: string): (r: seq<User>)
    requires ValidState(s)
    ensures forall u :: u in r <==> u.id in s.users && s.users[u.id] == u &&
                                     exists id :: id in u.roles && id in s.roles && s.roles[id].name == roleName
    ensures forall i, j :: 0 <= i < j < |r| ==> r[i].id != r[j].id
  {
    UsersOnce(s, HoldsRoleNamed(s.roles, roleName));
    Filter(UserRows(s), HoldsRoleNamed(s.roles, roleName))
  }

  /** `getActiveUsers()`: the users whose status is ACTIVE, each once. */
  function GetActiveUsers(s: State): (r: seq<User>)
    requires ValidState(s)
    ensures forall u :: u in r <==> u.id in s.users && s.users[u.id] == u && u.status == Active
    ensures forall i, j :: 0 <= i < j < |r| ==> r[i].id != r[j].id
  {
    UsersOnce(s, IsActive);
    Filter(UserRows(s), IsActive)
  }

  /** A filtered scan of the users lists each stored user once. */
  lemma UsersOnce(s: State, p: User -> bool)
    requires ValidState(s)
    ensures forall u :: u in Filter(UserRows(s), p) <==> u.id in s.users && s.users[u.id] == u && p(u)
    ensures DistinctKeys(Filter(UserRows(s), p), UserKey)
  {
    UserRowsComplete(s);
    OncePerKeyOfSelection(Filter(UserRows(s), p), UserRows(s), UserKey);
    OncePerKeyDistinct(Filter(UserRows(s), p), UserKey);
  }
}
