/**
 * Rows without behaviour: roles, departments, ticket comments and ticket attachments.
 * References to other rows are ids.
 */
module Records {
  import opened Wrappers

  /** A role (its entity class is not part of this model; the code uses its name and description). */
  datatype Role = Role(id: nat, name: string, description: string)

  /** entity/Department.java. */
  datatype Department = Department(id: nat, name: string, description: Option<string>)

  /** entity/TicketComment.java: `createdAt` is stamped by its `@PrePersist`. */
  datatype Comment = Comment(id: nat, content: string, ticketId: nat, userId: nat,
                             createdAt: nat, internalNote: bool)

  /** entity/TicketAttachment.java without the stored file. */
  datatype Attachment = Attachment(id: nat, fileName: Option<string>, ticketId: nat,
                                   uploadedBy: Option<nat>)
}

/** The User entity (entity/User.java). */
module UserEntity {
  import opened Wrappers
  import opened Enums

  /**
   * A persisted user row. `department` and `roles` hold ids; the created and assigned
   * ticket lists are the ticket rows that refer to this id.
   */
  datatype User = User(
    id: nat,
    username: string,
    password: string,
    email: string,
    firstName: Option<string>,
    lastName: Option<string>,
    phoneNumber: Option<string>,
    status: UserStatus,
    createdAt: nat,
    lastLogin: Option<nat>,
    department: Option<nat>,
    roles: set<nat>)

  /** A user object before `persist`: any column may still be null. */
  datatype UserDraft = UserDraft(
    username: Option<string>,
    password: Option<string>,
    email: Option<string>,
    firstName: Option<string>,
    lastName: Option<string>,
    phoneNumber: Option<string>,
    status: Option<UserStatus>,
    department: Option<nat>,
    roles: set<nat>)

  /** `User.builder()...build()` with only the NOT NULL columns given: the `@Builder.Default`s apply. */
  function BuildDraft(username: string, password: string, email: string): (d: UserDraft)
    ensures d.status == Some(Active) && d.roles == {}
    ensures d.username == Some(username) && d.password == Some(password) && d.email == Some(email)
    ensures d.firstName == None && d.lastName == None && d.phoneNumber == None && d.department == None
  {
    UserDraft(Some(username), Some(password), Some(email), None, None, None, Some(Active), None, {})
  }

  /** The columns declared `nullable = false` are set. */
  predicate NotNullColumnsSet(d: UserDraft) {
    d.username.Some? && d.password.Some? && d.email.Some?
  }

  /**
   * `@PrePersist onCreate`, together with the id the database assigns: `createdAt` reads
   * the clock and a null status becomes ACTIVE; a status already set is kept.
   */
  function OnCreate(d: UserDraft, id: nat, now: nat): (u: User)
    requires NotNullColumnsSet(d)
    ensures u.id == id && u.createdAt == now && u.lastLogin == None
    ensures d.status.None? ==> u.status == Active
    ensures d.status.Some? ==> u.status == d.status.value
    ensures u.username == d.username.value && u.password == d.password.value && u.email == d.email.value
    ensures u.firstName == d.firstName && u.lastName == d.lastName && u.phoneNumber == d.phoneNumber
    ensures u.department == d.department && u.roles == d.roles
  {
    User(id, d.username.value, d.password.value, d.email.value, d.firstName, d.lastName,
         d.phoneNumber, match d.status case Some(s) => s case None => Active,
         now, None, d.department, d.roles)
  }

  /** `getFullName()`: first and last name joined by a space when both are set, else the username. */
  function FullName(u: User): (r: string)
    ensures u.firstName.Some? && u.lastName.Some? ==> r == u.firstName.value + " " + u.lastName.value
    ensures u.firstName.None? || u.lastName.None? ==> r == u.username
  {
    if u.firstName.Some? && u.lastName.Some? then u.firstName.value + " " + u.lastName.value
    else u.username
  }
}
