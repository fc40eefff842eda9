/**
 * mapper/TicketMapper.java: the MapStruct mappings between tickets and their DTOs and the
 * null-safe default methods they use. Associations are looked up by the caller and passed in.
 */
module TicketMapper {
  import opened Wrappers
  import opened Enums
  import opened Records
  import opened UserEntity
  import opened TicketEntity
  import opened Dtos
  import opened Seqs

  /**
   * `toEntity`: a new ticket object from the creation form. The status is the constant
   * OPEN; the id, timestamps, creator, assignee and department are left unset.
   */
  function ToEntity(dto: TicketCreateDto): (d: TicketDraft)
    ensures d.status == Some(Open)
    ensures d.createdBy.None? && d.assignedTo.None? && d.department.None?
    ensures d.title == dto.title && d.description == dto.description
    ensures d.priority == dto.priority && d.category == dto.category
  {
    TicketDraft(dto.title, dto.description, Some(Open), dto.priority, dto.category, None, None, None)
  }

  /**
   * `updateEntity`: the edit form's non-null title, description, status, priority and
   * category are copied onto the ticket; every other field is kept.
   */
  function UpdateEntity(dto: TicketUpdateDto, t: Ticket): (u: Ticket)
    ensures u.title == (if dto.title.Some? then dto.title.value else t.title)
    ensures u.description == (if dto.description.Some? then dto.description else t.description)
    ensures u.status == (if dto.status.Some? then dto.status.value else t.status)
    ensures u.priority == (if dto.priority.Some? then dto.priority.value else t.priority)
    ensures u.category == (if dto.category.Some? then dto.category else t.category)
    ensures u == t.(title := u.title, description := u.description, status := u.status,
                    priority := u.priority, category := u.category)
    ensures Edits(t, u)
  {
    t.(title := match dto.title case Some(x) => x case None => t.title,
       description := if dto.description.Some? then dto.description else t.description,
       status := match dto.status case Some(x) => x case None => t.status,
       priority := match dto.priority case Some(x) => x case None => t.priority,
       category := if dto.category.Some? then dto.category else t.category)
  }

  /** Applying the same edit form twice is applying it once. */
  lemma UpdateEntityIdempotent(dto: TicketUpdateDto, t: Ticket)
    ensures UpdateEntity(dto, UpdateEntity(dto, t)) == UpdateEntity(dto, t)
  {
  }

  /** An edit form whose five copied fields are all null changes nothing. */
  lemma UpdateEntityWithNullsIsIdentity(dto: TicketUpdateDto, t: Ticket)
    requires dto.title.None? && dto.description.None? && dto.status.None?
    requires dto.priority.None? && dto.category.None?
    ensures UpdateEntity(dto, t) == t
  {
  }

  /** `departmentToId`: null for no department, else its id. */
  function DepartmentToId(department: Option<Department>): (r: Option<nat>)
    ensures r.None? <==> department.None?
    ensures department.Some? ==> r.value == department.value.id
  {
    match department
    case None => None
    case Some(d) => Some(d.id)
  }

  /** `departmentToName`: null for no department, else its name. */
  function DepartmentToName(department: Option<Department>): (r: Option<string>)
    ensures r.None? <==> department.None?
    ensures department.Some? ==> r.value == department.value.name
  {
    match department
    case None => None
    case Some(d) => Some(d.name)
  }

  /** `countComments`: 0 for a null list, else its size. */
  function CountComments(comments: Option<seq<Comment>>): (n: nat)
    ensures comments.None? ==> n == 0
    ensures comments.Some? ==> n == |comments.value|
  {
    match comments
    case None => 0
    case Some(cs) => |cs|
  }

  /** `countAttachments`: 0 for a null list, else its size. */
  function CountAttachments(attachments: Option<seq<Attachment>>): (n: nat)
    ensures attachments.None? ==> n == 0
    ensures attachments.Some? ==> n == |attachments.value|
  {
    match attachments
    case None => 0
    case Some(xs) => |xs|
  }

  function UserId(u: Option<User>): Option<nat> {
    match u case None => None case Some(x) => Some(x.id)
  }

  function Username(u: Option<User>): Option<string> {
    match u case None => None case Some(x) => Some(x.username)
  }

  /**
   * `toDto`, given the ticket's creator, assignee and department rows and its comment and
   * attachment lists. A null association maps to null ids and names; no mapping fills the
   * two full names, which stay null.
   */
  function ToDto(t: Ticket, createdBy: Option<User>, assignedTo: Option<User>, department: Option<Department>,
                 comments: Option<seq<Comment>>, attachments: Option<seq<Attachment>>): (r: TicketDto)
    ensures r.id == t.id && r.title == t.title && r.description == t.description
    ensures r.status == t.status && r.priority == t.priority && r.category == t.category
    ensures r.createdAt == t.createdAt && r.updatedAt == t.updatedAt && r.resolvedAt == t.resolvedAt
    ensures createdBy.Some? ==> r.createdById == Some(createdBy.value.id)
                                && r.createdByUsername == Some(createdBy.value.username)
    ensures createdBy.None? ==> r.createdById.None? && r.createdByUsername.None?
    ensures assignedTo.Some? ==> r.assignedToId == Some(assignedTo.value.id)
                                 && r.assignedToUsername == Some(assignedTo.value.username)
    ensures assignedTo.None? ==> r.assignedToId.None? && r.assignedToUsername.None?
    ensures r.createdByFullName.None? && r.assignedToFullName.None?
    ensures r.departmentId == DepartmentToId(department) && r.departmentName == DepartmentToName(department)
    ensures r.commentCount == CountComments(comments) && r.attachmentCount == CountAttachments(attachments)
  {
    TicketDto(t.id, t.title, t.description, t.status, t.priority, t.category,
              t.createdAt, t.updatedAt, t.resolvedAt,
              UserId(createdBy), Username(createdBy), None, UserId(assignedTo), Username(assignedTo), None,
              DepartmentToId(department), DepartmentToName(department),
              CountComments(comments), CountAttachments(attachments))
  }

  /** `toDtoList`: one DTO per ticket, in the same order. */
  function ToDtoList(tickets: seq<Ticket>, toDto: Ticket -> TicketDto): (r: seq<TicketDto>)
    ensures |r| == |tickets|
    ensures forall i :: 0 <= i < |tickets| ==> r[i] == toDto(tickets[i])
  {
    Map(tickets, toDto)
  }
}

/**
 * mapper/UserMapper.java: the user mappings, the role-name projection and the two
 * null-safe ticket counters.
 */
module UserMapper {
  import opened Wrappers
  import opened Enums
  import opened Records
  import opened UserEntity
  import opened TicketEntity
  import opened Dtos
  import opened Seqs
  import TicketRepository

  /** `mapRoles`: the names of the user's roles, as a set. */
  function MapRoles(u: User, roleTable: map<nat, Role>): (r: set<string>)
    ensures forall id :: id in u.roles && id in roleTable ==> roleTable[id].name in r
    ensures forall n :: n in r ==> exists id :: id in u.roles && id in roleTable && roleTable[id].name == n
  {
    set id | id in u.roles && id in roleTable :: roleTable[id].name
  }

  /** A user holding exactly one role maps to exactly that role's name. */
  lemma MapSingleRole(u: User, roleTable: map<nat, Role>, id: nat)
    requires u.roles == {id} && id in roleTable
    ensures MapRoles(u, roleTable) == {roleTable[id].name}
  {
    var r := MapRoles(u, roleTable);
    assert roleTable[id].name in r;
    forall n | n in r ensures n == roleTable[id].name {
      var k :| k in u.roles && k in roleTable && roleTable[k].name == n;
    }
  }

  /** `countOpenTickets`: 0 for a null list, else the number of OPEN tickets in it. */
  function CountOpenTickets(tickets: Option<seq<Ticket>>): (n: nat)
    ensures tickets.None? ==> n == 0
    ensures tickets.Some? ==> n == |Filter(tickets.value, TicketRepository.HasStatus(Open))|
    ensures tickets.Some? ==> n <= |tickets.value|
  {
    match tickets
    case None => 0
    case Some(ts) =>
      CountIsFilterSize(ts, TicketRepository.HasStatus(Open));
      CountWhere(ts, TicketRepository.HasStatus(Open))
  }

  /** `countAssignedTickets`: 0 for a null list, else its size whatever the statuses. */
  function CountAssignedTickets(tickets: Option<seq<Ticket>>): (n: nat)
    ensures tickets.None? ==> n == 0
    ensures tickets.Some? ==> n == |tickets.value|
  {
    match tickets
    case None => 0
    case Some(ts) => |ts|
  }

  /**
   * `toDto`, given the user's department, role names and created and assigned ticket
   * lists. No password is exposed.
   */
  function ToDto(u: User, department: Option<Department>, roleNames: set<string>,
                 createdList: Option<seq<Ticket>>, assignedList: Option<seq<Ticket>>): (r: UserDto)
    ensures r.id == Some(u.id) && r.username == Some(u.username) && r.email == Some(u.email)
    ensures r.password.None?
    ensures r.firstName == u.firstName && r.lastName == u.lastName && r.phoneNumber == u.phoneNumber
    ensures r.status == Some(u.status) && r.roles == Some(roleNames)
    ensures department.Some? ==> r.departmentId == Some(department.value.id)
                                 && r.departmentName == Some(department.value.name)
    ensures department.None? ==> r.departmentId.None? && r.departmentName.None?
    ensures r.createdAt == Some(u.createdAt) && r.lastLogin == u.lastLogin
    ensures r.openTicketsCount == CountOpenTickets(createdList)
    ensures r.assignedTicketsCount == CountAssignedTickets(assignedList)
  {
    UserDto(Some(u.id), Some(u.username), None, Some(u.email), u.firstName, u.lastName, u.phoneNumber,
            Some(u.status),
            match department case None => None case Some(d) => Some(d.id),
            match department case None => None case Some(d) => Some(d.name),
            Some(roleNames), Some(u.createdAt), u.lastLogin,
            CountOpenTickets(createdList), CountAssignedTickets(assignedList))
  }

  /** `toDtoList`: empty for a null list, else one DTO per user in the same order. */
  function ToDtoList(users: Option<seq<User>>, toDto: User -> UserDto): (r: seq<UserDto>)
    ensures users.None? ==> r == []
    ensures users.Some? ==> |r| == |users.value|
    ensures users.Some? ==> forall i :: 0 <= i < |users.value| ==> r[i] == toDto(users.value[i])
  {
    match users
    case None => []
    case Some(us) => Map(us, toDto)
  }

  /**
   * `toEntity`: a new user object from a DTO. The id, password, department, roles and
   * timestamps are ignored, so the password is null and the role set empty.
   */
  function ToEntity(dto: UserDto): (d: UserDraft)
    ensures d.password.None? && d.department.None? && d.roles == {}
    ensures d.username == dto.username && d.email == dto.email
    ensures d.firstName == dto.firstName && d.lastName == dto.lastName && d.phoneNumber == dto.phoneNumber
    ensures d.status == dto.status
  {
    UserDraft(dto.username, None, dto.email, dto.firstName, dto.lastName, dto.phoneNumber, dto.status, None, {})
  }

  function Keep<T>(value: Option<T>, current: T): T {
    match value case Some(v) => v case None => current
  }

  function KeepOption<T>(value: Option<T>, current: Option<T>): Option<T> {
    if value.Some? then value else current
  }

  /**
   * `updateUserFromDto` with null values ignored: the non-null username, email, names,
   * phone number and status are copied; the id, password, department, roles and
   * timestamps are kept.
   */
  function UpdateFromDto(dto: UserDto, u: User): (r: User)
    ensures dto.username.Some? ==> r.username == dto.username.value
    ensures dto.username.None? ==> r.username == u.username
    ensures dto.email.Some? ==> r.email == dto.email.value
    ensures dto.email.None? ==> r.email == u.email
    ensures r.firstName == (if dto.firstName.Some? then dto.firstName else u.firstName)
    ensures r.lastName == (if dto.lastName.Some? then dto.lastName else u.lastName)
    ensures r.phoneNumber == (if dto.phoneNumber.Some? then dto.phoneNumber else u.phoneNumber)
    ensures dto.status.Some? ==> r.status == dto.status.value
    ensures dto.status.None? ==> r.status == u.status
    ensures r.id == u.id && r.password == u.password && r.department == u.department && r.roles == u.roles
    ensures r.createdAt == u.createdAt && r.lastLogin == u.lastLogin
  {
    u.(username := Keep(dto.username, u.username), email := Keep(dto.email, u.email),
       firstName := KeepOption(dto.firstName, u.firstName), lastName := KeepOption(dto.lastName, u.lastName),
       phoneNumber := KeepOption(dto.phoneNumber, u.phoneNumber), status := Keep(dto.status, u.status))
  }

  /** Applying the same DTO twice is applying it once. */
  lemma UpdateFromDtoIdempotent(dto: UserDto, u: User)
    ensures UpdateFromDto(dto, UpdateFromDto(dto, u)) == UpdateFromDto(dto, u)
  {
  }

  /** Mapping a user to its DTO and applying that DTO back changes nothing. */
  lemma UpdateFromOwnDtoIsIdentity(u: User, department: Option<Department>, roleNames: set<string>,
                                   createdList: Option<seq<Ticket>>, assignedList: Option<seq<Ticket>>)
    ensures UpdateFromDto(ToDto(u, department, roleNames, createdList, assignedList), u) == u
  {
  }
}
