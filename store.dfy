/**
 * The persistence context the services run against: one table per entity, keyed by the
 * ids the database generates (from 1 upwards), and the clock that `LocalDateTime.now()`
 * reads. The repositories' `save`, `delete` and `find*` calls are the primitives of the
 * `Database` class; the lifecycle callbacks run inside them, and the NOT NULL, UNIQUE and
 * foreign-key constraints of the schema are checked there.
 */
module Store {
  import opened Wrappers
  import opened Errors
  import opened Enums
  import opened Records
  import opened UserEntity
  import opened TicketEntity
  import opened Tables
  import opened Seqs
  import opened Dtos
  import TicketMapper
  import UserMapper
  import TicketRepository

  /** The contents of every table, the next id each table will generate, and the clock. */
  datatype State = State(
    tickets: map<nat, Ticket>,
    comments: map<nat, Comment>,
    attachments: map<nat, Attachment>,
    users: map<nat, User>,
    roles: map<nat, Role>,
    departments: map<nat, Department>,
    nextTicketId: nat,
    nextCommentId: nat,
    nextAttachmentId: nat,
    nextUserId: nat,
    nextRoleId: nat,
    nextDepartmentId: nat,
    clock: nat)

  /** A stored ticket's references resolve and its timestamps are consistent. */
  predicate TicketRowOk(t: Ticket, userIds: set<nat>, departmentIds: set<nat>, clock: nat) {
    && t.createdBy in userIds
    && (t.assignedTo.Some? ==> t.assignedTo.value in userIds)
    && (t.department.Some? ==> t.department.value in departmentIds)
    && Consistent(t, clock)
  }

  ghost predicate TicketsOk(s: State) {
    forall id :: id in s.tickets ==>
      && s.tickets[id].id == id && 0 < id < s.nextTicketId
      && TicketRowOk(s.tickets[id], s.users.Keys, s.departments.Keys, s.clock)
  }

  ghost predicate CommentsOk(s: State) {
    forall id :: id in s.comments ==>
      && s.comments[id].id == id && 0 < id < s.nextCommentId
      && s.comments[id].ticketId in s.tickets && s.comments[id].userId in s.users
      && s.comments[id].createdAt <= s.clock
  }

  ghost predicate AttachmentsOk(s: State) {
    forall id :: id in s.attachments ==>
      && s.attachments[id].id == id && 0 < id < s.nextAttachmentId
      && s.attachments[id].ticketId in s.tickets
      && (s.attachments[id].uploadedBy.Some? ==> s.attachments[id].uploadedBy.value in s.users)
  }

  /** A stored user's references resolve and it was created no later than the clock. */
  predicate UserRowOk(u: User, roleIds: set<nat>, departmentIds: set<nat>, clock: nat) {
    && u.roles <= roleIds
    && (u.department.Some? ==> u.department.value in departmentIds)
    && u.createdAt <= clock
  }

  /** The UNIQUE constraints on `username` and `email`. */
  ghost predicate UniqueUsers(users: map<nat, User>) {
    forall a, b :: a in users && b in users && a != b ==>
      users[a].username != users[b].username && users[a].email != users[b].email
  }

  ghost predicate UsersOk(s: State) {
    && (forall id :: id in s.users ==>
          && s.users[id].id == id && 0 < id < s.nextUserId
          && UserRowOk(s.users[id], s.roles.Keys, s.departments.Keys, s.clock))
    && UniqueUsers(s.users)
  }

  ghost predicate RolesOk(s: State) {
    forall id :: id in s.roles ==> s.roles[id].id == id && 0 < id < s.nextRoleId
  }

  /** Departments are keyed by id, and the UNIQUE constraint on `name` holds. */
  ghost predicate DepartmentsOk(s: State) {
    && (forall id :: id in s.departments ==> s.departments[id].id == id && 0 < id < s.nextDepartmentId)
    && (forall a, b :: a in s.departments && b in s.departments && s.departments[a].name == s.departments[b].name ==> a == b)
  }

  /** Every table is keyed by its rows' ids, every reference resolves and every constraint holds. */
  ghost predicate ValidState(s: State) {
    && TicketsOk(s) && CommentsOk(s) && AttachmentsOk(s)
    && UsersOk(s) && RolesOk(s) && DepartmentsOk(s)
    && s.nextTicketId > 0 && s.nextCommentId > 0 && s.nextAttachmentId > 0
    && s.nextUserId > 0 && s.nextRoleId > 0 && s.nextDepartmentId > 0
  }

  /** The empty schema, before any row is written. */
  function Empty(): (s: State)
    ensures ValidState(s)
  {
    State(map[], map[], map[], map[], map[], map[], 1, 1, 1, 1, 1, 1, 0)
  }

  /** No other user than `u` itself already has `u`'s username or email. */
  predicate NoCollision(users: map<nat, User>, u: User) {
    forall k :: k in users && k != u.id ==> users[k].username != u.username && users[k].email != u.email
  }

  /** A stored user saved back with its own username and email collides with nobody. */
  lemma SameKeysNoCollision(s: State, u: User)
    requires ValidState(s) && u.id in s.users
    requires u.username == s.users[u.id].username && u.email == s.users[u.id].email
    ensures NoCollision(s.users, u)
  {
  }

  /** Some row still refers to the user: as creator or assignee, as comment author or as uploader. */
  predicate Referenced(s: State, userId: nat) {
    || (exists id :: id in s.tickets && (s.tickets[id].createdBy == userId || s.tickets[id].assignedTo == Some(userId)))
    || (exists id :: id in s.comments && s.comments[id].userId == userId)
    || (exists id :: id in s.attachments && s.attachments[id].uploadedBy == Some(userId))
  }

  /**
   * The rows of a child table (comments, attachments) that do not belong to the given ticket:
   * what the cascade of its deletion leaves.
   */
  function RowsNotOf<R>(rows: map<nat, R>, ticketOf: R -> nat, ticketId: nat): (r: map<nat, R>)
    ensures forall k :: k in r <==> k in rows && ticketOf(rows[k]) != ticketId
    ensures forall k :: k in r ==> r[k] == rows[k]
  {
    map k | k in rows && ticketOf(rows[k]) != ticketId :: rows[k]
  }

  function CommentTicket(c: Comment): nat {
    c.ticketId
  }

  function AttachmentTicket(a: Attachment): nat {
    a.ticketId
  }

  // ---- queries over a state ----

  function TicketRows(s: State): seq<Ticket> {
    RowsBelow(s.tickets, s.nextTicketId)
  }

  function UserRows(s: State): seq<User> {
    RowsBelow(s.users, s.nextUserId)
  }

  function CommentRows(s: State): seq<Comment> {
    RowsBelow(s.comments, s.nextCommentId)
  }

  function AttachmentRows(s: State): seq<Attachment> {
    RowsBelow(s.attachments, s.nextAttachmentId)
  }

  function DepartmentRows(s: State): seq<Department> {
    RowsBelow(s.departments, s.nextDepartmentId)
  }

  /** In a valid state the scan of a table lists exactly its rows. */
  /** The primary keys the scans are ordered by. */
  function TicketKey(t: Ticket): nat {
    t.id
  }

  function UserKey(u: User): nat {
    u.id
  }

  function CommentKey(c: Comment): nat {
    c.id
  }

  lemma TicketRowsComplete(s: State)
    requires ValidState(s)
    ensures forall t :: t in TicketRows(s) <==> t.id in s.tickets && s.tickets[t.id] == t
    ensures OncePerKey(TicketRows(s), TicketKey)
  {
    RowsBelowOnce(s.tickets, s.nextTicketId, TicketKey);
  }

  lemma UserRowsComplete(s: State)
    requires ValidState(s)
    ensures forall u :: u in UserRows(s) <==> u.id in s.users && s.users[u.id] == u
    ensures OncePerKey(UserRows(s), UserKey)
  {
    RowsBelowOnce(s.users, s.nextUserId, UserKey);
  }

  lemma CommentRowsComplete(s: State)
    requires ValidState(s)
    ensures forall c :: c in CommentRows(s) <==> c.id in s.comments && s.comments[c.id] == c
    ensures OncePerKey(CommentRows(s), CommentKey)
  {
    RowsBelowOnce(s.comments, s.nextCommentId, CommentKey);
  }

  function HasUsername(username: string): User -> bool {
    (u: User) => u.username == username
  }

  function HasEmail(email: string): User -> bool {
    (u: User) => u.email == email
  }

  function HasRoleName(name: string): Role -> bool {
    (r: Role) => r.name == name
  }

  /** `userRepository.findByUsername`: the user with that username, if any. */
  function FindUserByUsername(s: State, username: string): (r: Option<User>)
    requires ValidState(s)
    ensures r.Some? ==> r.value.id in s.users && s.users[r.value.id] == r.value && r.value.username == username
    ensures r.None? ==> forall k :: k in s.users ==> s.users[k].username != username
  {
    match FindKey(s.users, HasUsername(username), s.nextUserId)
    case None => None
    case Some(k) => Some(s.users[k])
  }

  /** `userRepository.findByEmail`: the user with that email, if any. */
  function FindUserByEmail(s: State, email: string): (r: Option<User>)
    requires ValidState(s)
    ensures r.Some? ==> r.value.id in s.users && s.users[r.value.id] == r.value && r.value.email == email
    ensures r.None? ==> forall k :: k in s.users ==> s.users[k].email != email
  {
    match FindKey(s.users, HasEmail(email), s.nextUserId)
    case None => None
    case Some(k) => Some(s.users[k])
  }

  /** `roleRepository.findByName`: the first role with that name, if any. */
  function FindRoleByName(s: State, name: string): (r: Option<Role>)
    requires ValidState(s)
    ensures r.Some? ==> r.value.id in s.roles && s.roles[r.value.id] == r.value && r.value.name == name
    ensures r.None? ==> forall k :: k in s.roles ==> s.roles[k].name != name
  {
    match FindKey(s.roles, HasRoleName(name), s.nextRoleId)
    case None => None
    case Some(k) => Some(s.roles[k])
  }

  /** By the UNIQUE constraint, the user found by a username is the only one with it. */
  lemma UsernameIdentifiesUser(s: State, id: nat)
    requires ValidState(s) && id in s.users
    ensures FindUserByUsername(s, s.users[id].username) == Some(s.users[id])
  {
  }

  function IsCommentOf(ticketId: nat): Comment -> bool {
    (c: Comment) => c.ticketId == ticketId
  }

  function IsAttachmentOf(ticketId: nat): Attachment -> bool {
    (a: Attachment) => a.ticketId == ticketId
  }

  /** The ticket's `comments` collection. */
  function CommentsOf(s: State, ticketId: nat): (r: seq<Comment>)
    ensures forall c :: c in r <==> c in CommentRows(s) && c.ticketId == ticketId
  {
    Filter(CommentRows(s), IsCommentOf(ticketId))
  }

  /** The ticket's `attachments` collection. */
  function AttachmentsOf(s: State, ticketId: nat): (r: seq<Attachment>)
    ensures forall a :: a in r <==> a in AttachmentRows(s) && a.ticketId == ticketId
  {
    Filter(AttachmentRows(s), IsAttachmentOf(ticketId))
  }

  /** The ticket as `ticketMapper.toDto` renders it, with its associations loaded from `s`. */
  function TicketDtoOf(s: State, t: Ticket): (r: TicketDto)
    ensures r.id == t.id && r.status == t.status && r.priority == t.priority
    ensures r.createdByUsername == (if t.createdBy in s.users then Some(s.users[t.createdBy].username) else None)
    ensures r.assignedToUsername == (if t.assignedTo.Some? && t.assignedTo.value in s.users
                                     then Some(s.users[t.assignedTo.value].username) else None)
  {
    TicketMapper.ToDto(t, Lookup(s.users, t.createdBy), LookupOpt(s.users, t.assignedTo),
                       LookupOpt(s.departments, t.department),
                       Some(CommentsOf(s, t.id)), Some(AttachmentsOf(s, t.id)))
  }

  /** `ticketMapper.toDtoList` over rows of `s`. */
  function TicketDtos(s: State, ts: seq<Ticket>): (r: seq<TicketDto>)
    ensures |r| == |ts| && forall i :: 0 <= i < |ts| ==> r[i] == TicketDtoOf(s, ts[i])
  {
    TicketMapper.ToDtoList(ts, t => TicketDtoOf(s, t))
  }

  /** The user as `userMapper.toDto` renders it, with its associations loaded from `s`. */
  function UserDtoOf(s: State, u: User): (r: UserDto)
    ensures r.id == Some(u.id) && r.username == Some(u.username) && r.status == Some(u.status)
    ensures r.password.None?
    ensures r.roles == Some(UserMapper.MapRoles(u, s.roles))
  {
    UserMapper.ToDto(u, LookupOpt(s.departments, u.department), UserMapper.MapRoles(u, s.roles),
                     Some(Filter(TicketRows(s), TicketRepository.CreatedById(u.id))),
                     Some(Filter(TicketRows(s), TicketRepository.AssignedToId(u.id))))
  }

  /**
   * The counts of a user's DTO agree with the repository's count queries: the open count is
   * `countByCreatedBy_IdAndStatus(id, OPEN)`, the assigned count is the size of
   * `findByAssignedTo_Id`, and the active assigned tickets of the dashboard are among them.
   */
  lemma UserDtoCountsAgree(s: State, u: User)
    ensures UserDtoOf(s, u).openTicketsCount
            == TicketRepository.CountByCreatedByIdAndStatus(TicketRows(s), u.id, Open)
    ensures UserDtoOf(s, u).assignedTicketsCount
            == |TicketRepository.FindByAssignedToIdOrderByCreatedAtDesc(TicketRows(s), u.id)|
    ensures TicketRepository.CountActiveTicketsByAssignedTo(TicketRows(s), u.id)
            <= UserDtoOf(s, u).assignedTicketsCount
  {
    var rows := TicketRows(s);
    var mine := Filter(rows, TicketRepository.CreatedById(u.id));
    CountIsFilterSize(mine, TicketRepository.HasStatus(Open));
    CountOfFilter(rows, TicketRepository.CreatedById(u.id), TicketRepository.HasStatus(Open),
                  TicketRepository.CreatedByWithStatus(u.id, Open));
    var theirs := TicketRepository.FindByAssignedToIdOrderByCreatedAtDesc(rows, u.id);
    assert |multiset(theirs)| == |multiset(Filter(rows, TicketRepository.AssignedToId(u.id)))|;
  }

  // ---- invariant preservation for the state changes the primitives make ----

  lemma AdvanceValid(s: State, now: nat)
    requires ValidState(s) && s.clock <= now
    ensures ValidState(s.(clock := now))
  {
    var s' := s.(clock := now);
    forall id | id in s'.tickets ensures TicketRowOk(s'.tickets[id], s'.users.Keys, s'.departments.Keys, now) {
      ConsistentLater(s.tickets[id], s.clock, now);
    }
  }

  lemma PutTicketValid(s: State, t: Ticket)
    requires ValidState(s)
    requires 0 < t.id < s.nextTicketId || t.id == s.nextTicketId
    requires TicketRowOk(t, s.users.Keys, s.departments.Keys, s.clock)
    ensures ValidState(s.(tickets := s.tickets[t.id := t], nextTicketId := if t.id == s.nextTicketId then t.id + 1 else s.nextTicketId))
  {
  }

  lemma RemoveTicketValid(s: State, id: nat)
    requires ValidState(s)
    ensures ValidState(s.(tickets := s.tickets - {id}, comments := RowsNotOf(s.comments, CommentTicket, id),
                          attachments := RowsNotOf(s.attachments, AttachmentTicket, id)))
  {
  }

  lemma PutUserValid(s: State, u: User)
    requires ValidState(s)
    requires 0 < u.id < s.nextUserId || u.id == s.nextUserId
    requires u.id == s.nextUserId ==> u.id !in s.users
    requires UserRowOk(u, s.roles.Keys, s.departments.Keys, s.clock) && NoCollision(s.users, u)
    ensures ValidState(s.(users := s.users[u.id := u], nextUserId := if u.id == s.nextUserId then u.id + 1 else s.nextUserId))
  {
    var users := s.users[u.id := u];
    forall a, b | a in users && b in users && a != b
      ensures users[a].username != users[b].username && users[a].email != users[b].email
    {
      if a == u.id {
        assert users[b] == s.users[b];
      } else if b == u.id {
        assert users[a] == s.users[a];
      }
    }
  }

  lemma RemoveUserValid(s: State, id: nat)
    requires ValidState(s) && !Referenced(s, id)
    ensures ValidState(s.(users := s.users - {id}))
  {
    var s' := s.(users := s.users - {id});
    forall k | k in s'.tickets ensures TicketRowOk(s'.tickets[k], s'.users.Keys, s'.departments.Keys, s'.clock) {
      assert s.tickets[k].createdBy != id;
    }
    forall k | k in s'.comments ensures s'.comments[k].userId in s'.users {
      assert s.comments[k].userId != id;
    }
    forall k | k in s'.attachments && s'.attachments[k].uploadedBy.Some?
      ensures s'.attachments[k].uploadedBy.value in s'.users
    {
      assert s.attachments[k].uploadedBy != Some(id);
    }
  }

  /** The tables a service writes, held by one object; every method keeps `Valid()`. */
  class Database {
    var tickets: map<nat, Ticket>
    var comments: map<nat, Comment>
    var attachments: map<nat, Attachment>
    var users: map<nat, User>
    var roles: map<nat, Role>
    var departments: map<nat, Department>
    var nextTicketId: nat
    var nextCommentId: nat
    var nextAttachmentId: nat
    var nextUserId: nat
    var nextRoleId: nat
    var nextDepartmentId: nat
    var clock: nat

    /** The value of every table. */
    function Snapshot(): State
      reads this
    {
      State(tickets, comments, attachments, users, roles, departments,
            nextTicketId, nextCommentId, nextAttachmentId, nextUserId, nextRoleId, nextDepartmentId, clock)
    }

    ghost predicate Valid()
      reads this
    {
      ValidState(Snapshot())
    }

    constructor()
      ensures Valid() && Snapshot() == Empty()
    {
      tickets, comments, attachments := map[], map[], map[];
      users, roles, departments := map[], map[], map[];
      nextTicketId, nextCommentId, nextAttachmentId := 1, 1, 1;
      nextUserId, nextRoleId, nextDepartmentId := 1, 1, 1;
      clock := 0;
    }

    /** The clock reads `now`, which is no earlier than its last reading. */
    method Advance(now: nat)
      requires Valid() && clock <= now
      modifies this
      ensures Valid() && Snapshot() == old(Snapshot()).(clock := now)
    {
      AdvanceValid(Snapshot(), now);
      clock := now;
    }

    /** A transaction that fails restores the tables it started from. */
    method Rollback(s: State)
      requires ValidState(s)
      modifies this
      ensures Snapshot() == s && Valid()
    {
      RestoreTables(s);
      RestoreCounters(s);
    }

    method RestoreTables(s: State)
      modifies this
      ensures tickets == s.tickets && comments == s.comments && attachments == s.attachments
      ensures users == s.users && roles == s.roles && departments == s.departments
      ensures nextTicketId == old(nextTicketId) && nextCommentId == old(nextCommentId)
      ensures nextAttachmentId == old(nextAttachmentId) && nextUserId == old(nextUserId)
      ensures nextRoleId == old(nextRoleId) && nextDepartmentId == old(nextDepartmentId) && clock == old(clock)
    {
      tickets, comments, attachments := s.tickets, s.comments, s.attachments;
      users, roles, departments := s.users, s.roles, s.departments;
    }

    method RestoreCounters(s: State)
      modifies this
      ensures tickets == old(tickets) && comments == old(comments) && attachments == old(attachments)
      ensures users == old(users) && roles == old(roles) && departments == old(departments)
      ensures nextTicketId == s.nextTicketId && nextCommentId == s.nextCommentId
      ensures nextAttachmentId == s.nextAttachmentId && nextUserId == s.nextUserId
      ensures nextRoleId == s.nextRoleId && nextDepartmentId == s.nextDepartmentId && clock == s.clock
    {
      nextTicketId, nextCommentId, nextAttachmentId := s.nextTicketId, s.nextCommentId, s.nextAttachmentId;
      nextUserId, nextRoleId, nextDepartmentId := s.nextUserId, s.nextRoleId, s.nextDepartmentId;
      clock := s.clock;
    }

    /**
     * `ticketRepository.save` of a new ticket: `@PrePersist` runs with the clock, the next
     * id is assigned, and a null title or creator is refused by its NOT NULL column.
     */
    method PersistTicket(d: TicketDraft) returns (r: Result<Ticket, Error>)
      requires Valid()
      requires d.createdBy.Some? ==> d.createdBy.value in users
      requires d.assignedTo.Some? ==> d.assignedTo.value in users
      requires d.department.Some? ==> d.department.value in departments
      modifies this
      ensures Valid()
      ensures r.Ok? <==> TicketEntity.NotNullColumnsSet(d)
      ensures r.Ok? ==> && r.value == TicketEntity.OnCreate(d, old(nextTicketId), old(clock))
                        && Snapshot() == old(Snapshot()).(tickets := old(tickets)[r.value.id := r.value],
                                                          nextTicketId := old(nextTicketId) + 1)
      ensures r.Err? ==> r.error == ConstraintViolation && Snapshot() == old(Snapshot())
    {
      if !TicketEntity.NotNullColumnsSet(d) {
        return Err(ConstraintViolation);
      }
      var t := TicketEntity.OnCreate(d, nextTicketId, clock);
      OnCreateConsistent(d, nextTicketId, clock, clock);
      PutTicketValid(Snapshot(), t);
      tickets := tickets[t.id := t];
      nextTicketId := nextTicketId + 1;
      r := Ok(t);
    }

    /**
     * `ticketRepository.save` of a loaded ticket modified in memory: the flush writes it
     * back, running `@PreUpdate` only if it changed.
     */
    method MergeTicket(modified: Ticket) returns (saved: Ticket)
      requires Valid()
      requires modified.id in tickets && Edits(tickets[modified.id], modified)
      requires modified.assignedTo.Some? ==> modified.assignedTo.value in users
      requires modified.department.Some? ==> modified.department.value in departments
      modifies this
      ensures Valid()
      ensures saved == Flush(old(tickets[modified.id]), modified, old(clock))
      ensures Snapshot() == old(Snapshot()).(tickets := old(tickets)[modified.id := saved])
    {
      var loaded := tickets[modified.id];
      saved := Flush(loaded, modified, clock);
      FlushKeepsHistory(loaded, modified, clock, clock);
      PutTicketValid(Snapshot(), saved);
      tickets := tickets[modified.id := saved];
    }

    /**
     * `ticketRepository.deleteById`: the ticket goes, and with it, by the cascade on its
     * two collections, its comments and attachments. A missing id deletes nothing.
     */
    method RemoveTicket(id: nat)
      requires Valid()
      modifies this
      ensures Valid()
      ensures Snapshot() == old(Snapshot()).(tickets := old(tickets) - {id},
                                             comments := RowsNotOf(old(comments), CommentTicket, id),
                                             attachments := RowsNotOf(old(attachments), AttachmentTicket, id))
    {
      RemoveTicketValid(Snapshot(), id);
      tickets := tickets - {id};
      comments := RowsNotOf(comments, CommentTicket, id);
      attachments := RowsNotOf(attachments, AttachmentTicket, id);
    }

    /** `commentRepository.save` of a new comment: `@PrePersist` stamps `createdAt`. */
    method PersistComment(content: string, ticketId: nat, userId: nat) returns (c: Comment)
      requires Valid() && ticketId in tickets && userId in users
      modifies this
      ensures Valid()
      ensures c == Comment(old(nextCommentId), content, ticketId, userId, old(clock), false)
      ensures Snapshot() == old(Snapshot()).(comments := old(comments)[c.id := c],
                                             nextCommentId := old(nextCommentId) + 1)
    {
      c := Comment(nextCommentId, content, ticketId, userId, clock, false);
      comments := comments[c.id := c];
      nextCommentId := nextCommentId + 1;
    }

    /** `commentRepository.delete`. */
    method RemoveComment(id: nat)
      requires Valid()
      modifies this
      ensures Valid()
      ensures Snapshot() == old(Snapshot()).(comments := old(comments) - {id})
    {
      comments := comments - {id};
    }

    /** `roleRepository.save` of a new role. */
    method PersistRole(name: string, description: string) returns (role: Role)
      requires Valid()
      modifies this
      ensures Valid()
      ensures role == Role(old(nextRoleId), name, description)
      ensures Snapshot() == old(Snapshot()).(roles := old(roles)[role.id := role], nextRoleId := old(nextRoleId) + 1)
    {
      role := Role(nextRoleId, name, description);
      roles := roles[role.id := role];
      nextRoleId := nextRoleId + 1;
    }

    /**
     * `userRepository.save` of a new user: `@PrePersist` runs with the clock and the next
     * id is assigned; a null NOT NULL column or a taken username or email is refused.
     */
    method PersistUser(d: UserDraft) returns (r: Result<User, Error>)
      requires Valid()
      requires d.roles <= roles.Keys
      requires d.department.Some? ==> d.department.value in departments
      modifies this
      ensures Valid()
      ensures r.Ok? <==> UserEntity.NotNullColumnsSet(d) && NoCollision(old(users), UserEntity.OnCreate(d, old(nextUserId), old(clock)))
      ensures r.Ok? ==> && r.value == UserEntity.OnCreate(d, old(nextUserId), old(clock))
                        && Snapshot() == old(Snapshot()).(users := old(users)[r.value.id := r.value],
                                                          nextUserId := old(nextUserId) + 1)
      ensures r.Err? ==> r.error == ConstraintViolation && Snapshot() == old(Snapshot())
    {
      if !UserEntity.NotNullColumnsSet(d) {
        return Err(ConstraintViolation);
      }
      var u := UserEntity.OnCreate(d, nextUserId, clock);
      if exists k :: k in users && k != u.id && (users[k].username == u.username || users[k].email == u.email) {
        return Err(ConstraintViolation);
      }
      PutUserValid(Snapshot(), u);
      users := users[u.id := u];
      nextUserId := nextUserId + 1;
      r := Ok(u);
    }

    /**
     * `userRepository.save` of a loaded user modified in memory; a username or email
     * another user holds is refused by the UNIQUE constraints.
     */
    method MergeUser(u: User) returns (r: Result<User, Error>)
      requires Valid()
      requires u.id in users && u.createdAt == users[u.id].createdAt
      requires UserRowOk(u, roles.Keys, departments.Keys, clock)
      modifies this
      ensures Valid()
      ensures r.Ok? <==> NoCollision(old(users), u)
      ensures r.Ok? ==> r.value == u && Snapshot() == old(Snapshot()).(users := old(users)[u.id := u])
      ensures r.Err? ==> r.error == ConstraintViolation && Snapshot() == old(Snapshot())
    {
      if exists k :: k in users && k != u.id && (users[k].username == u.username || users[k].email == u.email) {
        return Err(ConstraintViolation);
      }
      PutUserValid(Snapshot(), u);
      users := users[u.id := u];
      r := Ok(u);
    }

    /**
     * `userRepository.delete` / `deleteById`: a missing id deletes nothing; a user some row
     * still refers to is refused by the foreign keys; otherwise the row goes (its role
     * links go with it).
     */
    method RemoveUser(id: nat) returns (r: Result<(), Error>)
      requires Valid()
      modifies this
      ensures Valid()
      ensures r.Err? <==> id in old(users) && Referenced(old(Snapshot()), id)
      ensures r.Err? ==> r.error == ConstraintViolation && Snapshot() == old(Snapshot())
      ensures r.Ok? ==> Snapshot() == old(Snapshot()).(users := old(users) - {id})
    {
      if id !in users {
        assert users - {id} == users;
        return Ok(());
      }
      if Referenced(Snapshot(), id) {
        return Err(ConstraintViolation);
      }
      RemoveUserValid(Snapshot(), id);
      users := users - {id};
      r := Ok(());
    }
  }
}
