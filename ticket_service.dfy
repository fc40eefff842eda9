/**
 * TicketService: each writing operation loads a ticket, sets fields on it and saves it
 * back through the store, so `@PreUpdate` runs on the changed row; the queries map the
 * repository's find results to DTOs. There is no status transition table: any status
 * may follow any other.
 */
module TicketService {
  import opened Wrappers
  import opened Errors
  import opened Enums
  import opened Records
  import opened UserEntity
  import opened TicketEntity
  import opened Tables
  import opened Seqs
  import opened Dtos
  import opened Store
  import TicketRepository
  import TicketMapper
  import UserService

  // ---- the record changes the operations make ----

  /**
   * `setAssignedTo(user)` followed by the OPEN-to-IN_PROGRESS rule of `assignTicket` and
   * `claimTicket`: every other status is kept.
   */
  function AssignedTo(t: Ticket, userId: nat): (u: Ticket)
    ensures u.assignedTo == Some(userId)
    ensures u.status == (if t.status == Open then InProgress else t.status)
    ensures u.status != Open
    ensures Edits(t, u)
  {
    t.(assignedTo := Some(userId), status := if t.status == Open then InProgress else t.status)
  }

  /** Assigning the same user again changes nothing more. */
  lemma AssignedToIdempotent(t: Ticket, userId: nat)
    ensures AssignedTo(AssignedTo(t, userId), userId) == AssignedTo(t, userId)
  {
  }

  /** Assignment keeps every field it does not name, and the status unless it was OPEN. */
  lemma AssignedToKeepsTheRest(t: Ticket, userId: nat)
    requires t.status != Open
    ensures AssignedTo(t, userId) == t.(assignedTo := Some(userId))
  {
  }

  /**
   * Nothing ties the assignee to the status: an OPEN ticket may be assigned, for example by
   * an edit that sets an assignee and the status OPEN together.
   */
  lemma AssigneeWhileOpenPossible(t: Ticket, userId: nat, departments: map<nat, Department>)
    ensures var dto := Dtos.TicketUpdateDto(None, None, Some(Open), None, None, Some(userId), None);
      var u := Updated(t, dto, departments);
      u.status == Open && u.assignedTo == Some(userId)
  {
  }

  /**
   * What `updateTicket` makes of a loaded ticket before saving it: `updateEntity` copies the
   * DTO's non-null fields, then the assignee is replaced only when `assignedToId` is given
   * and the department only when `departmentId` is given (an unknown department id gives
   * no department).
   */
  function Updated(t: Ticket, dto: TicketUpdateDto, departments: map<nat, Department>): (u: Ticket)
    ensures u.assignedTo == (if dto.assignedToId.Some? then dto.assignedToId else t.assignedTo)
    ensures u.department == UserService.ResolveDepartment(departments, dto.departmentId, t.department)
    ensures u.(assignedTo := t.assignedTo, department := t.department) == TicketMapper.UpdateEntity(dto, t)
    ensures Edits(t, u)
  {
    var e := TicketMapper.UpdateEntity(dto, t);
    e.(assignedTo := if dto.assignedToId.Some? then dto.assignedToId else e.assignedTo,
       department := UserService.ResolveDepartment(departments, dto.departmentId, e.department))
  }

  /** An update DTO whose every field is null leaves the ticket as it was. */
  lemma EmptyUpdateChangesNothing(t: Ticket, departments: map<nat, Department>)
    ensures Updated(t, Dtos.TicketUpdateDto(None, None, None, None, None, None, None), departments) == t
  {
    TicketMapper.UpdateEntityWithNullsIsIdentity(Dtos.TicketUpdateDto(None, None, None, None, None, None, None), t);
  }

  /** A claim or an assignment saved at time `now` leaves the ticket assigned and out of OPEN. */
  lemma SavedAssignmentLeavesOpen(t: Ticket, userId: nat, now: nat)
    ensures var saved := Flush(t, AssignedTo(t, userId), now);
      saved.assignedTo == Some(userId) && saved.status != Open
      && (t.resolvedAt.Some? ==> saved.resolvedAt == t.resolvedAt)
  {
  }

  // ---- queries ----

  /**
   * `r` lists, as DTOs of `s`, exactly the stored tickets that satisfy `p`, each once
   * (no two entries carry the same ticket id), with the newest first.
   */
  ghost predicate ListsExactly(s: State, r: seq<TicketDto>, p: Ticket -> bool) {
    && (forall d :: d in r ==> exists id :: id in s.tickets && p(s.tickets[id]) && d == TicketDtoOf(s, s.tickets[id]))
    && (forall id :: id in s.tickets && p(s.tickets[id]) ==> TicketDtoOf(s, s.tickets[id]) in r)
    && (forall i, j :: 0 <= i < j < |r| ==> r[i].id != r[j].id)
    && (forall i, j :: 0 <= i < j < |r| ==> r[i].createdAt >= r[j].createdAt)
  }

  /**
   * Mapping a found list of rows, newest first and drawn from the table scan, gives those
   * rows' DTOs newest first, each once.
   */
  lemma DtosOfFound(s: State, ts: seq<Ticket>, p: Ticket -> bool)
    requires ValidState(s)
    requires forall t :: t in ts <==> t in TicketRows(s) && p(t)
    requires multiset(ts) <= multiset(TicketRows(s))
    requires TicketRepository.NewestFirst(ts)
    ensures ListsExactly(s, TicketDtos(s, ts), p)
  {
    var r := TicketDtos(s, ts);
    DtosOnce(s, ts);
    TicketRowsComplete(s);
    forall d | d in r ensures exists id :: id in s.tickets && p(s.tickets[id]) && d == TicketDtoOf(s, s.tickets[id]) {
      var i :| 0 <= i < |r| && r[i] == d;
      assert ts[i] in ts;
      assert s.tickets[ts[i].id] == ts[i];
    }
    forall id | id in s.tickets && p(s.tickets[id]) ensures TicketDtoOf(s, s.tickets[id]) in r {
      assert s.tickets[id].id == id;
      assert s.tickets[id] in ts;
      var i :| 0 <= i < |ts| && ts[i] == s.tickets[id];
      assert r[i] == TicketDtoOf(s, s.tickets[id]);
    }
    forall i, j | 0 <= i < j < |r| ensures r[i].createdAt >= r[j].createdAt {
      assert TicketRepository.CreatedAt(ts[i]) >= TicketRepository.CreatedAt(ts[j]);
    }
  }

  function DtoId(d: TicketDto): int {
    d.id
  }

  function DtoCreatedAt(d: TicketDto): int {
    d.createdAt
  }

  /** A ticket list as the queries produce it has distinct ids, newest first. */
  lemma ListedOnceNewestFirst(s: State, r: seq<TicketDto>, p: Ticket -> bool)
    requires ListsExactly(s, r, p)
    ensures DistinctBy(r, DtoId) && Descending(r, DtoCreatedAt)
  {
  }

  /** Rows drawn from the table scan map to DTOs with distinct ids. */
  lemma DtosOnce(s: State, ts: seq<Ticket>)
    requires ValidState(s)
    requires multiset(ts) <= multiset(TicketRows(s))
    ensures var r := TicketDtos(s, ts); forall i, j :: 0 <= i < j < |r| ==> r[i].id != r[j].id
  {
    var r := TicketDtos(s, ts);
    TicketRowsComplete(s);
    OncePerKeyOfSelection(ts, TicketRows(s), TicketKey);
    OncePerKeyDistinct(ts, TicketKey);
    forall i, j | 0 <= i < j < |r| ensures r[i].id != r[j].id {
      assert TicketKey(ts[i]) != TicketKey(ts[j]);
    }
  }

  function Everything(t: Ticket): bool {
    true
  }

  /** `getAllTickets`: every ticket, newest first. */
  function GetAllTickets(s: State): (r: seq<TicketDto>)
    requires ValidState(s)
    ensures ListsExactly(s, r, Everything)
  {
    var ts := TicketRepository.FindAllByOrderByCreatedAtDesc(TicketRows(s));
    SameElements(ts, TicketRows(s));
    DtosOfFound(s, ts, Everything);
    TicketDtos(s, ts)
  }

  /** `getTicketEntityById`: the stored ticket, or "Ticket not found with id". */
  function GetTicketEntityById(s: State, id: nat): (r: Result<Ticket, Error>)
    ensures r.Err? <==> id !in s.tickets
    ensures r.Err? ==> r.error == TicketNotFound(id)
    ensures r.Ok? ==> r.value == s.tickets[id]
  {
    if id in s.tickets then Ok(s.tickets[id]) else Err(TicketNotFound(id))
  }

  /** `getTicketById`: the stored ticket as a DTO, or "Ticket not found with id". */
  function GetTicketById(s: State, id: nat): (r: Result<TicketDto, Error>)
    ensures r.Err? <==> id !in s.tickets
    ensures r.Err? ==> r.error == TicketNotFound(id)
    ensures r.Ok? ==> r.value == TicketDtoOf(s, s.tickets[id])
  {
    match GetTicketEntityById(s, id)
    case Ok(t) => Ok(TicketDtoOf(s, t))
    case Err(e) => Err(e)
  }

  /** `getTicketsByStatus`. */
  function GetTicketsByStatus(s: State, st: TicketStatus): (r: seq<TicketDto>)
    requires ValidState(s)
    ensures ListsExactly(s, r, TicketRepository.HasStatus(st))
  {
    var ts := TicketRepository.FindByStatusOrderByCreatedAtDesc(TicketRows(s), st);
    DtosOfFound(s, ts, TicketRepository.HasStatus(st));
    TicketDtos(s, ts)
  }

  /** `getTicketsByPriority`. */
  function GetTicketsByPriority(s: State, p: TicketPriority): (r: seq<TicketDto>)
    requires ValidState(s)
    ensures ListsExactly(s, r, TicketRepository.HasPriority(p))
  {
    var ts := TicketRepository.FindByPriorityOrderByCreatedAtDesc(TicketRows(s), p);
    DtosOfFound(s, ts, TicketRepository.HasPriority(p));
    TicketDtos(s, ts)
  }

  /** `getTicketsByUser`: the tickets the user created. */
  function GetTicketsByUser(s: State, userId: nat): (r: seq<TicketDto>)
    requires ValidState(s)
    ensures ListsExactly(s, r, TicketRepository.CreatedById(userId))
  {
    var ts := TicketRepository.FindByCreatedByIdOrderByCreatedAtDesc(TicketRows(s), userId);
    DtosOfFound(s, ts, TicketRepository.CreatedById(userId));
    TicketDtos(s, ts)
  }

  /** `getAssignedTickets`: the tickets assigned to the user. */
  function GetAssignedTickets(s: State, userId: nat): (r: seq<TicketDto>)
    requires ValidState(s)
    ensures ListsExactly(s, r, TicketRepository.AssignedToId(userId))
  {
    var ts := TicketRepository.FindByAssignedToIdOrderByCreatedAtDesc(TicketRows(s), userId);
    DtosOfFound(s, ts, TicketRepository.AssignedToId(userId));
    TicketDtos(s, ts)
  }

  /** `searchTickets(status, priority, keyword)`. */
  function SearchTickets(s: State, status: Option<TicketStatus>, priority: Option<TicketPriority>,
                         keyword: Option<string>): (r: seq<TicketDto>)
    requires ValidState(s)
    requires keyword.Some? ==> Text.NoLikeWildcards(keyword.value)
    ensures ListsExactly(s, r, TicketRepository.SearchCondition(status, priority, keyword))
  {
    var ts := TicketRepository.SearchTickets(TicketRows(s), status, priority, keyword);
    DtosOfFound(s, ts, TicketRepository.SearchCondition(status, priority, keyword));
    TicketDtos(s, ts)
  }

  function CreatedByMatching(userId: nat, status: Option<TicketStatus>, priority: Option<TicketPriority>,
                             keyword: Option<string>): Ticket -> bool
  {
    (t: Ticket) => t.createdBy == userId && TicketRepository.MatchesSearch(t, status, priority, keyword)
  }

  /**
   * The user-scoped search the ticket pages call (`searchTicketsByUserPaginated`), without
   * paging: the search restricted to the tickets the user created.
   */
  function SearchTicketsByUser(s: State, userId: nat, status: Option<TicketStatus>,
                               priority: Option<TicketPriority>, keyword: Option<string>): (r: seq<TicketDto>)
    requires ValidState(s)
    requires keyword.Some? ==> Text.NoLikeWildcards(keyword.value)
    ensures ListsExactly(s, r, CreatedByMatching(userId, status, priority, keyword))
  {
    var ts := TicketRepository.SearchTickets(Filter(TicketRows(s), TicketRepository.CreatedById(userId)),
                                             status, priority, keyword);
    DtosOfFound(s, ts, CreatedByMatching(userId, status, priority, keyword));
    TicketDtos(s, ts)
  }

  // ---- operations that change the store ----

  /** The department a nullable id resolves to when it is set on a new ticket. */
  function NewTicketDepartment(departments: map<nat, Department>, departmentId: Option<nat>): Option<nat> {
    UserService.ResolveDepartment(departments, departmentId, None)
  }

  /**
   * `createTicket(dto, username)`: the creator is the named user, the status is OPEN
   * whatever was asked, there is no assignee, and the department is the given one if it
   * exists (an unknown id gives none, not an error).
   */
  method CreateTicket(db: Database, dto: TicketCreateDto, username: string, now: nat)
    returns (r: Result<TicketDto, Error>)
    requires db.Valid() && db.clock <= now
    modifies db
    ensures db.Valid()
    ensures r.Ok? <==> dto.title.Some? && exists k :: k in old(db.users) && old(db.users)[k].username == username
    ensures r.Err? ==> db.Snapshot() == old(db.Snapshot()).(clock := now)
    ensures r.Err? ==> r.error == (if forall k :: k in old(db.users) ==> old(db.users)[k].username != username
                                   then UsernameNotFound(username) else ConstraintViolation)
    ensures r.Ok? ==>
      && old(db.nextTicketId) in db.tickets
      && var t := db.tickets[old(db.nextTicketId)];
      && db.Snapshot() == old(db.Snapshot()).(tickets := old(db.tickets)[t.id := t],
                                              nextTicketId := t.id + 1, clock := now)
      && t.createdBy in old(db.users) && old(db.users)[t.createdBy].username == username
      && t.status == Open && t.assignedTo.None? && t.resolvedAt.None?
      && t.createdAt == now && t.updatedAt == now
      && t.title == dto.title.value && t.description == dto.description && t.category == dto.category
      && t.priority == (if dto.priority.Some? then dto.priority.value else Medium)
      && t.department == NewTicketDepartment(old(db.departments), dto.departmentId)
      && r.value == TicketDtoOf(db.Snapshot(), t)
  {
    db.Advance(now);
    var user := UserService.GetUserByUsername(db.Snapshot(), username);
    if user.Err? {
      return Err(user.error);
    }
    var draft := TicketMapper.ToEntity(dto).(createdBy := Some(user.value.id), status := Some(Open));
    if dto.departmentId.Some? {
      draft := draft.(department := NewTicketDepartment(db.departments, dto.departmentId));
    }
    var saved := db.PersistTicket(draft);
    if saved.Err? {
      return Err(saved.error);
    }
    r := Ok(TicketDtoOf(db.Snapshot(), saved.value));
  }

  /**
   * `updateTicket(id, dto)`: a missing ticket or a missing assignee fails and nothing is
   * saved; otherwise the ticket becomes `Updated(...)` and is saved.
   */
  method UpdateTicket(db: Database, id: nat, dto: TicketUpdateDto, now: nat) returns (r: Result<TicketDto, Error>)
    requires db.Valid() && db.clock <= now
    modifies db
    ensures db.Valid()
    ensures r.Err? <==> id !in old(db.tickets) || (dto.assignedToId.Some? && dto.assignedToId.value !in old(db.users))
    ensures r.Err? ==> db.Snapshot() == old(db.Snapshot()).(clock := now)
    ensures r.Err? ==> r.error == (if id !in old(db.tickets) then TicketNotFound(id) else UserNotFound(dto.assignedToId.value))
    ensures r.Ok? ==>
      var modified := Updated(old(db.tickets)[id], dto, old(db.departments));
      var saved := Flush(old(db.tickets)[id], modified, now);
      && db.Snapshot() == old(db.Snapshot()).(tickets := old(db.tickets)[id := saved], clock := now)
      && r.value == TicketDtoOf(db.Snapshot(), modified)
  {
    db.Advance(now);
    var found := GetTicketEntityById(db.Snapshot(), id);
    if found.Err? {
      return Err(found.error);
    }
    if dto.assignedToId.Some? {
      var assignee := UserService.GetUserEntityById(db.Snapshot(), dto.assignedToId.value);
      if assignee.Err? {
        return Err(assignee.error);
      }
    }
    var modified := Updated(found.value, dto, db.departments);
    var _ := db.MergeTicket(modified);
    r := Ok(TicketDtoOf(db.Snapshot(), modified));
  }

  /** `deleteTicket(id)`: the ticket and, by cascade, its comments and attachments go. */
  method DeleteTicket(db: Database, id: nat)
    requires db.Valid()
    modifies db
    ensures db.Valid()
    ensures db.Snapshot() == old(db.Snapshot()).(tickets := old(db.tickets) - {id},
                                                 comments := RowsNotOf(old(db.comments), CommentTicket, id),
                                                 attachments := RowsNotOf(old(db.attachments), AttachmentTicket, id))
    ensures id !in db.tickets
    ensures forall k :: k in db.comments ==> db.comments[k].ticketId != id
    ensures forall k :: k in db.attachments ==> db.attachments[k].ticketId != id
  {
    db.RemoveTicket(id);
  }

  /**
   * `assignTicket(ticketId, userId)`: any existing assignee is replaced, OPEN becomes
   * IN_PROGRESS and every other status is kept.
   */
  method AssignTicket(db: Database, ticketId: nat, userId: nat, now: nat) returns (r: Result<TicketDto, Error>)
    requires db.Valid() && db.clock <= now
    modifies db
    ensures db.Valid()
    ensures r.Err? <==> ticketId !in old(db.tickets) || userId !in old(db.users)
    ensures r.Err? ==> db.Snapshot() == old(db.Snapshot()).(clock := now)
    ensures r.Err? ==> r.error == (if ticketId !in old(db.tickets) then TicketNotFound(ticketId) else UserNotFound(userId))
    ensures r.Ok? ==>
      var modified := AssignedTo(old(db.tickets)[ticketId], userId);
      var saved := Flush(old(db.tickets)[ticketId], modified, now);
      && db.Snapshot() == old(db.Snapshot()).(tickets := old(db.tickets)[ticketId := saved], clock := now)
      && saved.assignedTo == Some(userId) && saved.status != Open
      && r.value == TicketDtoOf(db.Snapshot(), modified)
  {
    db.Advance(now);
    var found := GetTicketEntityById(db.Snapshot(), ticketId);
    if found.Err? {
      return Err(found.error);
    }
    var user := UserService.GetUserEntityById(db.Snapshot(), userId);
    if user.Err? {
      return Err(user.error);
    }
    var modified := AssignedTo(found.value, userId);
    var _ := db.MergeTicket(modified);
    SavedAssignmentLeavesOpen(found.value, userId, now);
    r := Ok(TicketDtoOf(db.Snapshot(), modified));
  }

  /**
   * `updateTicketStatus(ticketId, status)`: the status becomes exactly the one asked, with
   * no transition check; the save then runs `@PreUpdate` if the status changed.
   */
  method UpdateTicketStatus(db: Database, ticketId: nat, status: TicketStatus, now: nat)
    returns (r: Result<TicketDto, Error>)
    requires db.Valid() && db.clock <= now
    modifies db
    ensures db.Valid()
    ensures r.Err? <==> ticketId !in old(db.tickets)
    ensures r.Err? ==> r.error == TicketNotFound(ticketId) && db.Snapshot() == old(db.Snapshot()).(clock := now)
    ensures r.Ok? ==>
      var loaded := old(db.tickets)[ticketId];
      var saved := Flush(loaded, loaded.(status := status), now);
      && db.Snapshot() == old(db.Snapshot()).(tickets := old(db.tickets)[ticketId := saved], clock := now)
      && saved.status == status
      && saved == loaded.(status := status, updatedAt := saved.updatedAt, resolvedAt := saved.resolvedAt)
      && r.value == TicketDtoOf(db.Snapshot(), loaded.(status := status))
  {
    db.Advance(now);
    var found := GetTicketEntityById(db.Snapshot(), ticketId);
    if found.Err? {
      return Err(found.error);
    }
    var modified := found.value.(status := status);
    var _ := db.MergeTicket(modified);
    r := Ok(TicketDtoOf(db.Snapshot(), modified));
  }

  /**
   * `claimTicket(ticketId, agentId)`: a ticket that already has an assignee is refused with
   * that assignee's username, before the agent is looked up; an unassigned ticket is
   * assigned to the agent as `assignTicket` would.
   */
  method ClaimTicket(db: Database, ticketId: nat, agentId: nat, now: nat) returns (r: Result<TicketDto, Error>)
    requires db.Valid() && db.clock <= now
    modifies db
    ensures db.Valid()
    ensures r.Err? <==> || ticketId !in old(db.tickets)
                        || old(db.tickets)[ticketId].assignedTo.Some?
                        || agentId !in old(db.users)
    ensures r.Err? ==> db.Snapshot() == old(db.Snapshot()).(clock := now)
    ensures r.Err? ==> r.error == (if ticketId !in old(db.tickets) then TicketNotFound(ticketId)
                                   else if old(db.tickets)[ticketId].assignedTo.Some?
                                   then AlreadyAssigned(old(db.users)[old(db.tickets)[ticketId].assignedTo.value].username)
                                   else UserNotFound(agentId))
    ensures r.Ok? ==>
      var modified := AssignedTo(old(db.tickets)[ticketId], agentId);
      var saved := Flush(old(db.tickets)[ticketId], modified, now);
      && db.Snapshot() == old(db.Snapshot()).(tickets := old(db.tickets)[ticketId := saved], clock := now)
      && saved.assignedTo == Some(agentId) && saved.status != Open
      && r.value == TicketDtoOf(db.Snapshot(), modified)
  {
    db.Advance(now);
    var found := GetTicketEntityById(db.Snapshot(), ticketId);
    if found.Err? {
      return Err(found.error);
    }
    var t := found.value;
    if t.assignedTo.Some? {
      return Err(AlreadyAssigned(db.users[t.assignedTo.value].username));
    }
    var agent := UserService.GetUserEntityById(db.Snapshot(), agentId);
    if agent.Err? {
      return Err(agent.error);
    }
    var modified := AssignedTo(t, agentId);
    var _ := db.MergeTicket(modified);
    SavedAssignmentLeavesOpen(t, agentId, now);
    r := Ok(TicketDtoOf(db.Snapshot(), modified));
  }
}
