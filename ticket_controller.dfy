/**
 * TicketController: the ticket pages. The lists and the search are scoped to the caller's
 * own tickets for plain users; editing and deleting are refused to callers who are
 * neither admin nor creator, before anything else is looked at; viewing is not restricted.
 */
module TicketController {
  import opened Wrappers
  import opened Errors
  import opened Enums
  import opened Records
  import opened TicketEntity
  import opened Tables
  import opened Dtos
  import opened Store
  import opened Access
  import opened Validation
  import TicketRepository
  import TicketService
  import CommentService
  import UserService

  /** How a form submission ends: done, refused, sent back with its errors, or failed. */
  datatype Outcome = Done | AccessDenied | FormErrors(violations: set<Violation>) | Failed(error: Error)

  /** Every ticket of a list was created by the user `userId`, who is the caller. */
  lemma ScopedToCreator(s: State, r: seq<TicketDto>, p: Ticket -> bool, userId: nat, caller: Caller)
    requires ValidState(s) && userId in s.users && s.users[userId].username == caller.username
    requires TicketService.ListsExactly(s, r, p)
    requires forall t :: p(t) ==> t.createdBy == userId
    ensures forall d :: d in r ==> d.createdByUsername == Some(caller.username)
  {
    forall d | d in r ensures d.createdByUsername == Some(caller.username) {
      var id :| id in s.tickets && p(s.tickets[id]) && d == TicketDtoOf(s, s.tickets[id]);
    }
  }

  /**
   * `listTickets`, without paging: a plain user gets the tickets it created, anyone else
   * every ticket; a plain user whose name is unknown gets an error.
   */
  function ListTickets(s: State, caller: Caller): (r: Result<seq<TicketDto>, Error>)
    requires ValidState(s)
    ensures r.Err? <==> IsPlainUser(caller) && forall k :: k in s.users ==> s.users[k].username != caller.username
    ensures !IsPlainUser(caller) ==> r.Ok? && TicketService.ListsExactly(s, r.value, TicketService.Everything)
    ensures IsPlainUser(caller) && r.Ok? ==>
      && (exists id :: id in s.users && s.users[id].username == caller.username &&
                       TicketService.ListsExactly(s, r.value, TicketRepository.CreatedById(id)))
      && forall d :: d in r.value ==> d.createdByUsername == Some(caller.username)
  {
    if IsPlainUser(caller) then
      match UserService.GetUserByUsername(s, caller.username)
      case Err(e) => Err(e)
      case Ok(u) =>
        var r := TicketService.GetTicketsByUser(s, u.id);
        ScopedToCreator(s, r, TicketRepository.CreatedById(u.id), u.id, caller);
        Ok(r)
    else Ok(TicketService.GetAllTickets(s))
  }

  /** The search page's list and total; a failure shows an empty list, a zero total and an error. */
  datatype SearchPage = SearchPage(tickets: seq<TicketDto>, totalItems: nat, failed: bool)

  /**
   * `searchTickets`, without paging: scoped as the list is. Everything happens inside one
   * `try`, so an unknown plain user, or a failure of the search, which is not part of this
   * model and is given as `searchFails`, yields the empty page.
   */
  function SearchTickets(s: State, caller: Caller, status: Option<TicketStatus>, priority: Option<TicketPriority>,
                         keyword: Option<string>, searchFails: bool): (r: SearchPage)
    requires ValidState(s)
    requires keyword.Some? ==> Text.NoLikeWildcards(keyword.value)
    ensures r.failed <==> searchFails || (IsPlainUser(caller) &&
                                         forall k :: k in s.users ==> s.users[k].username != caller.username)
    ensures r.failed ==> r.tickets == [] && r.totalItems == 0
    ensures !r.failed ==> r.totalItems == |r.tickets|
    ensures !r.failed && !IsPlainUser(caller) ==>
      TicketService.ListsExactly(s, r.tickets, TicketRepository.SearchCondition(status, priority, keyword))
    ensures !r.failed && IsPlainUser(caller) ==>
      && (exists id :: id in s.users && s.users[id].username == caller.username &&
            TicketService.ListsExactly(s, r.tickets, TicketService.CreatedByMatching(id, status, priority, keyword)))
      && forall d :: d in r.tickets ==> d.createdByUsername == Some(caller.username)
  {
    if searchFails then SearchPage([], 0, true)
    else if IsPlainUser(caller) then
      match UserService.GetUserByUsername(s, caller.username)
      case Err(_) => SearchPage([], 0, true)
      case Ok(u) =>
        var ts := TicketService.SearchTicketsByUser(s, u.id, status, priority, keyword);
        ScopedToCreator(s, ts, TicketService.CreatedByMatching(u.id, status, priority, keyword), u.id, caller);
        SearchPage(ts, |ts|, false)
    else
      var ts := TicketService.SearchTickets(s, status, priority, keyword);
      SearchPage(ts, |ts|, false)
  }

  /** What the ticket page shows: the ticket, its comments and the caller's permissions. */
  datatype TicketView = TicketView(ticket: TicketDto, comments: seq<CommentDto>,
                                   isOwner: bool, isAdmin: bool, isAgent: bool, canEdit: bool, canDelete: bool)

  /** `viewTicket`: any existing ticket is shown to any caller; only the offered actions depend on who asks. */
  function ViewTicket(s: State, caller: Caller, id: nat): (r: Result<TicketView, Error>)
    requires ValidState(s)
    ensures r.Err? <==> id !in s.tickets
    ensures r.Err? ==> r.error == TicketNotFound(id)
    ensures r.Ok? ==> && r.value.ticket == TicketDtoOf(s, s.tickets[id])
                      && r.value.comments == CommentService.GetCommentsByTicketId(s, id)
                      && r.value.canEdit == CanEdit(r.value.ticket, caller)
                      && r.value.canDelete == CanDelete(r.value.ticket, caller)
                      && r.value.isOwner == IsOwner(r.value.ticket, caller)
  {
    match TicketService.GetTicketById(s, id)
    case Err(e) => Err(e)
    case Ok(t) =>
      Ok(TicketView(t, CommentService.GetCommentsByTicketId(s, id), IsOwner(t, caller), IsAdmin(caller),
                    IsAgent(caller), IsAdmin(caller) || IsOwner(t, caller), IsAdmin(caller) || IsOwner(t, caller)))
  }

  function HasDepartmentName(name: string): Department -> bool {
    (d: Department) => d.name == name
  }

  /** The first user, in id order, with the given username (`getAllUsers().stream().filter(...).findFirst()`). */
  function UserIdNamed(s: State, username: Option<string>): Option<nat> {
    if username.None? then None
    else FindKey(s.users, HasUsername(username.value), s.nextUserId)
  }

  /** The first department, in id order, with the given name. */
  function DepartmentIdNamed(s: State, name: Option<string>): Option<nat> {
    if name.None? then None
    else FindKey(s.departments, HasDepartmentName(name.value), s.nextDepartmentId)
  }

  /** The edit form: refused, or the ticket with the update DTO it is prefilled with. */
  datatype EditForm = EditDenied | EditPage(ticket: TicketDto, prefill: TicketUpdateDto)

  /**
   * `editTicketForm`: refused to callers who are neither admin nor creator; otherwise the
   * form carries the ticket's own fields, the assignee found again by username and the
   * department found again by name.
   */
  function EditTicketForm(s: State, caller: Caller, id: nat): (r: Result<EditForm, Error>)
    requires ValidState(s)
    ensures r.Err? <==> id !in s.tickets
    ensures r.Err? ==> r.error == TicketNotFound(id)
    ensures r.Ok? ==> (r.value.EditDenied? <==> !CanEdit(TicketDtoOf(s, s.tickets[id]), caller))
    ensures r.Ok? && r.value.EditPage? ==>
      var t := s.tickets[id];
      var p := r.value.prefill;
      && p.title == Some(t.title) && p.description == t.description && p.status == Some(t.status)
      && p.priority == Some(t.priority) && p.category == t.category
      && p.assignedToId == t.assignedTo
      && p.departmentId == t.department
  {
    match TicketService.GetTicketById(s, id)
    case Err(e) => Err(e)
    case Ok(d) =>
      if !(IsAdmin(caller) || IsOwner(d, caller)) then Ok(EditDenied)
      else
        PrefillFindsAssignee(s, s.tickets[id]);
        PrefillFindsDepartment(s, s.tickets[id]);
        Ok(EditPage(d, TicketUpdateDto(Some(d.title), d.description, Some(d.status), Some(d.priority), d.category,
                                       UserIdNamed(s, d.assignedToUsername), DepartmentIdNamed(s, d.departmentName))))
  }

  /** Usernames are unique, so the assignee found again by username is the ticket's assignee. */
  lemma PrefillFindsAssignee(s: State, t: Ticket)
    requires ValidState(s) && t.id in s.tickets && s.tickets[t.id] == t
    ensures UserIdNamed(s, TicketDtoOf(s, t).assignedToUsername) == t.assignedTo
  {
    if t.assignedTo.Some? {
      var a := t.assignedTo.value;
      UsernameIdentifiesUser(s, a);
    }
  }

  /** Department names are unique, so the department found again by name is the ticket's department. */
  lemma PrefillFindsDepartment(s: State, t: Ticket)
    requires ValidState(s) && t.id in s.tickets && s.tickets[t.id] == t
    ensures DepartmentIdNamed(s, TicketDtoOf(s, t).departmentName) == t.department
  {
    if t.department.Some? {
      var k := t.department.value;
      assert TicketDtoOf(s, t).departmentName == Some(s.departments[k].name);
      var r := FindKey(s.departments, HasDepartmentName(s.departments[k].name), s.nextDepartmentId);
      assert HasDepartmentName(s.departments[k].name)(s.departments[k]);
      assert r.Some?;
    }
  }

  /** Submitting the prefilled edit form unchanged gives back the same ticket. */
  lemma UnchangedFormKeepsTicket(s: State, caller: Caller, id: nat)
    requires ValidState(s)
    requires EditTicketForm(s, caller, id).Ok? && EditTicketForm(s, caller, id).value.EditPage?
    ensures TicketService.Updated(s.tickets[id], EditTicketForm(s, caller, id).value.prefill, s.departments) == s.tickets[id]
  {
    var t := s.tickets[id];
    var p := EditTicketForm(s, caller, id).value.prefill;
    var u := TicketService.Updated(t, p, s.departments);
    assert u.department == t.department;
    assert u == t;
  }

  /**
   * `updateTicket` (the edit submission): a missing ticket fails; a caller who is neither
   * admin nor creator is refused whatever the form holds, before its validation errors are
   * looked at; an invalid form is sent back; otherwise the service updates the ticket.
   */
  method UpdateTicket(db: Database, caller: Caller, id: nat, dto: TicketUpdateDto, now: nat) returns (r: Outcome)
    requires db.Valid() && db.clock <= now
    modifies db
    ensures db.Valid()
    ensures id !in old(db.tickets) ==> r == Failed(TicketNotFound(id)) && db.Snapshot() == old(db.Snapshot())
    ensures id in old(db.tickets) && !CanEdit(TicketDtoOf(old(db.Snapshot()), old(db.tickets)[id]), caller) ==>
      r == AccessDenied && db.Snapshot() == old(db.Snapshot())
    ensures id in old(db.tickets) && CanEdit(TicketDtoOf(old(db.Snapshot()), old(db.tickets)[id]), caller) ==>
      && (UpdateViolations(dto) != {} ==> r == FormErrors(UpdateViolations(dto)) && db.Snapshot() == old(db.Snapshot()))
      && (UpdateViolations(dto) == {} ==>
            && (r == Done <==> dto.assignedToId.None? || dto.assignedToId.value in old(db.users))
            && (r.Failed? ==> r.error == UserNotFound(dto.assignedToId.value) &&
                              db.Snapshot() == old(db.Snapshot()).(clock := now))
            && (r == Done ==>
                  db.Snapshot() == old(db.Snapshot()).(
                    tickets := old(db.tickets)[id := Flush(old(db.tickets)[id],
                                 TicketService.Updated(old(db.tickets)[id], dto, old(db.departments)), now)],
                    clock := now)))
    ensures r == Done || r == AccessDenied || r.FormErrors? || r.Failed?
  {
    var existing := TicketService.GetTicketById(db.Snapshot(), id);
    if existing.Err? {
      return Failed(existing.error);
    }
    if !(IsAdmin(caller) || IsOwner(existing.value, caller)) {
      return AccessDenied;
    }
    var violations := UpdateViolations(dto);
    if violations != {} {
      return FormErrors(violations);
    }
    var updated := TicketService.UpdateTicket(db, id, dto, now);
    if updated.Err? {
      return Failed(updated.error);
    }
    r := Done;
  }

  /**
   * `deleteTicket`: a missing ticket fails; a caller who is neither admin nor creator is
   * refused and nothing is deleted; otherwise the ticket goes with its comments and
   * attachments.
   */
  method DeleteTicket(db: Database, caller: Caller, id: nat) returns (r: Outcome)
    requires db.Valid()
    modifies db
    ensures db.Valid()
    ensures id !in old(db.tickets) ==> r == Failed(TicketNotFound(id)) && db.Snapshot() == old(db.Snapshot())
    ensures id in old(db.tickets) ==>
      var allowed := CanDelete(TicketDtoOf(old(db.Snapshot()), old(db.tickets)[id]), caller);
      && (!allowed ==> r == AccessDenied && db.Snapshot() == old(db.Snapshot()))
      && (allowed ==>
            && r == Done
            && db.Snapshot() == old(db.Snapshot()).(tickets := old(db.tickets) - {id},
                                                    comments := RowsNotOf(old(db.comments), CommentTicket, id),
                                                    attachments := RowsNotOf(old(db.attachments), AttachmentTicket, id)))
  {
    var existing := TicketService.GetTicketById(db.Snapshot(), id);
    if existing.Err? {
      return Failed(existing.error);
    }
    if !(IsAdmin(caller) || IsOwner(existing.value, caller)) {
      return AccessDenied;
    }
    TicketService.DeleteTicket(db, id);
    r := Done;
  }

  /**
   * `createTicket` (the creation form): an invalid form is sent back and nothing is
   * created; otherwise the caller's ticket is created as OPEN.
   */
  method CreateTicket(db: Database, caller: Caller, dto: TicketCreateDto, now: nat) returns (r: Outcome)
    requires db.Valid() && db.clock <= now
    modifies db
    ensures db.Valid()
    ensures CreateViolations(dto) != {} ==> r == FormErrors(CreateViolations(dto)) && db.Snapshot() == old(db.Snapshot())
    ensures CreateViolations(dto) == {} ==>
      (r == Done <==> exists k :: k in old(db.users) && old(db.users)[k].username == caller.username)
    ensures r.Failed? ==> r.error == UsernameNotFound(caller.username) && db.Snapshot() == old(db.Snapshot()).(clock := now)
    ensures r == Done ==>
      && old(db.nextTicketId) in db.tickets
      && db.tickets == old(db.tickets)[old(db.nextTicketId) := db.tickets[old(db.nextTicketId)]]
      && db.tickets[old(db.nextTicketId)].status == Open
      && db.tickets[old(db.nextTicketId)].assignedTo.None?
      && db.users[db.tickets[old(db.nextTicketId)].createdBy].username == caller.username
  {
    var violations := CreateViolations(dto);
    if violations != {} {
      return FormErrors(violations);
    }
    CreateAcceptedIff(dto);
    var created := TicketService.CreateTicket(db, dto, caller.username, now);
    if created.Err? {
      return Failed(created.error);
    }
    r := Done;
  }

  /**
   * `claimTicket` (the page action): open to agents and admins only; the caller claims the
   * ticket for itself.
   */
  method ClaimTicket(db: Database, caller: Caller, id: nat, now: nat) returns (r: Outcome)
    requires db.Valid() && db.clock <= now
    requires !IsPlainUser(caller)
    modifies db
    ensures db.Valid()
    ensures r == Done || r.Failed?
    ensures r.Failed? ==> db.Snapshot() == old(db.Snapshot()).(clock := now)
    ensures r == Done <==> && id in old(db.tickets) && old(db.tickets)[id].assignedTo.None?
                           && exists k :: k in old(db.users) && old(db.users)[k].username == caller.username
    ensures r == Done ==> && id in db.tickets && db.tickets[id].assignedTo.Some?
                          && db.users[db.tickets[id].assignedTo.value].username == caller.username
                          && db.tickets[id].status != Open
  {
    db.Advance(now);
    var agent := UserService.GetUserByUsername(db.Snapshot(), caller.username);
    if agent.Err? {
      return Failed(agent.error);
    }
    var claimed := TicketService.ClaimTicket(db, id, agent.value.id, now);
    if claimed.Err? {
      return Failed(claimed.error);
    }
    r := Done;
  }

  /** `updateTicketStatus` (the page action): open to agents and admins only; any status may be set. */
  method UpdateTicketStatus(db: Database, caller: Caller, id: nat, status: TicketStatus, now: nat) returns (r: Outcome)
    requires db.Valid() && db.clock <= now
    requires !IsPlainUser(caller)
    modifies db
    ensures db.Valid()
    ensures r == Done <==> id in old(db.tickets)
    ensures r != Done ==> r == Failed(TicketNotFound(id)) && db.Snapshot() == old(db.Snapshot()).(clock := now)
    ensures r == Done ==> id in db.tickets && db.tickets[id].status == status && db.tickets.Keys == old(db.tickets.Keys)
  {
    var updated := TicketService.UpdateTicketStatus(db, id, status, now);
    if updated.Err? {
      return Failed(updated.error);
    }
    r := Done;
  }

  /** `addComment` (the page action): the caller comments on the ticket. */
  method AddComment(db: Database, caller: Caller, id: nat, content: string, now: nat) returns (r: Outcome)
    requires db.Valid() && db.clock <= now
    modifies db
    ensures db.Valid()
    ensures r == Done || r.Failed?
    ensures r == Done <==> id in old(db.tickets) && exists k :: k in old(db.users) && old(db.users)[k].username == caller.username
    ensures r.Failed? ==> db.Snapshot() == old(db.Snapshot()).(clock := now)
    ensures r == Done ==> && old(db.nextCommentId) in db.comments
                          && db.comments[old(db.nextCommentId)].content == content
                          && db.comments[old(db.nextCommentId)].ticketId == id
                          && db.users[db.comments[old(db.nextCommentId)].userId].username == caller.username
  {
    var added := CommentService.AddComment(db, id, caller.username, content, now);
    if added.Err? {
      return Failed(added.error);
    }
    r := Done;
  }

  /** `deleteComment` (the page action): allowed to admins and to the comment's author. */
  method DeleteComment(db: Database, caller: Caller, commentId: nat) returns (r: Outcome)
    requires db.Valid()
    modifies db
    ensures db.Valid()
    ensures r == Done || r.Failed?
    ensures r == Done <==>
      && commentId in old(db.comments)
      && CommentService.MayDeleteComment(IsAdmin(caller), old(db.users)[old(db.comments)[commentId].userId].username,
                                         caller.username)
    ensures r.Failed? ==> db.Snapshot() == old(db.Snapshot())
    ensures r == Done ==> db.Snapshot() == old(db.Snapshot()).(comments := old(db.comments) - {commentId})
  {
    var deleted := CommentService.DeleteComment(db, commentId, caller.username, IsAdmin(caller));
    if deleted.Err? {
      return Failed(deleted.error);
    }
    r := Done;
  }
}
