/**
 * TicketRestController: the JSON endpoints under `/api/tickets`. The single-ticket read is
 * refused to a plain user who did not create the ticket; the search runs globally and is
 * then narrowed to the plain user's tickets by username. Assignment and status changes
 * carry no role check of their own.
 */
module TicketRestController {
  import opened Wrappers
  import opened Errors
  import opened Enums
  import opened Records
  import opened TicketEntity
  import opened Seqs
  import opened Dtos
  import opened Store
  import opened Access
  import TicketService
  import TicketRepository

  /**
   * `getTicket`: a missing ticket fails before any permission is looked at; a plain user
   * who did not create the ticket gets 403; anyone else gets the ticket.
   */
  function GetTicket(s: State, caller: Caller, id: nat): (r: Result<TicketDto, Error>)
    requires ValidState(s)
    ensures id !in s.tickets ==> r == Err(TicketNotFound(id))
    ensures id in s.tickets ==>
      && (r == Err(Forbidden) <==> IsPlainUser(caller) && s.users[s.tickets[id].createdBy].username != caller.username)
      && (r.Ok? ==> r.value == TicketDtoOf(s, s.tickets[id]))
    ensures r.Ok? || r == Err(Forbidden) || r == Err(TicketNotFound(id))
  {
    match TicketService.GetTicketById(s, id)
    case Err(e) => Err(e)
    case Ok(t) =>
      if IsPlainUser(caller) && t.createdByUsername != Some(caller.username) then Err(Forbidden)
      else Ok(t)
  }

  /** A plain user may read exactly the tickets it created; staff may read any. */
  lemma GetTicketAllowedIff(s: State, caller: Caller, id: nat)
    requires ValidState(s) && id in s.tickets
    ensures GetTicket(s, caller, id).Ok? <==> !IsPlainUser(caller) || IsOwner(TicketDtoOf(s, s.tickets[id]), caller)
  {
  }

  function CreatedByUsername(username: string): TicketDto -> bool {
    (d: TicketDto) => d.createdByUsername == Some(username)
  }

  /**
   * `searchTickets` (REST): the global search, narrowed for a plain user to the DTOs whose
   * creator's username is the caller's; the narrowing keeps the newest-first order and lists
   * each ticket once. An unknown plain user gets an empty list, not an error.
   */
  function SearchTickets(s: State, caller: Caller, status: Option<TicketStatus>, priority: Option<TicketPriority>,
                         keyword: Option<string>): (r: seq<TicketDto>)
    requires ValidState(s)
    requires keyword.Some? ==> Text.NoLikeWildcards(keyword.value)
    ensures !IsPlainUser(caller) ==> r == TicketService.SearchTickets(s, status, priority, keyword)
    ensures IsPlainUser(caller) ==> forall d :: d in r <==>
      d in TicketService.SearchTickets(s, status, priority, keyword) && d.createdByUsername == Some(caller.username)
    ensures DistinctBy(r, TicketService.DtoId) && Descending(r, TicketService.DtoCreatedAt)
  {
    var all := TicketService.SearchTickets(s, status, priority, keyword);
    TicketService.ListedOnceNewestFirst(s, all, TicketRepository.SearchCondition(status, priority, keyword));
    FilterKeepsOrder(all, CreatedByUsername(caller.username), TicketService.DtoCreatedAt);
    FilterKeepsDistinct(all, CreatedByUsername(caller.username), TicketService.DtoId);
    if IsPlainUser(caller) then Filter(all, CreatedByUsername(caller.username)) else all
  }

  /**
   * The REST search and the search page agree on what a plain user sees: narrowing the
   * global result by username gives exactly the tickets of the user-scoped search.
   */
  lemma SearchAgreesWithScopedSearch(s: State, caller: Caller, userId: nat, status: Option<TicketStatus>,
                                     priority: Option<TicketPriority>, keyword: Option<string>)
    requires ValidState(s) && IsPlainUser(caller)
    requires keyword.Some? ==> Text.NoLikeWildcards(keyword.value)
    requires userId in s.users && s.users[userId].username == caller.username
    ensures forall d :: d in SearchTickets(s, caller, status, priority, keyword) <==>
                        d in TicketService.SearchTicketsByUser(s, userId, status, priority, keyword)
  {
    var all := TicketService.SearchTickets(s, status, priority, keyword);
    var mine := TicketService.SearchTicketsByUser(s, userId, status, priority, keyword);
    forall d ensures d in all && d.createdByUsername == Some(caller.username) <==> d in mine {
      if d in all && d.createdByUsername == Some(caller.username) {
        NarrowedIsScoped(s, caller, userId, status, priority, keyword, d);
      }
      if d in mine {
        ScopedIsNarrowed(s, userId, status, priority, keyword, d);
      }
    }
  }

  lemma NarrowedIsScoped(s: State, caller: Caller, userId: nat, status: Option<TicketStatus>,
                         priority: Option<TicketPriority>, keyword: Option<string>, d: TicketDto)
    requires ValidState(s)
    requires keyword.Some? ==> Text.NoLikeWildcards(keyword.value)
    requires userId in s.users && s.users[userId].username == caller.username
    requires d in TicketService.SearchTickets(s, status, priority, keyword)
    requires d.createdByUsername == Some(caller.username)
    ensures d in TicketService.SearchTicketsByUser(s, userId, status, priority, keyword)
  {
    var id :| id in s.tickets && TicketRepository.SearchCondition(status, priority, keyword)(s.tickets[id])
              && d == TicketDtoOf(s, s.tickets[id]);
    var t := s.tickets[id];
    UsernameIdentifiesUser(s, userId);
    UsernameIdentifiesUser(s, t.createdBy);
    assert TicketService.CreatedByMatching(userId, status, priority, keyword)(t);
  }

  lemma ScopedIsNarrowed(s: State, userId: nat, status: Option<TicketStatus>,
                         priority: Option<TicketPriority>, keyword: Option<string>, d: TicketDto)
    requires ValidState(s)
    requires keyword.Some? ==> Text.NoLikeWildcards(keyword.value)
    requires userId in s.users
    requires d in TicketService.SearchTicketsByUser(s, userId, status, priority, keyword)
    ensures d in TicketService.SearchTickets(s, status, priority, keyword)
    ensures d.createdByUsername == Some(s.users[userId].username)
  {
    var id :| id in s.tickets && TicketService.CreatedByMatching(userId, status, priority, keyword)(s.tickets[id])
              && d == TicketDtoOf(s, s.tickets[id]);
    assert TicketRepository.SearchCondition(status, priority, keyword)(s.tickets[id]);
  }

  /** `assignTicket` (REST): delegates to the service; no role check applies beyond being signed in. */
  method AssignTicket(db: Database, id: nat, userId: nat, now: nat) returns (r: Result<TicketDto, Error>)
    requires db.Valid() && db.clock <= now
    modifies db
    ensures db.Valid()
    ensures r.Ok? <==> id in old(db.tickets) && userId in old(db.users)
    ensures r.Err? ==> db.Snapshot() == old(db.Snapshot()).(clock := now)
    ensures r.Ok? ==> id in db.tickets && db.tickets[id].assignedTo == Some(userId) && db.tickets[id].status != Open
    ensures r.Ok? ==> db.tickets[id] == Flush(old(db.tickets)[id], TicketService.AssignedTo(old(db.tickets)[id], userId), now)
    ensures r.Ok? ==> r.value == TicketDtoOf(db.Snapshot(), TicketService.AssignedTo(old(db.tickets)[id], userId))
  {
    r := TicketService.AssignTicket(db, id, userId, now);
  }

  /** `updateStatus` (REST): delegates to the service; no role check applies beyond being signed in. */
  method UpdateStatus(db: Database, id: nat, status: TicketStatus, now: nat) returns (r: Result<TicketDto, Error>)
    requires db.Valid() && db.clock <= now
    modifies db
    ensures db.Valid()
    ensures r.Ok? <==> id in old(db.tickets)
    ensures r.Err? ==> r.error == TicketNotFound(id) && db.Snapshot() == old(db.Snapshot()).(clock := now)
    ensures r.Ok? ==> id in db.tickets && db.tickets[id].status == status && r.value.status == status
  {
    r := TicketService.UpdateTicketStatus(db, id, status, now);
  }
}
