/**
 * DashboardService: the eight counters of the dashboard, over the caller's own tickets for
 * the USER role and over every ticket for agents and admins.
 */
module DashboardService {
  import opened Wrappers
  import opened Errors
  import opened Enums
  import opened TicketEntity
  import opened Seqs
  import opened Dtos
  import opened Store
  import opened TicketRepository
  import UserService

  /** The seven ticket counters computed by the global queries over `rows`, and a given assigned count. */
  function Counters(rows: seq<Ticket>, myAssigned: nat): (d: DashboardStats)
    ensures d.totalTickets == |rows| && d.myAssignedTickets == myAssigned
  {
    DashboardStats(Count(rows), CountByStatus(rows, Open), CountByStatus(rows, InProgress),
                   CountByStatus(rows, Resolved), CountByStatus(rows, Closed),
                   CountByPriority(rows, Urgent), CountByPriority(rows, High), myAssigned)
  }

  /**
   * The statistics of a USER-role caller: every counter ranges over the tickets the caller
   * created, and the assigned count is 0.
   */
  function UserScopeStats(rows: seq<Ticket>, userId: nat): (d: DashboardStats)
    ensures d == Counters(FindByCreatedByIdOrderByCreatedAtDesc(rows, userId), 0)
  {
    DashboardStats(CountByCreatedById(rows, userId),
                   CountByCreatedByIdAndStatus(rows, userId, Open),
                   CountByCreatedByIdAndStatus(rows, userId, InProgress),
                   CountByCreatedByIdAndStatus(rows, userId, Resolved),
                   CountByCreatedByIdAndStatus(rows, userId, Closed),
                   CountByCreatedByIdAndPriority(rows, userId, Urgent),
                   CountByCreatedByIdAndPriority(rows, userId, High),
                   0)
  }

  /**
   * The statistics of an agent or admin: the seven ticket counters range over every ticket,
   * and the assigned count is the caller's assigned tickets that are not CLOSED.
   */
  function GlobalScopeStats(rows: seq<Ticket>, userId: nat): (d: DashboardStats)
    ensures d.totalTickets == |rows|
    ensures d.myAssignedTickets == CountWhere(rows, ActiveAssignedTo(userId))
    ensures d == Counters(rows, d.myAssignedTickets)
  {
    Counters(rows, CountActiveTicketsByAssignedTo(rows, userId))
  }

  /** The statistics of the user `id` in the scope its role selects. */
  function ScopedStats(s: State, id: nat, isUserRole: bool): DashboardStats {
    if isUserRole then UserScopeStats(TicketRows(s), id) else GlobalScopeStats(TicketRows(s), id)
  }

  /**
   * `getDashboardStats(username, isUserRole)`: an unknown username fails before anything
   * is counted; otherwise the scope follows `isUserRole`.
   */
  function GetDashboardStats(s: State, username: string, isUserRole: bool): (r: Result<DashboardStats, Error>)
    requires ValidState(s)
    ensures r.Err? <==> forall k :: k in s.users ==> s.users[k].username != username
    ensures r.Err? ==> r.error == UsernameNotFound(username)
    ensures r.Ok? ==> exists id :: id in s.users && s.users[id].username == username &&
                        r.value == ScopedStats(s, id, isUserRole)
  {
    match UserService.GetUserByUsername(s, username)
    case Err(e) => Err(e)
    case Ok(u) =>
      assert u.id in s.users && s.users[u.id].username == username;
      Ok(ScopedStats(s, u.id, isUserRole))
  }

  /**
   * REOPENED tickets appear only in the total, so the four status counters never exceed it;
   * nor do the urgent and high counters together.
   */
  lemma CountersBounded(rows: seq<Ticket>, myAssigned: nat)
    ensures var d := Counters(rows, myAssigned);
      && d.openTickets + d.inProgressTickets + d.resolvedTickets + d.closedTickets
         + CountByStatus(rows, Reopened) == d.totalTickets
      && d.openTickets + d.inProgressTickets + d.resolvedTickets + d.closedTickets <= d.totalTickets
      && d.urgentTickets + d.highPriorityTickets <= d.totalTickets
  {
    StatusCountsPartition(rows);
    PriorityCountsPartition(rows);
  }

  /** The bounds hold for either scope of the dashboard. */
  lemma DashboardBounded(s: State, username: string, isUserRole: bool)
    requires ValidState(s)
    requires GetDashboardStats(s, username, isUserRole).Ok?
    ensures var d := GetDashboardStats(s, username, isUserRole).value;
      && d.openTickets + d.inProgressTickets + d.resolvedTickets + d.closedTickets <= d.totalTickets
      && d.urgentTickets + d.highPriorityTickets <= d.totalTickets
      && (isUserRole ==> d.myAssignedTickets == 0)
  {
    var d := GetDashboardStats(s, username, isUserRole).value;
    var id :| id in s.users && s.users[id].username == username && d == ScopedStats(s, id, isUserRole);
    if isUserRole {
      CountersBounded(FindByCreatedByIdOrderByCreatedAtDesc(TicketRows(s), id), 0);
    } else {
      CountersBounded(TicketRows(s), d.myAssignedTickets);
    }
  }

  /** Each counter of a user's scope is at most the matching counter of the global scope. */
  lemma UserScopeBelowGlobal(rows: seq<Ticket>, userId: nat)
    ensures var mine := UserScopeStats(rows, userId);
      var all := GlobalScopeStats(rows, userId);
      && mine.totalTickets <= all.totalTickets
      && mine.openTickets <= all.openTickets && mine.inProgressTickets <= all.inProgressTickets
      && mine.resolvedTickets <= all.resolvedTickets && mine.closedTickets <= all.closedTickets
      && mine.urgentTickets <= all.urgentTickets && mine.highPriorityTickets <= all.highPriorityTickets
      && mine.myAssignedTickets <= all.myAssignedTickets
  {
    var found := FindByCreatedByIdOrderByCreatedAtDesc(rows, userId);
    var filtered := Filter(rows, CreatedById(userId));
    assert |found| == |multiset(found)| == |multiset(filtered)| == |filtered|;
  }

  /**
   * The assigned count of an agent or admin includes RESOLVED and REOPENED tickets: it is
   * the caller's assigned tickets less the CLOSED ones.
   */
  lemma AssignedCountExcludesOnlyClosed(rows: seq<Ticket>, userId: nat)
    ensures var theirs := FindByAssignedToIdOrderByCreatedAtDesc(rows, userId);
      GlobalScopeStats(rows, userId).myAssignedTickets == |theirs| - CountWhere(theirs, HasStatus(Closed))
  {
  }
}
