/**
 * The derived queries of TicketRepository, over the ticket table given as a list of rows
 * in primary-key order. Each find query is the rows that match its condition, and the
 * `...OrderByCreatedAtDesc` ones return them newest first.
 */
module TicketRepository {
  import opened Wrappers
  import opened Text
  import opened Enums
  import opened TicketEntity
  import opened Seqs

  /** The sort key of every `OrderByCreatedAtDesc` query. */
  function CreatedAt(t: Ticket): int {
    t.createdAt
  }

  /** A list of tickets with the newest first. */
  ghost predicate NewestFirst(s: seq<Ticket>) {
    Descending(s, CreatedAt)
  }

  /** `ORDER BY t.createdAt DESC` over the matching rows. */
  function OrderByCreatedAtDesc(s: seq<Ticket>): (r: seq<Ticket>)
    ensures multiset(r) == multiset(s)
    ensures NewestFirst(r)
    ensures forall t :: t in r <==> t in s
  {
    var r := SortDescending(s, CreatedAt);
    SameElements(r, s);
    r
  }

  function HasStatus(st: TicketStatus): Ticket -> bool {
    (t: Ticket) => t.status == st
  }

  function HasPriority(p: TicketPriority): Ticket -> bool {
    (t: Ticket) => t.priority == p
  }

  function CreatedById(userId: nat): Ticket -> bool {
    (t: Ticket) => t.createdBy == userId
  }

  function AssignedToId(userId: nat): Ticket -> bool {
    (t: Ticket) => t.assignedTo == Some(userId)
  }

  function InDepartment(departmentId: nat): Ticket -> bool {
    (t: Ticket) => t.department == Some(departmentId)
  }

  function CreatedByWithStatus(userId: nat, st: TicketStatus): Ticket -> bool {
    (t: Ticket) => t.createdBy == userId && t.status == st
  }

  function CreatedByWithPriority(userId: nat, p: TicketPriority): Ticket -> bool {
    (t: Ticket) => t.createdBy == userId && t.priority == p
  }

  /** Assigned to the user and not CLOSED; REOPENED and RESOLVED tickets count as active. */
  function ActiveAssignedTo(userId: nat): Ticket -> bool {
    (t: Ticket) => t.assignedTo == Some(userId) && t.status != Closed
  }

  /** `findAllByOrderByCreatedAtDesc`: every ticket, newest first. */
  function FindAllByOrderByCreatedAtDesc(rows: seq<Ticket>): (r: seq<Ticket>)
    ensures multiset(r) == multiset(rows)
    ensures NewestFirst(r)
  {
    OrderByCreatedAtDesc(rows)
  }

  /** `findByStatusOrderByCreatedAtDesc`. */
  function FindByStatusOrderByCreatedAtDesc(rows: seq<Ticket>, st: TicketStatus): (r: seq<Ticket>)
    ensures forall t :: t in r <==> t in rows && t.status == st
    ensures multiset(r) == multiset(Filter(rows, HasStatus(st)))
    ensures NewestFirst(r)
  {
    OrderByCreatedAtDesc(Filter(rows, HasStatus(st)))
  }

  /** `findByPriorityOrderByCreatedAtDesc`. */
  function FindByPriorityOrderByCreatedAtDesc(rows: seq<Ticket>, p: TicketPriority): (r: seq<Ticket>)
    ensures forall t :: t in r <==> t in rows && t.priority == p
    ensures multiset(r) == multiset(Filter(rows, HasPriority(p)))
    ensures NewestFirst(r)
  {
    OrderByCreatedAtDesc(Filter(rows, HasPriority(p)))
  }

  /** `findByCreatedBy_IdOrderByCreatedAtDesc`. */
  function FindByCreatedByIdOrderByCreatedAtDesc(rows: seq<Ticket>, userId: nat): (r: seq<Ticket>)
    ensures forall t :: t in r <==> t in rows && t.createdBy == userId
    ensures multiset(r) == multiset(Filter(rows, CreatedById(userId)))
    ensures NewestFirst(r)
  {
    OrderByCreatedAtDesc(Filter(rows, CreatedById(userId)))
  }

  /** `findByAssignedTo_IdOrderByCreatedAtDesc`; unassigned tickets never match. */
  function FindByAssignedToIdOrderByCreatedAtDesc(rows: seq<Ticket>, userId: nat): (r: seq<Ticket>)
    ensures forall t :: t in r <==> t in rows && t.assignedTo == Some(userId)
    ensures multiset(r) == multiset(Filter(rows, AssignedToId(userId)))
    ensures NewestFirst(r)
  {
    OrderByCreatedAtDesc(Filter(rows, AssignedToId(userId)))
  }

  /** `findByDepartment_Id`: no ORDER BY, so the rows come in table order. */
  function FindByDepartmentId(rows: seq<Ticket>, departmentId: nat): (r: seq<Ticket>)
    ensures forall t :: t in r <==> t in rows && t.department == Some(departmentId)
    ensures multiset(r) <= multiset(rows)
  {
    Filter(rows, InDepartment(departmentId))
  }

  /**
   * One row of the `searchTickets` query: each null parameter drops its condition, and the
   * keyword is matched case-insensitively as a substring of the title or of the description
   * (a NULL description never matches `LIKE`).
   */
  predicate MatchesSearch(t: Ticket, status: Option<TicketStatus>, priority: Option<TicketPriority>,
                          keyword: Option<string>)
  {
    && (status.None? || t.status == status.value)
    && (priority.None? || t.priority == priority.value)
    && (keyword.None?
        || Contains(Lower(t.title), Lower(keyword.value))
        || (t.description.Some? && Contains(Lower(t.description.value), Lower(keyword.value))))
  }

  function SearchCondition(status: Option<TicketStatus>, priority: Option<TicketPriority>,
                           keyword: Option<string>): Ticket -> bool
  {
    (t: Ticket) => MatchesSearch(t, status, priority, keyword)
  }

  /** `searchTickets(status, priority, keyword)`, newest first. */
  function SearchTickets(rows: seq<Ticket>, status: Option<TicketStatus>, priority: Option<TicketPriority>,
                         keyword: Option<string>): (r: seq<Ticket>)
    requires keyword.Some? ==> NoLikeWildcards(keyword.value)
    ensures forall t :: t in r <==> t in rows && MatchesSearch(t, status, priority, keyword)
    ensures multiset(r) == multiset(Filter(rows, SearchCondition(status, priority, keyword)))
    ensures NewestFirst(r)
  {
    OrderByCreatedAtDesc(Filter(rows, SearchCondition(status, priority, keyword)))
  }

  /** With every parameter null the search is `findAllByOrderByCreatedAtDesc`, up to ties. */
  lemma SearchWithoutCriteria(rows: seq<Ticket>)
    ensures multiset(SearchTickets(rows, None, None, None)) == multiset(FindAllByOrderByCreatedAtDesc(rows))
  {
    FilterAll(rows, SearchCondition(None, None, None));
  }

  lemma {:induction false} FilterAll(s: seq<Ticket>, p: Ticket -> bool)
    requires forall t :: p(t)
    ensures Filter(s, p) == s
  {
    if s != [] {
      FilterAll(s[1..], p);
      assert s == [s[0]] + s[1..];
    }
  }

  /** An empty keyword matches every ticket, so it narrows nothing. */
  lemma EmptyKeywordNarrowsNothing(t: Ticket, status: Option<TicketStatus>, priority: Option<TicketPriority>)
    ensures MatchesSearch(t, status, priority, Some("")) == MatchesSearch(t, status, priority, None)
  {
    EmptyKeywordMatches(Lower(t.title));
  }

  /** The keyword is case-insensitive: upper-casing ASCII letters in it changes nothing. */
  lemma KeywordCaseInsensitive(t: Ticket, kw: string, kw2: string)
    requires |kw| == |kw2|
    requires forall i :: 0 <= i < |kw| ==> LowerChar(kw[i]) == LowerChar(kw2[i])
    ensures MatchesSearch(t, None, None, Some(kw)) == MatchesSearch(t, None, None, Some(kw2))
  {
    assert Lower(kw) == Lower(kw2);
  }

  /** `count()`. */
  function Count(rows: seq<Ticket>): (n: nat)
    ensures n == |FindAllByOrderByCreatedAtDesc(rows)|
  {
    |rows|
  }

  /** `countByStatus`: the size of the matching find query. */
  function CountByStatus(rows: seq<Ticket>, st: TicketStatus): (n: nat)
    ensures n == |FindByStatusOrderByCreatedAtDesc(rows, st)|
  {
    CountIsFilterSize(rows, HasStatus(st));
    CountWhere(rows, HasStatus(st))
  }

  /** `countByPriority`. */
  function CountByPriority(rows: seq<Ticket>, p: TicketPriority): (n: nat)
    ensures n == |FindByPriorityOrderByCreatedAtDesc(rows, p)|
  {
    CountIsFilterSize(rows, HasPriority(p));
    CountWhere(rows, HasPriority(p))
  }

  /** `countByCreatedBy_Id`. */
  function CountByCreatedById(rows: seq<Ticket>, userId: nat): (n: nat)
    ensures n == |FindByCreatedByIdOrderByCreatedAtDesc(rows, userId)|
  {
    CountIsFilterSize(rows, CreatedById(userId));
    CountWhere(rows, CreatedById(userId))
  }

  /** `countByCreatedBy_IdAndStatus`: the status count over the user's own tickets. */
  function CountByCreatedByIdAndStatus(rows: seq<Ticket>, userId: nat, st: TicketStatus): (n: nat)
    ensures n == CountByStatus(FindByCreatedByIdOrderByCreatedAtDesc(rows, userId), st)
    ensures n <= CountByStatus(rows, st)
  {
    var mine := Filter(rows, CreatedById(userId));
    CountOfFilter(rows, CreatedById(userId), HasStatus(st), CreatedByWithStatus(userId, st));
    CountPermutationInvariant(mine, FindByCreatedByIdOrderByCreatedAtDesc(rows, userId), HasStatus(st));
    CountMonotone(rows, CreatedByWithStatus(userId, st), HasStatus(st));
    CountWhere(rows, CreatedByWithStatus(userId, st))
  }

  /** `countByCreatedBy_IdAndPriority`: the priority count over the user's own tickets. */
  function CountByCreatedByIdAndPriority(rows: seq<Ticket>, userId: nat, p: TicketPriority): (n: nat)
    ensures n == CountByPriority(FindByCreatedByIdOrderByCreatedAtDesc(rows, userId), p)
    ensures n <= CountByPriority(rows, p)
  {
    var mine := Filter(rows, CreatedById(userId));
    CountOfFilter(rows, CreatedById(userId), HasPriority(p), CreatedByWithPriority(userId, p));
    CountPermutationInvariant(mine, FindByCreatedByIdOrderByCreatedAtDesc(rows, userId), HasPriority(p));
    CountMonotone(rows, CreatedByWithPriority(userId, p), HasPriority(p));
    CountWhere(rows, CreatedByWithPriority(userId, p))
  }

  /** `countActiveTicketsByAssignedTo`: the user's assigned tickets that are not CLOSED. */
  function CountActiveTicketsByAssignedTo(rows: seq<Ticket>, userId: nat): (n: nat)
    ensures n == |FindByAssignedToIdOrderByCreatedAtDesc(rows, userId)|
                 - CountWhere(FindByAssignedToIdOrderByCreatedAtDesc(rows, userId), HasStatus(Closed))
  {
    var theirs := Filter(rows, AssignedToId(userId));
    var sorted := FindByAssignedToIdOrderByCreatedAtDesc(rows, userId);
    CountOfFilter(rows, AssignedToId(userId), NotClosed, ActiveAssignedTo(userId));
    CountPermutationInvariant(theirs, sorted, NotClosed);
    CountPermutationInvariant(theirs, sorted, HasStatus(Closed));
    CountComplement(sorted, HasStatus(Closed), NotClosed);
    CountWhere(rows, ActiveAssignedTo(userId))
  }

  function NotClosed(t: Ticket): bool {
    t.status != Closed
  }

  /** Every ticket has exactly one of the five statuses, so the five status counts sum to `count()`. */
  lemma {:induction false} StatusCountsPartition(rows: seq<Ticket>)
    ensures CountByStatus(rows, Open) + CountByStatus(rows, InProgress) + CountByStatus(rows, Resolved)
            + CountByStatus(rows, Closed) + CountByStatus(rows, Reopened) == Count(rows)
  {
    StatusCountsSum(rows);
  }

  lemma {:induction false} StatusCountsSum(s: seq<Ticket>)
    ensures CountWhere(s, HasStatus(Open)) + CountWhere(s, HasStatus(InProgress))
            + CountWhere(s, HasStatus(Resolved)) + CountWhere(s, HasStatus(Closed))
            + CountWhere(s, HasStatus(Reopened)) == |s|
  {
    if s != [] {
      StatusCountsSum(s[1..]);
    }
  }

  /** The four priority counts sum to `count()`. */
  lemma {:induction false} PriorityCountsPartition(rows: seq<Ticket>)
    ensures CountByPriority(rows, Low) + CountByPriority(rows, Medium) + CountByPriority(rows, High)
            + CountByPriority(rows, Urgent) == Count(rows)
  {
    PriorityCountsSum(rows);
  }

  lemma {:induction false} PriorityCountsSum(s: seq<Ticket>)
    ensures CountWhere(s, HasPriority(Low)) + CountWhere(s, HasPriority(Medium))
            + CountWhere(s, HasPriority(High)) + CountWhere(s, HasPriority(Urgent)) == |s|
  {
    if s != [] {
      PriorityCountsSum(s[1..]);
    }
  }
}
