/**
 * The Ticket entity (entity/Ticket.java): the persisted record, the builder defaults and the
 * two JPA lifecycle callbacks. Timestamps are readings of the store's clock.
 */
module TicketEntity {
  import opened Wrappers
  import opened Enums

  /**
   * A persisted ticket row. The creator, assignee and department are ids of rows in their
   * own tables; comments and attachments are rows of their tables that carry this id.
   */
  datatype Ticket = Ticket(
    id: nat,
    title: string,
    description: Option<string>,
    status: TicketStatus,
    priority: TicketPriority,
    category: Option<TicketCategory>,
    createdAt: nat,
    updatedAt: nat,
    resolvedAt: Option<nat>,
    createdBy: nat,
    assignedTo: Option<nat>,
    department: Option<nat>)

  /** A ticket object before `persist`: no id or timestamps, and any other field may still be null. */
  datatype TicketDraft = TicketDraft(
    title: Option<string>,
    description: Option<string>,
    status: Option<TicketStatus>,
    priority: Option<TicketPriority>,
    category: Option<TicketCategory>,
    createdBy: Option<nat>,
    assignedTo: Option<nat>,
    department: Option<nat>)

  /** The columns declared `nullable = false`: the title and the creator's join column. */
  predicate NotNullColumnsSet(d: TicketDraft) {
    d.title.Some? && d.createdBy.Some?
  }

  /** The statuses on which `onUpdate` stamps `resolvedAt`. */
  predicate IsResolution(s: TicketStatus) {
    s == Resolved || s == Closed
  }

  /** `Ticket.builder()...build()` without a status or priority: the `@Builder.Default`s apply. */
  function BuildDraft(title: string, description: string, category: Option<TicketCategory>,
                      createdBy: nat): (d: TicketDraft)
    ensures d.status == Some(Open) && d.priority == Some(Medium)
    ensures d.title == Some(title) && d.description == Some(description) && d.category == category
    ensures d.createdBy == Some(createdBy) && d.assignedTo == None && d.department == None
    ensures NotNullColumnsSet(d)
  {
    TicketDraft(Some(title), Some(description), Some(Open), Some(Medium), category, Some(createdBy), None, None)
  }

  /**
   * `@PrePersist onCreate`, together with the id the database assigns: both timestamps
   * read the clock, a null status becomes OPEN and a null priority MEDIUM, and
   * `resolvedAt` is left unset whatever the status.
   */
  function OnCreate(d: TicketDraft, id: nat, now: nat): (t: Ticket)
    requires NotNullColumnsSet(d)
    ensures t.id == id && t.createdAt == now && t.updatedAt == now
    ensures t.resolvedAt == None
    ensures t.status == (if d.status.None? then Open else d.status.value)
    ensures t.priority == (if d.priority.None? then Medium else d.priority.value)
    ensures t.title == d.title.value && t.description == d.description && t.category == d.category
    ensures t.createdBy == d.createdBy.value && t.assignedTo == d.assignedTo && t.department == d.department
  {
    Ticket(id, d.title.value, d.description,
           match d.status case Some(s) => s case None => Open,
           match d.priority case Some(p) => p case None => Medium,
           d.category, now, now, None, d.createdBy.value, d.assignedTo, d.department)
  }

  /**
   * `@PreUpdate onUpdate`: `updatedAt` reads the clock; `resolvedAt` is stamped when the
   * status is RESOLVED or CLOSED and it is still unset, and is otherwise left as it was.
   */
  function OnUpdate(t: Ticket, now: nat): (u: Ticket)
    ensures u.updatedAt == now
    ensures t.resolvedAt.Some? ==> u.resolvedAt == t.resolvedAt
    ensures t.resolvedAt.None? && IsResolution(t.status) ==> u.resolvedAt == Some(now)
    ensures t.resolvedAt.None? && !IsResolution(t.status) ==> u.resolvedAt == None
    ensures u == t.(updatedAt := u.updatedAt, resolvedAt := u.resolvedAt)
  {
    var stamp := if IsResolution(t.status) && t.resolvedAt.None? then Some(now) else t.resolvedAt;
    t.(updatedAt := now, resolvedAt := stamp)
  }

  /**
   * What the flush at commit writes for a managed ticket that was loaded as `loaded` and
   * modified in memory to `modified`: Hibernate calls `@PreUpdate` only for a dirty entity,
   * so an unchanged ticket is written back untouched.
   */
  function Flush(loaded: Ticket, modified: Ticket, now: nat): Ticket {
    if modified == loaded then loaded else OnUpdate(modified, now)
  }

  /**
   * `modified` differs from `loaded` only in fields the services set: the id, the
   * timestamps and the creator are as loaded.
   */
  predicate Edits(loaded: Ticket, modified: Ticket) {
    && modified.id == loaded.id
    && modified.createdAt == loaded.createdAt
    && modified.updatedAt == loaded.updatedAt
    && modified.resolvedAt == loaded.resolvedAt
    && modified.createdBy == loaded.createdBy
  }

  /**
   * The timestamp discipline every stored ticket keeps under a clock reading `clock`:
   * created no later than its last update, which is no later than the clock, and
   * resolved, if at all, between the two.
   */
  predicate Consistent(t: Ticket, clock: nat) {
    && t.createdAt <= t.updatedAt <= clock
    && (t.resolvedAt.Some? ==> t.createdAt <= t.resolvedAt.value <= t.updatedAt)
  }

  /** A newly persisted ticket is consistent, whatever status it was given. */
  lemma OnCreateConsistent(d: TicketDraft, id: nat, now: nat, clock: nat)
    requires NotNullColumnsSet(d) && now <= clock
    ensures Consistent(OnCreate(d, id, now), clock)
  {
  }

  /** A consistent ticket stays consistent as the clock advances. */
  lemma ConsistentLater(t: Ticket, clock: nat, later: nat)
    requires Consistent(t, clock) && clock <= later
    ensures Consistent(t, later)
  {
  }

  /** A change that makes the ticket RESOLVED or CLOSED leaves it with `resolvedAt` set. */
  lemma FlushToResolutionStamps(loaded: Ticket, modified: Ticket, now: nat)
    requires IsResolution(modified.status) && modified != loaded
    ensures Flush(loaded, modified, now).resolvedAt.Some?
  {
  }

  /**
   * Saving an edited ticket keeps the creator and creation time, never clears or
   * overwrites `resolvedAt`, and keeps the ticket consistent when the clock has not gone back.
   */
  lemma FlushKeepsHistory(loaded: Ticket, modified: Ticket, now: nat, clock: nat)
    requires Edits(loaded, modified)
    requires Consistent(loaded, clock) && loaded.updatedAt <= now <= clock
    ensures var saved := Flush(loaded, modified, now);
      && saved.id == loaded.id && saved.createdBy == loaded.createdBy
      && saved.createdAt == loaded.createdAt
      && (loaded.resolvedAt.Some? ==> saved.resolvedAt == loaded.resolvedAt)
      && loaded.updatedAt <= saved.updatedAt
      && Consistent(saved, clock)
  {
  }

  /** A save that changes nothing leaves the row, and its `updatedAt`, as they were. */
  lemma FlushUnchanged(t: Ticket, now: nat)
    ensures Flush(t, t, now) == t
  {
  }

  /**
   * `updateTicketStatus` applied once per clock tick, starting at `start`, with the
   * statuses `ss` in turn.
   */
  function StatusTrace(t: Ticket, ss: seq<TicketStatus>, start: nat): Ticket
    decreases |ss|
  {
    if ss == [] then t else StatusTrace(Flush(t, t.(status := ss[0]), start), ss[1..], start + 1)
  }

  /** The index of the first RESOLVED or CLOSED status in `ss`, if any. */
  function FirstResolution(ss: seq<TicketStatus>): (r: Option<nat>)
    ensures r.Some? ==> r.value < |ss| && IsResolution(ss[r.value])
    ensures r.Some? ==> forall i :: 0 <= i < r.value ==> !IsResolution(ss[i])
    ensures r.None? ==> forall i :: 0 <= i < |ss| ==> !IsResolution(ss[i])
  {
    if ss == [] then None
    else if IsResolution(ss[0]) then Some(0)
    else match FirstResolution(ss[1..])
      case None => None
      case Some(k) => Some(k + 1)
  }

  /** Once set, `resolvedAt` survives any run of status changes, including reopening. */
  lemma {:induction false} ResolvedAtPermanent(t: Ticket, ss: seq<TicketStatus>, start: nat)
    requires t.resolvedAt.Some?
    ensures StatusTrace(t, ss, start).resolvedAt == t.resolvedAt
    decreases |ss|
  {
    if ss != [] {
      var next := Flush(t, t.(status := ss[0]), start);
      assert next.resolvedAt == t.resolvedAt;
      ResolvedAtPermanent(next, ss[1..], start + 1);
    }
  }

  /**
   * For a ticket that has never been resolved, a run of status changes stamps `resolvedAt`
   * exactly once: with the time of the first change to RESOLVED or CLOSED, or never.
   */
  lemma {:induction false} ResolvedAtStampedOnFirstResolution(t: Ticket, ss: seq<TicketStatus>, start: nat)
    requires t.resolvedAt.None? && !IsResolution(t.status)
    ensures StatusTrace(t, ss, start).resolvedAt ==
            match FirstResolution(ss) case None => None case Some(k) => Some(start + k)
    decreases |ss|
  {
    if ss != [] {
      var next := Flush(t, t.(status := ss[0]), start);
      if IsResolution(ss[0]) {
        assert t.(status := ss[0]) != t;
        assert next.resolvedAt == Some(start);
        ResolvedAtPermanent(next, ss[1..], start + 1);
      } else {
        assert next.resolvedAt.None? && !IsResolution(next.status);
        ResolvedAtStampedOnFirstResolution(next, ss[1..], start + 1);
      }
    }
  }
}
