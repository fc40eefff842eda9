/**
 * AdminController: the user administration actions. The role and status actions rewrite
 * one user in place; deleting a user first clears it as assignee of every ticket assigned
 * to it, one ticket at a time, and then removes it, all in one transaction.
 */
module AdminController {
  import opened Wrappers
  import opened Errors
  import opened Enums
  import opened Records
  import opened TicketEntity
  import opened UserEntity
  import opened Store
  import opened Access
  import TicketRepository

  /**
   * `updateUserRole`: an unknown user or an unknown role name fails and changes nothing;
   * otherwise the user's roles are replaced by that single role.
   */
  method UpdateUserRole(db: Database, id: nat, roleName: string) returns (r: Result<User, Error>)
    requires db.Valid()
    modifies db
    ensures db.Valid()
    ensures id !in old(db.users) ==> r == Err(UserNotFound(id)) && db.Snapshot() == old(db.Snapshot())
    ensures id in old(db.users) ==>
      && (r.Err? <==> forall k :: k in old(db.roles) ==> old(db.roles)[k].name != roleName)
      && (r.Err? ==> r.error == RoleNotFound(roleName) && db.Snapshot() == old(db.Snapshot()))
    ensures r.Ok? ==> exists k :: && k in old(db.roles) && old(db.roles)[k].name == roleName
                                  && r.value == old(db.users)[id].(roles := {k})
                                  && db.Snapshot() == old(db.Snapshot()).(users := old(db.users)[id := r.value])
  {
    if id !in db.users {
      return Err(UserNotFound(id));
    }
    var user := db.users[id];
    var role := FindRoleByName(db.Snapshot(), roleName);
    if role.None? {
      return Err(RoleNotFound(roleName));
    }
    var updated := user.(roles := {role.value.id});
    SameKeysNoCollision(db.Snapshot(), updated);
    r := db.MergeUser(updated);
    assert r.Ok?;
  }

  /** `updateUserStatus`: an unknown user fails and changes nothing; otherwise only its status changes. */
  method UpdateUserStatus(db: Database, id: nat, status: UserStatus) returns (r: Result<User, Error>)
    requires db.Valid()
    modifies db
    ensures db.Valid()
    ensures r.Ok? <==> id in old(db.users)
    ensures r.Err? ==> r.error == UserNotFound(id) && db.Snapshot() == old(db.Snapshot())
    ensures r.Ok? ==> && r.value == old(db.users)[id].(status := status)
                      && db.Snapshot() == old(db.Snapshot()).(users := old(db.users)[id := r.value])
  {
    if id !in db.users {
      return Err(UserNotFound(id));
    }
    var updated := db.users[id].(status := status);
    SameKeysNoCollision(db.Snapshot(), updated);
    r := db.MergeUser(updated);
    assert r.Ok?;
  }

  /** A ticket saved after `setAssignedTo(null)`: only the assignee and the update stamps can change. */
  function Unassigned(t: Ticket, now: nat): (r: Ticket)
    ensures r.assignedTo.None?
    ensures r == t.(assignedTo := None, updatedAt := r.updatedAt, resolvedAt := r.resolvedAt)
    ensures t.resolvedAt.Some? ==> r.resolvedAt == t.resolvedAt
    ensures t.assignedTo.None? ==> r == t
    ensures t.assignedTo.Some? ==> r.updatedAt == now
  {
    Flush(t, t.(assignedTo := None), now)
  }

  /** The ticket table once every ticket assigned to `userId` has been unassigned. */
  function UnassignAll(tickets: map<nat, Ticket>, userId: nat, now: nat): (r: map<nat, Ticket>)
    ensures r.Keys == tickets.Keys
    ensures forall k :: k in r ==> r[k].assignedTo != Some(userId)
    ensures forall k :: k in r && tickets[k].assignedTo == Some(userId) ==> r[k].assignedTo.None?
    ensures forall k :: k in r && tickets[k].assignedTo != Some(userId) ==> r[k] == tickets[k]
    ensures forall k :: k in r ==> r[k].createdBy == tickets[k].createdBy
  {
    map k | k in tickets :: if tickets[k].assignedTo == Some(userId) then Unassigned(tickets[k], now) else tickets[k]
  }

  /** Rows the user owns and that unassigning does not touch: created tickets, comments, uploads. */
  predicate OwnsRows(s: State, userId: nat) {
    || (exists k :: k in s.tickets && s.tickets[k].createdBy == userId)
    || (exists k :: k in s.comments && s.comments[k].userId == userId)
    || (exists k :: k in s.attachments && s.attachments[k].uploadedBy == Some(userId))
  }

  /** Once unassigned, a user is still referenced exactly when it owns rows. */
  lemma UnassignedReferencedIff(s: State, userId: nat, now: nat)
    ensures Referenced(s.(tickets := UnassignAll(s.tickets, userId, now)), userId) <==> OwnsRows(s, userId)
  {
    var s' := s.(tickets := UnassignAll(s.tickets, userId, now));
    if OwnsRows(s, userId) && exists k :: k in s.tickets && s.tickets[k].createdBy == userId {
      var k :| k in s.tickets && s.tickets[k].createdBy == userId;
      assert s'.tickets[k].createdBy == userId;
    }
  }

  /** The ticket table part-way through the unassign loop: the first rows handled, the rest as they were. */
  function UnassignedSoFar(tickets: map<nat, Ticket>, done: seq<Ticket>, now: nat): map<nat, Ticket> {
    map k | k in tickets :: if tickets[k] in done then Unassigned(tickets[k], now) else tickets[k]
  }

  /** Handling row `i` unassigns that row's ticket, as it now stands, and nothing else. */
  lemma UnassignStep(tickets: map<nat, Ticket>, rows: seq<Ticket>, i: nat, now: nat)
    requires forall k :: k in tickets ==> tickets[k].id == k
    requires i < |rows| && rows[i].id in tickets && tickets[rows[i].id] == rows[i]
    ensures var before := UnassignedSoFar(tickets, rows[..i], now);
      UnassignedSoFar(tickets, rows[..i + 1], now) == before[rows[i].id := Unassigned(before[rows[i].id], now)]
  {
    var t := rows[i];
    assert rows[..i + 1] == rows[..i] + [t];
    var before := UnassignedSoFar(tickets, rows[..i], now);
    var after := UnassignedSoFar(tickets, rows[..i + 1], now);
    forall k | k in tickets ensures after[k] == before[t.id := Unassigned(before[t.id], now)][k] {
      if k != t.id {
        assert tickets[k] != t;
      }
    }
  }

  /** `rows` lists exactly the tickets of the table assigned to `userId`, and the table is keyed by id. */
  ghost predicate AssignedRowsOf(tickets: map<nat, Ticket>, rows: seq<Ticket>, userId: nat) {
    && (forall x :: x in rows <==> x.id in tickets && tickets[x.id] == x && x.assignedTo == Some(userId))
    && StoredRows(tickets, rows)
  }

  /** Once every assigned row has been handled, the table is the fully unassigned one. */
  lemma UnassignedAll(tickets: map<nat, Ticket>, rows: seq<Ticket>, userId: nat, now: nat)
    requires AssignedRowsOf(tickets, rows, userId)
    ensures UnassignedSoFar(tickets, rows[..|rows|], now) == UnassignAll(tickets, userId, now)
  {
    assert rows[..|rows|] == rows;
    var a := UnassignedSoFar(tickets, rows, now);
    var b := UnassignAll(tickets, userId, now);
    forall k | k in tickets ensures a[k] == b[k] {
      assert tickets[k] in rows <==> tickets[k].assignedTo == Some(userId);
    }
  }

  /** One pass of the loop: the ticket's current state is saved with no assignee. */
  method UnassignOne(db: Database, id: nat)
    requires db.Valid() && id in db.tickets
    modifies db
    ensures db.Valid()
    ensures db.Snapshot() == old(db.Snapshot()).(tickets := old(db.tickets)[id := Unassigned(old(db.tickets)[id], old(db.clock))])
  {
    var current := db.tickets[id];
    var saved := db.MergeTicket(current.(assignedTo := None));
  }

  /** Every row of `rows` is the stored ticket under its own id. */
  ghost predicate StoredRows(tickets: map<nat, Ticket>, rows: seq<Ticket>) {
    && (forall x :: x in rows ==> x.id in tickets && tickets[x.id] == x)
    && (forall k :: k in tickets ==> tickets[k].id == k)
  }

  /** The loop of `deleteUser`: each row's ticket is saved with no assignee, one at a time. */
  method UnassignRows(db: Database, rows: seq<Ticket>)
    requires db.Valid() && StoredRows(db.tickets, rows)
    modifies db
    ensures db.Valid()
    ensures db.Snapshot() == old(db.Snapshot()).(tickets := UnassignedSoFar(old(db.tickets), rows[..|rows|], old(db.clock)))
  {
    ghost var start := db.Snapshot();
    var i := 0;
    assert UnassignedSoFar(start.tickets, rows[..0], start.clock) == start.tickets;
    while i < |rows|
      invariant 0 <= i <= |rows|
      invariant db.Valid()
      invariant db.Snapshot() == start.(tickets := UnassignedSoFar(start.tickets, rows[..i], start.clock))
    {
      var t := rows[i];
      assert t in rows;
      UnassignOne(db, t.id);
      UnassignStep(start.tickets, rows, i, start.clock);
      i := i + 1;
    }
  }

  /**
   * The unassign step of `deleteUser`: every ticket the repository finds assigned to the
   * user is saved with no assignee; nothing else changes.
   */
  method UnassignTickets(db: Database, userId: nat)
    requires db.Valid()
    modifies db
    ensures db.Valid()
    ensures db.Snapshot() == old(db.Snapshot()).(tickets := UnassignAll(old(db.tickets), userId, old(db.clock)))
  {
    var assignedRows := TicketRepository.FindByAssignedToIdOrderByCreatedAtDesc(TicketRows(db.Snapshot()), userId);
    AssignedRowsStored(db.Snapshot(), userId);
    UnassignedAll(db.tickets, assignedRows, userId, db.clock);
    UnassignRows(db, assignedRows);
  }

  /** The rows the repository finds assigned to the user are exactly the stored tickets assigned to it. */
  lemma AssignedRowsStored(s: State, userId: nat)
    requires ValidState(s)
    ensures AssignedRowsOf(s.tickets, TicketRepository.FindByAssignedToIdOrderByCreatedAtDesc(TicketRows(s), userId), userId)
  {
    TicketRowsComplete(s);
  }

  /**
   * `deleteUser` (admin): an unknown id fails, and an admin deleting its own account is
   * refused, both with nothing changed. Otherwise each ticket assigned to the user is saved
   * with no assignee and then the user is deleted. The delete fails when the user still
   * created a ticket, wrote a comment or uploaded a file, and the transaction then rolls
   * back, unassignments included.
   */
  method DeleteUser(db: Database, caller: Caller, id: nat, now: nat) returns (r: Result<(), Error>)
    requires db.Valid() && db.clock <= now
    modifies db
    ensures db.Valid()
    ensures id !in old(db.users) ==> r == Err(UserNotFound(id)) && db.Snapshot() == old(db.Snapshot())
    ensures id in old(db.users) && old(db.users)[id].username == caller.username ==>
      r == Err(SelfDeletion) && db.Snapshot() == old(db.Snapshot())
    ensures id in old(db.users) && old(db.users)[id].username != caller.username ==>
      && (r.Ok? <==> !OwnsRows(old(db.Snapshot()), id))
      && (r.Err? ==> r.error == ConstraintViolation && db.Snapshot() == old(db.Snapshot()).(clock := now))
      && (r.Ok? ==> db.Snapshot() == old(db.Snapshot()).(tickets := UnassignAll(old(db.tickets), id, now),
                                                         users := old(db.users) - {id}, clock := now))
    ensures r.Ok? ==> forall k :: k in old(db.tickets) && old(db.tickets)[k].assignedTo == Some(id) ==>
                                  k in db.tickets && db.tickets[k].assignedTo.None?
  {
    if id !in db.users {
      return Err(UserNotFound(id));
    }
    if db.users[id].username == caller.username {
      return Err(SelfDeletion);
    }
    db.Advance(now);
    var start := db.Snapshot();
    UnassignTickets(db, id);
    UnassignedReferencedIff(start, id, now);
    var removed := db.RemoveUser(id);
    if removed.Err? {
      db.Rollback(start);
      return Err(removed.error);
    }
    r := Ok(());
  }
}
