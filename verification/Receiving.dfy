/** What one receive call returns and leaves behind, said without running its loop. */
module Receiving {
  import opened Identifiers
  import opened Tables
  import opened ReceivePlan
  import opened PlanFacts
  import opened Operations
  import opened Invariants
  import opened Preservation

  /** How much of a plan is handled before `limit` rows were delivered. */
  function Handled(rows: map<nat, Row>, plan: seq<nat>, policy: Option<Policy>, limit: nat): (n: nat)
    ensures n <= |plan|
  {
    if limit == 0 || plan == [] then 0
    else 1 + Handled(rows, plan[1..], policy, if OverAt(rows, plan[0], policy) then limit else limit - 1)
  }

  /** The rows of a plan that leave for the dead-letter queue. */
  function Departures(rows: map<nat, Row>, plan: seq<nat>, policy: Option<Policy>): seq<nat> {
    if plan == [] then []
    else (if OverAt(rows, plan[0], policy) then [plan[0]] else []) + Departures(rows, plan[1..], policy)
  }

  /** Rows neither delivered nor moved are untouched, and nothing else appeared. */
  ghost predicate RestKept(db: Db, d: Db, delivered: seq<nat>, moved: seq<nat>) {
    && (forall s :: s in db.messages && s !in delivered && s !in moved ==> Untouched(db, d, s))
    && (forall t :: t in d.messages ==> t in db.messages || db.nextSequence <= t < d.nextSequence)
  }

  ghost predicate RowsDelivered(db: Db, d: Db, visibility: nat, now: nat, delivered: seq<nat>) {
    forall i :: 0 <= i < |delivered| ==>
      var s := delivered[i];
      && s in db.messages && s in d.messages
      && d.messages[s] == DeliveredRow(db.messages[s], s, visibility, now) && Origin(d, s) == Origin(db, s)
  }

  /** The moved rows are gone from their places and appended in order. */
  ghost predicate RowsMoved(db: Db, d: Db, q: string, policy: Option<Policy>, now: nat, moved: seq<nat>) {
    && d.nextSequence == db.nextSequence + |moved|
    && (moved != [] ==> policy.Some?)
    && (forall i :: 0 <= i < |moved| ==> moved[i] in db.messages && moved[i] !in d.messages)
    && (forall t :: db.nextSequence <= t < d.nextSequence ==>
          && t in d.messages && Origin(d, t) == Some(q)
          && d.messages[t] == MovedRow(db.messages[moved[t - db.nextSequence]], t, policy.value.deadLetterQueue, now, 0, Kind(db, q) == Fifo, false))
  }

  /** d is db with the rows of `delivered` delivered and those of `moved` appended to the dead-letter queue. */
  ghost predicate Outcome(db: Db, d: Db, q: string, policy: Option<Policy>, visibility: nat, now: nat, delivered: seq<nat>, moved: seq<nat>) {
    RestKept(db, d, delivered, moved) && RowsDelivered(db, d, visibility, now, delivered) && RowsMoved(db, d, q, policy, now, moved)
  }

  lemma {:induction false} SplitMembers(rows: map<nat, Row>, plan: seq<nat>, policy: Option<Policy>)
    ensures forall s :: s in plan <==> s in Deliveries(rows, plan, policy) || s in Departures(rows, plan, policy)
    ensures forall s :: s in Departures(rows, plan, policy) ==> OverAt(rows, s, policy)
    ensures forall s :: s in Deliveries(rows, plan, policy) ==> !OverAt(rows, s, policy)
  {
    if plan != [] {
      SplitMembers(rows, plan[1..], policy);
      assert plan == [plan[0]] + plan[1..];
    }
  }

  /** What the receiver is given for row s. */
  function DeliveredView(db: Db, s: nat, visibility: nat, now: nat): Received
    requires s in db.messages
  {
    View(DeliveredRow(db.messages[s], s, visibility, now), s, Origin(db, s), Kind(db, db.messages[s].queue))
  }

  ghost predicate Responds(db: Db, received: seq<Received>, visibility: nat, now: nat, delivered: seq<nat>) {
    && |received| == |delivered|
    && (forall i :: 0 <= i < |delivered| ==>
          delivered[i] in db.messages && received[i] == DeliveredView(db, delivered[i], visibility, now))
  }

  // ----- one pass in front of an outcome

  /** Rows named by the rest of the plan, seen from before and after the first pass. */
  ghost predicate SameBefore(db: Db, d: Db, first: nat, order: seq<nat>) {
    && db.queues == d.queues
    && (forall i :: 0 <= i < |order| ==> order[i] != first && order[i] in db.messages && Untouched(db, d, order[i]))
  }

  lemma OutcomeAfterDeliver(db: Db, d: Db, e: Db, q: string, policy: Option<Policy>, visibility: nat, now: nat,
                            s: nat, delivered: seq<nat>, moved: seq<nat>)
    requires s in db.messages && d == Deliver(db, s, visibility, now) && s < db.nextSequence
    requires Outcome(d, e, q, policy, visibility, now, delivered, moved)
    requires SameBefore(db, d, s, delivered) && SameBefore(db, d, s, moved)
    ensures Outcome(db, e, q, policy, visibility, now, [s] + delivered, moved)
  {
    var all := [s] + delivered;
    assert s !in delivered && s !in moved;
    assert Untouched(d, e, s);
    forall t | t in db.messages && t !in all && t !in moved ensures Untouched(db, e, t) {
      assert t !in delivered && t != s;
      assert Untouched(d, e, t);
    }
    forall i | 0 <= i < |all|
      ensures all[i] in db.messages && all[i] in e.messages && Origin(e, all[i]) == Origin(db, all[i])
        && e.messages[all[i]] == DeliveredRow(db.messages[all[i]], all[i], visibility, now)
    {
      if i > 0 { assert all[i] == delivered[i - 1] && Untouched(db, d, delivered[i - 1]); }
    }
    forall t | db.nextSequence <= t < e.nextSequence
      ensures t in e.messages && Origin(e, t) == Some(q)
        && e.messages[t] == MovedRow(db.messages[moved[t - db.nextSequence]], t, policy.value.deadLetterQueue, now, 0, Kind(db, q) == Fifo, false)
    {
      assert Untouched(db, d, moved[t - db.nextSequence]);
    }
  }

  /** d is db with row s moved to the dead-letter queue, as the newest row. */
  ghost predicate OneMoved(db: Db, d: Db, q: string, policy: Policy, now: nat, s: nat) {
    && s in db.messages && db.queues == d.queues && d.nextSequence == db.nextSequence + 1
    && (forall t :: t in db.messages ==> t < db.nextSequence)
    && (forall t :: t in db.messages && t != s ==> Untouched(db, d, t))
    && (forall t :: t in d.messages ==> t == db.nextSequence || (t in db.messages && t != s))
    && db.nextSequence in d.messages && Origin(d, db.nextSequence) == Some(q)
    && d.messages[db.nextSequence]
       == MovedRow(db.messages[s], db.nextSequence, policy.deadLetterQueue, now, 0, Kind(db, q) == Fifo, false)
  }

  lemma DeadLetterMovesOne(db: Db, q: string, policy: Policy, now: nat, s: nat)
    requires s in db.messages && forall t :: t in db.messages ==> t < db.nextSequence
    ensures OneMoved(db, DeadLetter(db, s, q, policy, now), q, policy, now, s)
  {
  }

  lemma MovedAfterMove(db: Db, d: Db, e: Db, q: string, policy: Policy, now: nat, s: nat, moved: seq<nat>)
    requires OneMoved(db, d, q, policy, now, s) && RowsMoved(d, e, q, Some(policy), now, moved)
    requires SameBefore(db, d, s, moved)
    requires s !in e.messages && db.nextSequence in e.messages && Untouched(d, e, db.nextSequence)
    ensures RowsMoved(db, e, q, Some(policy), now, [s] + moved)
  {
    var all := [s] + moved;
    var n := db.nextSequence;
    forall i | 0 <= i < |all| ensures all[i] in db.messages && all[i] !in e.messages {
      if i > 0 { assert all[i] == moved[i - 1]; }
    }
    forall t | n <= t < e.nextSequence
      ensures t in e.messages && Origin(e, t) == Some(q)
        && e.messages[t] == MovedRow(db.messages[all[t - n]], t, policy.deadLetterQueue, now, 0, Kind(db, q) == Fifo, false)
    {
      if t > n {
        assert all[t - n] == moved[t - n - 1];
        assert Untouched(db, d, moved[t - n - 1]);
      }
    }
  }

  lemma KeptAfterMove(db: Db, d: Db, e: Db, q: string, policy: Policy, now: nat, s: nat, delivered: seq<nat>, moved: seq<nat>)
    requires OneMoved(db, d, q, policy, now, s) && RestKept(d, e, delivered, moved) && d.nextSequence <= e.nextSequence
    ensures RestKept(db, e, delivered, [s] + moved)
  {
  }

  lemma OutcomeAfterMove(db: Db, d: Db, e: Db, q: string, policy: Policy, visibility: nat, now: nat,
                         s: nat, delivered: seq<nat>, moved: seq<nat>)
    requires OneMoved(db, d, q, policy, now, s)
    requires Outcome(d, e, q, Some(policy), visibility, now, delivered, moved)
    requires SameBefore(db, d, s, delivered) && SameBefore(db, d, s, moved)
    ensures Outcome(db, e, q, Some(policy), visibility, now, delivered, [s] + moved)
  {
    var n := db.nextSequence;
    assert n !in delivered && n !in moved;
    assert Untouched(d, e, n);
    KeptAfterMove(db, d, e, q, policy, now, s, delivered, moved);
    MovedAfterMove(db, d, e, q, policy, now, s, moved);
    assert RowsDelivered(db, e, visibility, now, delivered) by {
      forall i | 0 <= i < |delivered| ensures Untouched(db, d, delivered[i]) {}
    }
  }

  // ----- the whole call

  lemma {:induction false} CollectOutcome(db: Db, q: string, policy: Option<Policy>, visibility: nat, now: nat, plan: seq<nat>, limit: nat)
    requires Inv(db) && Collectable(db, q, policy, plan)
    ensures var c := Collect(db, q, policy, visibility, now, plan, limit);
            var done := plan[..Handled(db.messages, plan, policy, limit)];
            var delivered := Deliveries(db.messages, done, policy);
            && Responds(db, c.received, visibility, now, delivered)
            && Outcome(db, c.db, q, policy, visibility, now, delivered, Departures(db.messages, done, policy))
    decreases |plan|
  {
    if limit != 0 && plan != [] {
      var s := plan[0];
      var d := Handle(db, q, policy, visibility, now, s);
      var over := Over(db.messages[s], policy);
      var next := if over then limit else limit - 1;
      HandleStep(db, q, policy, visibility, now, plan);
      CollectOutcome(d, q, policy, visibility, now, plan[1..], next);
      CollectOutcomeStep(db, d, q, policy, visibility, now, plan, limit, next);
    }
  }

  /** Deciding by the rows of d is deciding by the rows of db. */
  lemma {:induction false} SameDecisions(db: Db, d: Db, s: nat, plan: seq<nat>, policy: Option<Policy>, limit: nat)
    requires SameBefore(db, d, s, plan)
    ensures Handled(d.messages, plan, policy, limit) == Handled(db.messages, plan, policy, limit)
    ensures forall n :: 0 <= n <= |plan| ==>
              Deliveries(d.messages, plan[..n], policy) == Deliveries(db.messages, plan[..n], policy)
              && Departures(d.messages, plan[..n], policy) == Departures(db.messages, plan[..n], policy)
  {
    if plan != [] {
      var rest := plan[1..];
      assert forall i :: 0 <= i < |rest| ==> rest[i] == plan[i + 1];
      assert Untouched(db, d, plan[0]);
      SameDecisions(db, d, s, rest, policy, limit);
      if limit != 0 { SameDecisions(db, d, s, rest, policy, limit - 1); }
      forall n | 0 < n <= |plan|
        ensures Deliveries(d.messages, plan[..n], policy) == Deliveries(db.messages, plan[..n], policy)
        ensures Departures(d.messages, plan[..n], policy) == Departures(db.messages, plan[..n], policy)
      {
        assert plan[..n][1..] == rest[..n - 1];
      }
    }
  }

  lemma SameBeforeRest(db: Db, d: Db, policy: Option<Policy>, plan: seq<nat>)
    requires plan != [] && Distinct(plan) && TouchesOne(db, d, plan[0], policy)
    requires forall i :: 0 <= i < |plan| ==> plan[i] in db.messages
    ensures SameBefore(db, d, plan[0], plan[1..])
  {
  }

  lemma SameBeforePart(db: Db, d: Db, s: nat, plan: seq<nat>, part: seq<nat>)
    requires SameBefore(db, d, s, plan) && forall x :: x in part ==> x in plan
    ensures SameBefore(db, d, s, part)
  {
    forall i | 0 <= i < |part| ensures part[i] != s && part[i] in db.messages && Untouched(db, d, part[i]) {
      assert part[i] in plan;
    }
  }

  /** Splitting what was handled at the first row. */
  lemma HandledSplit(rows: map<nat, Row>, plan: seq<nat>, policy: Option<Policy>, limit: nat)
    requires plan != [] && limit != 0
    ensures var next := if OverAt(rows, plan[0], policy) then limit else limit - 1;
            var done := plan[..Handled(rows, plan, policy, limit)];
            var rest := plan[1..][..Handled(rows, plan[1..], policy, next)];
            && Deliveries(rows, done, policy)
               == (if OverAt(rows, plan[0], policy) then [] else [plan[0]]) + Deliveries(rows, rest, policy)
            && Departures(rows, done, policy)
               == (if OverAt(rows, plan[0], policy) then [plan[0]] else []) + Departures(rows, rest, policy)
  {
    var next := if OverAt(rows, plan[0], policy) then limit else limit - 1;
    var done := plan[..Handled(rows, plan, policy, limit)];
    assert done[0] == plan[0] && done[1..] == plan[1..][..Handled(rows, plan[1..], policy, next)];
  }

  lemma CollectOutcomeStep(db: Db, d: Db, q: string, policy: Option<Policy>, visibility: nat, now: nat, plan: seq<nat>, limit: nat, next: nat)
    requires Inv(db) && Collectable(db, q, policy, plan) && plan != [] && limit != 0
    requires d == Handle(db, q, policy, visibility, now, plan[0]) && TouchesOne(db, d, plan[0], policy)
    requires Collectable(d, q, policy, plan[1..])
    requires next == if Over(db.messages[plan[0]], policy) then limit else limit - 1
    requires var c := Collect(d, q, policy, visibility, now, plan[1..], next);
             var done := plan[1..][..Handled(d.messages, plan[1..], policy, next)];
             var delivered := Deliveries(d.messages, done, policy);
             && Responds(d, c.received, visibility, now, delivered)
             && Outcome(d, c.db, q, policy, visibility, now, delivered, Departures(d.messages, done, policy))
    ensures var c := Collect(db, q, policy, visibility, now, plan, limit);
            var done := plan[..Handled(db.messages, plan, policy, limit)];
            var delivered := Deliveries(db.messages, done, policy);
            && Responds(db, c.received, visibility, now, delivered)
            && Outcome(db, c.db, q, policy, visibility, now, delivered, Departures(db.messages, done, policy))
  {
    var s, rest := plan[0], plan[1..];
    BelowNext(db);
    CollectUnfold(db, d, q, policy, visibility, now, plan, limit);
    SameBeforeRest(db, d, policy, plan);
    SameDecisions(db, d, s, rest, policy, next);
    HandledSplit(db.messages, plan, policy, limit);
    var part := rest[..Handled(db.messages, rest, policy, next)];
    var delivered, moved := Deliveries(db.messages, part, policy), Departures(db.messages, part, policy);
    SplitMembers(db.messages, part, policy);
    SameBeforePart(db, d, s, rest, delivered);
    SameBeforePart(db, d, s, rest, moved);
    var c := Collect(d, q, policy, visibility, now, rest, next);
    RespondsAfterFirst(db, d, visibility, now, s, c.received, delivered);
    if Over(db.messages[s], policy) {
      DeadLetterMovesOne(db, q, policy.value, now, s);
      assert [] + delivered == delivered && [] + c.received == c.received;
      OutcomeAfterMove(db, d, c.db, q, policy.value, visibility, now, s, delivered, moved);
    } else {
      assert [] + moved == moved;
      OutcomeAfterDeliver(db, d, c.db, q, policy, visibility, now, s, delivered, moved);
    }
  }

  lemma RespondsAfterFirst(db: Db, d: Db, visibility: nat, now: nat, s: nat, received: seq<Received>, delivered: seq<nat>)
    requires Responds(d, received, visibility, now, delivered) && SameBefore(db, d, s, delivered) && s in db.messages
    ensures Responds(db, received, visibility, now, delivered)
    ensures d == Deliver(db, s, visibility, now) ==> Responds(db, [ViewRow(d, s)] + received, visibility, now, [s] + delivered)
  {
    forall i | 0 <= i < |delivered|
      ensures delivered[i] in db.messages && received[i] == DeliveredView(db, delivered[i], visibility, now)
    {
      assert Untouched(db, d, delivered[i]);
    }
  }
}
