/** The main results about one receive call. */
module ReceiveTheorems {
  import opened Identifiers
  import opened Ordering
  import opened Tables
  import opened ReceivePlan
  import opened Blocks
  import opened PlanFacts
  import opened Operations
  import opened Invariants
  import opened Preservation
  import opened Receiving

  /** Stopping after `limit` deliveries delivers the first `limit`. */
  lemma {:induction false} HandledDeliversFirst(rows: map<nat, Row>, plan: seq<nat>, policy: Option<Policy>, limit: nat)
    ensures Deliveries(rows, plan[..Handled(rows, plan, policy, limit)], policy) == First(Deliveries(rows, plan, policy), limit)
  {
    if limit != 0 && plan != [] {
      var next := if OverAt(rows, plan[0], policy) then limit else limit - 1;
      HandledDeliversFirst(rows, plan[1..], policy, next);
      HandledSplit(rows, plan, policy, limit);
    }
  }

  /** The loop stops right at the last delivery it wanted, or at the end. */
  lemma {:induction false} HandledStops(rows: map<nat, Row>, plan: seq<nat>, policy: Option<Policy>, limit: nat)
    ensures var all := Deliveries(rows, plan, policy);
            var n := Handled(rows, plan, policy, limit);
            && (|all| < limit ==> n == |plan|)
            && (0 < limit <= |all| ==> n > 0 && plan[n - 1] == all[limit - 1])
  {
    if limit != 0 && plan != [] {
      var rest := plan[1..];
      var more := Deliveries(rows, rest, policy);
      var all := Deliveries(rows, plan, policy);
      if OverAt(rows, plan[0], policy) {
        HandledStops(rows, rest, policy, limit);
        assert all == more;
        var m := Handled(rows, rest, policy, limit);
        assert Handled(rows, plan, policy, limit) == 1 + m;
        assert m > 0 ==> rest[m - 1] == plan[m];
      } else {
        HandledStops(rows, rest, policy, limit - 1);
        assert all == [plan[0]] + more;
        var m := Handled(rows, rest, policy, limit - 1);
        assert Handled(rows, plan, policy, limit) == 1 + m;
        assert m > 0 ==> rest[m - 1] == plan[m];
      }
    }
  }

  /** The rows a receive on q delivers, in order. */
  function Answer(db: Db, q: string, visibility: nat, now: nat, limit: nat): seq<nat> {
    First(Deliveries(db.messages, ReceiveOrder(db, q, now), PolicyOf(db, q)), Cap(Kind(db, q), visibility, now, limit))
  }

  lemma ReceiveDeliversAnswer(db: Db, q: string, limit: nat, visibility: nat, now: nat)
    requires Inv(db) && q in db.queues
    ensures Responds(db, CollectReceived(db, q, limit, visibility, now).received, visibility, now, Answer(db, q, visibility, now, limit))
  {
    ReceiveOrderCollectable(db, q, now);
    CollectOutcome(db, q, PolicyOf(db, q), visibility, now, ReceiveOrder(db, q, now), Cap(Kind(db, q), visibility, now, limit));
    HandledDeliversFirst(db.messages, ReceiveOrder(db, q, now), PolicyOf(db, q), Cap(Kind(db, q), visibility, now, limit));
  }

  /** The rows the call moves to the dead-letter queue, in order. */
  function Casualties(db: Db, q: string, visibility: nat, now: nat, limit: nat): seq<nat> {
    var plan := ReceiveOrder(db, q, now);
    Departures(db.messages, plan[..Handled(db.messages, plan, PolicyOf(db, q), Cap(Kind(db, q), visibility, now, limit))], PolicyOf(db, q))
  }

  lemma ReceiveLeavesOutcome(db: Db, q: string, limit: nat, visibility: nat, now: nat)
    requires Inv(db) && q in db.queues
    ensures Outcome(db, CollectReceived(db, q, limit, visibility, now).db, q, PolicyOf(db, q), visibility, now,
                    Answer(db, q, visibility, now, limit), Casualties(db, q, visibility, now, limit))
  {
    ReceiveOrderCollectable(db, q, now);
    CollectOutcome(db, q, PolicyOf(db, q), visibility, now, ReceiveOrder(db, q, now), Cap(Kind(db, q), visibility, now, limit));
    HandledDeliversFirst(db.messages, ReceiveOrder(db, q, now), PolicyOf(db, q), Cap(Kind(db, q), visibility, now, limit));
  }

  // ----- FIFO

  lemma {:induction false} NothingOver(rows: map<nat, Row>, plan: seq<nat>)
    ensures Deliveries(rows, plan, None) == plan && Departures(rows, plan, None) == []
  {
    if plan != [] {
      NothingOver(rows, plan[1..]);
      assert plan == [plan[0]] + plan[1..];
    }
  }

  /**
   * Without a redrive policy a FIFO receive returns the first `limit` rows of: over groups
   * ordered by their oldest live row, the group's longest prefix of receivable rows.
   */
  lemma FifoReceiveWithoutPolicy(db: Db, q: string, limit: nat, visibility: nat, now: nat)
    requires Inv(db) && q in db.queues && Kind(db, q) == Fifo && q !in db.policies
    ensures var order := First(GroupsInOrder(db.messages, Rows(db, q), now), limit);
            var c := CollectReceived(db, q, limit, visibility, now);
            && Responds(db, c.received, visibility, now, order)
            && Outcome(db, c.db, q, None, visibility, now, order, [])
  {
    var plan := ReceiveOrder(db, q, now);
    FifoPlanWithoutPolicy(db.messages, Rows(db, q), now);
    NothingOver(db.messages, plan);
    NothingOver(db.messages, plan[..Handled(db.messages, plan, None, limit)]);
    ReceiveDeliversAnswer(db, q, limit, visibility, now);
    ReceiveLeavesOutcome(db, q, limit, visibility, now);
  }

  /** Whatever the policy moves away, the response comes in one ascending block a group. */
  lemma FifoResponseInBlocks(db: Db, q: string, limit: nat, visibility: nat, now: nat)
    requires Inv(db) && q in db.queues && Kind(db, q) == Fifo
    ensures var order := Answer(db, q, visibility, now, limit);
            && Responds(db, CollectReceived(db, q, limit, visibility, now).received, visibility, now, order)
            && InBlocks(GroupsOf(db.messages, order), order)
  {
    var all := Deliveries(db.messages, ReceiveOrder(db, q, now), PolicyOf(db, q));
    FifoDeliveriesInBlocks(db.messages, Rows(db, q), now, PolicyOf(db, q));
    ReceiveDeliversAnswer(db, q, limit, visibility, now);
    FirstInBlocks(db.messages, all, limit);
  }

  lemma FirstInBlocks(rows: map<nat, Row>, order: seq<nat>, limit: nat)
    requires InBlocks(GroupsOf(rows, order), order)
    ensures var first := First(order, limit); InBlocks(GroupsOf(rows, first), first)
  {
    if limit < |order| {
      BlocksPrefix(GroupsOf(rows, order), order, limit);
      assert GroupsOf(rows, order)[..limit] == GroupsOf(rows, order[..limit]);
    }
  }

  /** Nothing older of its group is skipped: it is delivered or moved too. */
  lemma FifoSkipsNothing(db: Db, q: string, limit: nat, visibility: nat, now: nat, s: nat, e: nat)
    requires q in db.queues && Kind(db, q) == Fifo
    requires s in Answer(db, q, visibility, now, limit)
    requires e in Rows(db, q) && s in db.messages && e < s && SameGroup(db, e, s)
    ensures e in Answer(db, q, visibility, now, limit) || e in Casualties(db, q, visibility, now, limit)
  {
    var plan := ReceiveOrder(db, q, now);
    var policy := PolicyOf(db, q);
    var n := Handled(db.messages, plan, policy, limit);
    var done := plan[..n];
    HandledDeliversFirst(db.messages, plan, policy, limit);
    SplitMembers(db.messages, done, policy);
    FifoPlanClosed(db.messages, Rows(db, q), now, policy);
    assert s in done;
    var i :| 0 <= i < n && plan[i] == s;
    assert e in plan[..i];
    assert plan[..i] == done[..i];
  }

  /** After the call, a row older than a delivered one in its group was delivered in the same call. */
  lemma FifoLeavesNothingOlder(db: Db, q: string, limit: nat, visibility: nat, now: nat, s: nat, e: nat)
    requires Inv(db) && q in db.queues && Kind(db, q) == Fifo
    requires s in Answer(db, q, visibility, now, limit)
    requires var d := CollectReceived(db, q, limit, visibility, now).db;
             e in d.messages && s in d.messages && e < s && SameGroup(d, e, s)
    ensures e in Answer(db, q, visibility, now, limit)
  {
    var d := CollectReceived(db, q, limit, visibility, now).db;
    var answer, casualties := Answer(db, q, visibility, now, limit), Casualties(db, q, visibility, now, limit);
    ReceiveLeavesOutcome(db, q, limit, visibility, now);
    BelowNext(db);
    OutcomeSameGroup(db, d, q, PolicyOf(db, q), visibility, now, answer, casualties, s, e);
    AnswerFromQueue(db, q, limit, visibility, now, s);
    if e !in answer { FifoSkipsNothing(db, q, limit, visibility, now, s, e); }
  }

  /** While an older message of its group is in flight or delayed, a FIFO message is neither delivered nor moved. */
  lemma WaitingBlocksGroup(db: Db, q: string, limit: nat, visibility: nat, now: nat, e: nat, s: nat)
    requires Kind(db, q) == Fifo && e in Rows(db, q) && s in Rows(db, q) && e <= s && SameGroup(db, e, s)
    requires !Receivable(db.messages[e], now)
    ensures s !in Answer(db, q, visibility, now, limit) && s !in Casualties(db, q, visibility, now, limit)
  {
    var plan, policy := ReceiveOrder(db, q, now), PolicyOf(db, q);
    var n := Handled(db.messages, plan, policy, Cap(Kind(db, q), visibility, now, limit));
    DeliveriesMembers(db.messages, plan, policy);
    SplitMembers(db.messages, plan[..n], policy);
    FifoPlanServed(db.messages, Rows(db, q), now, policy);
    assert !Served(db.messages, Rows(db, q), now, s);
    assert s !in plan;
  }

  lemma AnswerFromQueue(db: Db, q: string, limit: nat, visibility: nat, now: nat, s: nat)
    requires s in Answer(db, q, visibility, now, limit)
    ensures s in Rows(db, q) && Receivable(db.messages[s], now) && !Over(db.messages[s], PolicyOf(db, q))
  {
    var plan := ReceiveOrder(db, q, now);
    DeliveriesMembers(db.messages, plan, PolicyOf(db, q));
    FifoPlanServed(db.messages, Rows(db, q), now, PolicyOf(db, q));
    assert s in plan;
  }

  lemma OutcomeSameGroup(db: Db, d: Db, q: string, policy: Option<Policy>, visibility: nat, now: nat,
                         delivered: seq<nat>, moved: seq<nat>, s: nat, e: nat)
    requires Outcome(db, d, q, policy, visibility, now, delivered, moved)
    requires s in delivered && e in d.messages && s in d.messages && e < s && SameGroup(d, e, s)
    requires forall t :: t in db.messages ==> t < db.nextSequence
    ensures s in db.messages && e in db.messages && SameGroup(db, e, s) && e !in moved
  {
    var k :| 0 <= k < |delivered| && delivered[k] == s;
    assert e in db.messages;
    if e in delivered {
      var i :| 0 <= i < |delivered| && delivered[i] == e;
    } else {
      assert Untouched(db, d, e);
    }
  }

  // ----- standard

  function Wanted(db: Db, q: string, now: nat): set<nat> {
    set s | s in Rows(db, q) && Receivable(db.messages[s], now) && !Over(db.messages[s], PolicyOf(db, q))
  }

  function Exhausted(db: Db, q: string, now: nat): set<nat> {
    set s | s in Rows(db, q) && Receivable(db.messages[s], now) && Over(db.messages[s], PolicyOf(db, q))
  }

  lemma AscendingUnique(a: seq<nat>, b: seq<nat>)
    requires IsAscending(a) && IsAscending(b) && forall x :: x in a <==> x in b
    ensures a == b
  {
    var x := if a == [] then 0 else a[0];
    var y := if b == [] then 0 else b[0];
    assert (a != [] ==> x in a) && (b != [] ==> y in b);
    if a != [] {
      assert x in b && y in a;
      assert x == y;
      assert a == [x] + a[1..] && b == [x] + b[1..];
      forall z ensures z in a[1..] <==> z in b[1..] {
        assert (z in a[1..] ==> z in b && z != x) && (z in b[1..] ==> z in a && z != x);
      }
      AscendingUnique(a[1..], b[1..]);
    }
  }

  lemma AscendingReceiveOrder(db: Db, q: string, now: nat)
    requires Kind(db, q) == Standard
    ensures Deliveries(db.messages, ReceiveOrder(db, q, now), PolicyOf(db, q)) == Ascending(Wanted(db, q, now))
  {
    var plan := ReceiveOrder(db, q, now);
    assert plan == Ascending(ReceivableIn(db.messages, Rows(db, q), now));
    AscendingDeliveries(db.messages, plan, PolicyOf(db, q));
    DeliveriesMembers(db.messages, plan, PolicyOf(db, q));
    AscendingUnique(Deliveries(db.messages, plan, PolicyOf(db, q)), Ascending(Wanted(db, q, now)));
  }

  lemma DepartureMembers(rows: map<nat, Row>, plan: seq<nat>, policy: Option<Policy>)
    ensures forall s :: s in Departures(rows, plan, policy) <==> s in plan && OverAt(rows, s, policy)
  {
    SplitMembers(rows, plan, policy);
  }

  lemma {:induction false} AscendingDepartures(rows: map<nat, Row>, plan: seq<nat>, policy: Option<Policy>)
    requires IsAscending(plan)
    ensures IsAscending(Departures(rows, plan, policy))
  {
    if plan != [] {
      var rest := Departures(rows, plan[1..], policy);
      AscendingDepartures(rows, plan[1..], policy);
      DepartureMembers(rows, plan[1..], policy);
      assert forall i :: 0 <= i < |rest| ==> rest[i] in plan[1..];
      if OverAt(rows, plan[0], policy) {
        PrependAscending(plan[0], rest);
      } else {
        assert [] + rest == rest;
      }
    }
  }

  /** The over-threshold rows a standard scan meets: those before its last delivery, or all of them. */
  function Met(db: Db, q: string, now: nat, limit: nat): set<nat> {
    var wanted := Ascending(Wanted(db, q, now));
    set s | s in Exhausted(db, q, now) && (|wanted| < limit || (limit > 0 && s < wanted[limit - 1]))
  }

  lemma StandardCasualties(db: Db, q: string, limit: nat, visibility: nat, now: nat)
    requires Kind(db, q) == Standard
    ensures Casualties(db, q, visibility, now, limit) == Ascending(Met(db, q, now, Cap(Standard, visibility, now, limit)))
  {
    var policy := PolicyOf(db, q);
    var cap := Cap(Standard, visibility, now, limit);
    var plan := ReceiveOrder(db, q, now);
    var n := Handled(db.messages, plan, policy, cap);
    var done := plan[..n];
    AscendingDepartures(db.messages, done, policy);
    DepartureMembers(db.messages, done, policy);
    forall s
      ensures s in Departures(db.messages, done, policy) <==> s in Met(db, q, now, cap)
    {
      if s in Exhausted(db, q, now) { StandardDone(db, q, now, cap, s); }
      assert s in done ==> s in plan;
    }
    AscendingUnique(Departures(db.messages, done, policy), Ascending(Met(db, q, now, cap)));
  }

  lemma PositionBelow(plan: seq<nat>, n: nat, s: nat)
    requires IsAscending(plan) && s in plan && n <= |plan|
    ensures s in plan[..n] <==> n > 0 && s <= plan[n - 1]
  {
  }

  lemma StandardDone(db: Db, q: string, now: nat, cap: nat, s: nat)
    requires Kind(db, q) == Standard && s in Exhausted(db, q, now)
    ensures var wanted := Ascending(Wanted(db, q, now));
            var plan := ReceiveOrder(db, q, now);
            (s in plan[..Handled(db.messages, plan, PolicyOf(db, q), cap)]) == (s in Met(db, q, now, cap))
  {
    var wanted := Ascending(Wanted(db, q, now));
    var plan := ReceiveOrder(db, q, now);
    var n := Handled(db.messages, plan, PolicyOf(db, q), cap);
    HandledStops(db.messages, plan, PolicyOf(db, q), cap);
    AscendingReceiveOrder(db, q, now);
    PositionBelow(plan, n, s);
    if 0 < cap <= |wanted| {
      var last := wanted[cap - 1];
      assert last in wanted && last in Wanted(db, q, now);
      assert s != last;
    }
  }

  /**
   * A standard receive is a scan in sequence order: it delivers the first `limit` receivable rows
   * under the threshold (one, if deliveries stay visible) and moves exactly the receivable rows at
   * the threshold that it met, in order.
   */
  lemma StandardReceive(db: Db, q: string, limit: nat, visibility: nat, now: nat)
    requires Inv(db) && q in db.queues && Kind(db, q) == Standard
    ensures var cap := Cap(Standard, visibility, now, limit);
            var delivered := First(Ascending(Wanted(db, q, now)), cap);
            var c := CollectReceived(db, q, limit, visibility, now);
            && Responds(db, c.received, visibility, now, delivered)
            && Outcome(db, c.db, q, PolicyOf(db, q), visibility, now, delivered, Ascending(Met(db, q, now, cap)))
  {
    AscendingReceiveOrder(db, q, now);
    StandardCasualties(db, q, limit, visibility, now);
    ReceiveDeliversAnswer(db, q, limit, visibility, now);
    ReceiveLeavesOutcome(db, q, limit, visibility, now);
  }
}
