/** No operation that moves messages loses, duplicates or alters one. */
module Conservation {
  import opened Identifiers
  import opened Ordering
  import opened Tables
  import opened ReceivePlan
  import opened PlanFacts
  import opened Operations
  import opened Invariants
  import opened Preservation
  import opened Runs
  import opened History

  /** What a message is; a dead letter keeps its id, a message redriven by hand gets a new one. */
  datatype Payload = Payload(id: string, body: string, group: Option<string>, attributes: string, dedup: Option<string>)

  function PayloadOf(row: Row, withId: bool): Payload {
    Payload(if withId then row.id else "", row.body, row.group, row.attributes, row.dedup)
  }

  function RowsIn(db: Db, queues: set<string>): set<nat> {
    set s | s in db.messages && db.messages[s].queue in queues
  }

  function Bag(rows: map<nat, Row>, S: set<nat>, withId: bool): multiset<Payload>
    requires S <= rows.Keys
  {
    if S == {} then multiset{}
    else var m := Min(S); Bag(rows, S - {m}, withId) + multiset{PayloadOf(rows[m], withId)}
  }

  /** The messages of some queues. */
  function Messages(db: Db, queues: set<string>, withId: bool): multiset<Payload> {
    Bag(db.messages, RowsIn(db, queues), withId)
  }

  lemma {:induction false} BagInsert(rows: map<nat, Row>, S: set<nat>, x: nat, withId: bool)
    requires S <= rows.Keys && x in rows && x !in S
    ensures Bag(rows, S + {x}, withId) == Bag(rows, S, withId) + multiset{PayloadOf(rows[x], withId)}
    decreases S
  {
    var T := S + {x};
    var m := Min(T);
    if m == x {
      assert T - {m} == S;
    } else {
      assert m == Min(S);
      assert T - {m} == (S - {m}) + {x};
      BagInsert(rows, S - {m}, x, withId);
    }
  }

  lemma {:induction false} BagFrame(rows: map<nat, Row>, others: map<nat, Row>, S: set<nat>, withId: bool)
    requires S <= rows.Keys && S <= others.Keys
    requires forall s :: s in S ==> PayloadOf(rows[s], withId) == PayloadOf(others[s], withId)
    ensures Bag(rows, S, withId) == Bag(others, S, withId)
    decreases S
  {
    if S != {} { BagFrame(rows, others, S - {Min(S)}, withId); }
  }

  /** Row s became row n with the same payload; the other rows of the queues are the same. */
  lemma MoveConserves(db: Db, d: Db, queues: set<string>, s: nat, n: nat, withId: bool)
    requires s in db.messages && n in d.messages && n !in db.messages
    requires db.messages[s].queue in queues && d.messages[n].queue in queues
    requires PayloadOf(d.messages[n], withId) == PayloadOf(db.messages[s], withId)
    requires d.messages.Keys == db.messages.Keys - {s} + {n}
    requires forall t :: t in db.messages && t != s ==> d.messages[t] == db.messages[t]
    ensures Messages(d, queues, withId) == Messages(db, queues, withId)
  {
    var kept := RowsIn(db, queues) - {s};
    assert RowsIn(db, queues) == kept + {s};
    assert RowsIn(d, queues) == kept + {n};
    BagInsert(db.messages, kept, s, withId);
    BagInsert(d.messages, kept, n, withId);
    BagFrame(db.messages, d.messages, kept, withId);
  }

  lemma MoveMessageConserves(db: Db, s: nat, destination: string, now: nat, reset: bool, renew: bool, queues: set<string>)
    requires s in db.messages && db.messages[s].queue in queues && destination in queues
    requires forall t :: t in db.messages ==> t < db.nextSequence
    ensures Messages(MoveMessage(db, s, destination, now, reset, renew), queues, !renew) == Messages(db, queues, !renew)
  {
    MoveConserves(db, MoveMessage(db, s, destination, now, reset, renew), queues, s, db.nextSequence, !renew);
  }

  lemma DeliverConserves(db: Db, s: nat, visibility: nat, now: nat, queues: set<string>)
    requires s in db.messages
    ensures Messages(Deliver(db, s, visibility, now), queues, true) == Messages(db, queues, true)
  {
    var d := Deliver(db, s, visibility, now);
    assert RowsIn(d, queues) == RowsIn(db, queues);
    BagFrame(db.messages, d.messages, RowsIn(db, queues), true);
  }

  lemma HandleConserves(db: Db, q: string, policy: Option<Policy>, visibility: nat, now: nat, s: nat, queues: set<string>)
    requires s in db.messages && db.messages[s].queue == q && q in queues
    requires policy.Some? ==> policy.value.deadLetterQueue in queues
    requires forall t :: t in db.messages ==> t < db.nextSequence
    ensures Messages(Handle(db, q, policy, visibility, now, s), queues, true) == Messages(db, queues, true)
  {
    if Over(db.messages[s], policy) {
      MoveMessageConserves(db, s, policy.value.deadLetterQueue, now, Kind(db, q) == Fifo, false, queues);
      var moved := MoveMessage(db, s, policy.value.deadLetterQueue, now, Kind(db, q) == Fifo, false);
      var d := Handle(db, q, policy, visibility, now, s);
      assert d.messages == moved.messages;
      assert RowsIn(d, queues) == RowsIn(moved, queues);
    } else {
      DeliverConserves(db, s, visibility, now, queues);
    }
  }

  lemma FirstPassConserves(db: Db, q: string, policy: Option<Policy>, visibility: nat, now: nat, plan: seq<nat>, limit: nat, queues: set<string>)
      returns (d: Db, next: nat)
    requires Inv(db) && Collectable(db, q, policy, plan) && plan != [] && limit != 0 && q in queues
    requires policy.Some? ==> policy.value.deadLetterQueue in queues
    ensures Inv(d) && Collectable(d, q, policy, plan[1..])
    ensures Messages(d, queues, true) == Messages(db, queues, true)
    ensures Collect(db, q, policy, visibility, now, plan, limit).db == Collect(d, q, policy, visibility, now, plan[1..], next).db
  {
    BelowNext(db);
    HandleStep(db, q, policy, visibility, now, plan);
    HandleConserves(db, q, policy, visibility, now, plan[0], queues);
    d := Handle(db, q, policy, visibility, now, plan[0]);
    next := if Over(db.messages[plan[0]], policy) then limit else limit - 1;
    CollectUnfold(db, d, q, policy, visibility, now, plan, limit);
  }

  lemma {:induction false} CollectConserves(db: Db, q: string, policy: Option<Policy>, visibility: nat, now: nat, plan: seq<nat>, limit: nat, queues: set<string>)
    requires Inv(db) && Collectable(db, q, policy, plan) && q in queues
    requires policy.Some? ==> policy.value.deadLetterQueue in queues
    ensures Messages(Collect(db, q, policy, visibility, now, plan, limit).db, queues, true) == Messages(db, queues, true)
    decreases |plan|
  {
    if limit != 0 && plan != [] {
      var d, next := FirstPassConserves(db, q, policy, visibility, now, plan, limit, queues);
      CollectConserves(d, q, policy, visibility, now, plan[1..], next, queues);
    }
  }

  /** The queue and, if it has a policy, its dead-letter queue. */
  function Reach(db: Db, q: string): set<string> {
    if q in db.policies then {q, db.policies[q].deadLetterQueue} else {q}
  }

  lemma SameRowsSameMessages(db: Db, d: Db, queues: set<string>, withId: bool)
    requires d.messages.Keys == db.messages.Keys
    requires forall s :: s in db.messages ==>
               d.messages[s].queue == db.messages[s].queue && PayloadOf(d.messages[s], withId) == PayloadOf(db.messages[s], withId)
    ensures Messages(d, queues, withId) == Messages(db, queues, withId)
  {
    assert RowsIn(d, queues) == RowsIn(db, queues);
    BagFrame(db.messages, d.messages, RowsIn(db, queues), withId);
  }

  lemma FreshConserves(e: Db, q: string, maximum: nat, o: ReceiveOptions, visibility: nat, now: nat, cacheEmpty: bool)
    requires Inv(e) && q in e.queues
    ensures Messages(ReceiveFresh(e, q, maximum, o, visibility, now, cacheEmpty).db, Reach(e, q), true) == Messages(e, Reach(e, q), true)
  {
    var limit := Limit(e, q, maximum, now);
    ReceiveOrderCollectable(e, q, now);
    CollectConserves(e, q, PolicyOf(e, q), visibility, now, ReceiveOrder(e, q, now), Cap(Kind(e, q), visibility, now, limit), Reach(e, q));
    FreshRows(e, q, maximum, o, visibility, now, cacheEmpty);
    var d := ReceiveFresh(e, q, maximum, o, visibility, now, cacheEmpty).db;
    if d != e { SameRowsSameMessages(CollectReceived(e, q, limit, visibility, now).db, d, Reach(e, q), true); }
  }

  lemma ReplayConserves(e: Db, q: string, o: ReceiveOptions, maximum: nat, now: nat, queues: set<string>)
    requires q in e.queues && ReplayAttempt(e, q, o, maximum, now).Replayed?
    ensures Messages(ReplayAttempt(e, q, o, maximum, now).db, queues, true) == Messages(e, queues, true)
  {
    SameRowsSameMessages(e, ReplayAttempt(e, q, o, maximum, now).db, queues, true);
  }

  /**
   * A receive, fresh or replayed, keeps the bag of messages of the queue and its dead-letter queue,
   * ids included, apart from the rows of the queue that had expired.
   */
  lemma ReceiveConserves(db: Db, op: Op)
    requires Inv(db) && op.OpReceive?
    ensures var d, queues := Step(db, op), Reach(db, op.queue);
            d == db || Messages(d, queues, true) == Messages(ExpireMessages(db, op.queue, Ms(op.nowMs)), queues, true)
  {
    var q, now := op.queue, Ms(op.nowMs);
    var expired := ExpireMessages(db, q, now);
    var stage := ReceiveStage(db, op);
    match stage
    case RolledBack =>
    case Replaying(e) =>
      ReplayConserves(e, q, op.options, op.maximum, now, Reach(db, q));
      SameRowsSameMessages(e, expired, Reach(db, q), true);
    case Collecting(e, visibility) =>
      FreshConserves(e, q, op.maximum, op.options, visibility, now, op.cacheEmpty);
      SameRowsSameMessages(e, expired, Reach(db, q), true);
  }

  // ----- manual redrive

  lemma {:induction false} MoveBackConserves(db: Db, dlq: string, source: string, now: nat, order: seq<nat>)
    requires forall t :: t in db.messages ==> t < db.nextSequence
    requires Distinct(order) && forall i :: 0 <= i < |order| ==> order[i] in db.messages && db.messages[order[i]].queue == dlq
    ensures Messages(MoveBack(db, source, now, order), {dlq, source}, false) == Messages(db, {dlq, source}, false)
    decreases |order|
  {
    if order != [] {
      var d := MoveMessage(db, order[0], source, now, true, true);
      var rest := order[1..];
      MoveMessageConserves(db, order[0], source, now, true, true, {dlq, source});
      forall i | 0 <= i < |rest| ensures rest[i] in d.messages && d.messages[rest[i]] == db.messages[rest[i]] {
        assert rest[i] == order[i + 1] && order[0] != order[i + 1];
      }
      assert Distinct(rest);
      MoveBackConserves(d, dlq, source, now, rest);
    }
  }

  /** Rows outside the order are left alone, and nothing else appeared. */
  ghost predicate RestStayed(db: Db, d: Db, order: seq<nat>) {
    && (forall t :: t in db.messages && t !in order ==> Untouched(db, d, t))
    && (forall t :: t in d.messages ==> t in db.messages || db.nextSequence <= t < d.nextSequence)
  }

  /** The rows of the order are gone and reappear, in order, as new messages of the source. */
  ghost predicate Reborn(db: Db, d: Db, source: string, now: nat, order: seq<nat>) {
    && d.nextSequence == db.nextSequence + |order| && d.queues == db.queues
    && (forall i :: 0 <= i < |order| ==> order[i] in db.messages && order[i] !in d.messages)
    && (forall t :: db.nextSequence <= t < d.nextSequence ==>
          t in d.messages && d.messages[t] == MovedRow(db.messages[order[t - db.nextSequence]], t, source, now, DelayOf(db, source), true, true))
  }

  ghost predicate MovedBack(db: Db, d: Db, source: string, now: nat, order: seq<nat>) {
    RestStayed(db, d, order) && Reborn(db, d, source, now, order)
  }

  lemma {:induction false} MoveBackMoves(db: Db, source: string, now: nat, order: seq<nat>)
    requires forall t :: t in db.messages ==> t < db.nextSequence
    requires OriginsOk(db)
    requires Distinct(order) && forall i :: 0 <= i < |order| ==> order[i] in db.messages
    ensures MovedBack(db, MoveBack(db, source, now, order), source, now, order)
    decreases |order|
  {
    if order != [] {
      var d := MoveMessage(db, order[0], source, now, true, true);
      var rest := order[1..];
      forall t | t in db.messages && t != order[0] ensures Untouched(db, d, t) {}
      forall i | 0 <= i < |rest| ensures rest[i] != order[0] && Untouched(db, d, rest[i]) {
        assert rest[i] == order[i + 1];
      }
      assert OneReborn(db, d, source, now, order[0]);
      assert Distinct(rest);
      MoveBackMoves(d, source, now, rest);
      MovedBackAfterOne(db, d, MoveBack(d, source, now, rest), source, now, order);
    }
  }

  /** Row s became the newest row, of the source. */
  ghost predicate OneReborn(db: Db, d: Db, source: string, now: nat, s: nat) {
    && d.queues == db.queues && d.nextSequence == db.nextSequence + 1 && s in db.messages
    && (forall t :: t in db.messages ==> t < db.nextSequence)
    && d.messages.Keys == db.messages.Keys - {s} + {db.nextSequence}
    && (forall t :: t in db.messages && t != s ==> Untouched(db, d, t))
    && d.messages[db.nextSequence] == MovedRow(db.messages[s], db.nextSequence, source, now, DelayOf(db, source), true, true)
  }

  lemma RestStayedAfterOne(db: Db, d: Db, e: Db, source: string, now: nat, s: nat, rest: seq<nat>)
    requires OneReborn(db, d, source, now, s) && RestStayed(d, e, rest) && d.nextSequence <= e.nextSequence
    ensures RestStayed(db, e, [s] + rest)
  {
    forall t | t in db.messages && t !in [s] + rest ensures Untouched(db, e, t) {
      assert t !in rest && t != s;
      assert Untouched(db, d, t) && Untouched(d, e, t);
    }
  }

  lemma OrderStaysGone(db: Db, d: Db, e: Db, source: string, now: nat, s: nat, rest: seq<nat>)
    requires OneReborn(db, d, source, now, s) && Reborn(d, e, source, now, rest)
    requires forall i :: 0 <= i < |rest| ==> rest[i] in db.messages && rest[i] != s
    requires s !in e.messages
    ensures forall i :: 0 <= i < |[s] + rest| ==> ([s] + rest)[i] in db.messages && ([s] + rest)[i] !in e.messages
  {
  }

  /** A row of the rest is reborn as it would have been from the first database. */
  lemma RebornLater(db: Db, d: Db, e: Db, source: string, now: nat, s: nat, rest: seq<nat>, t: nat)
    requires OneReborn(db, d, source, now, s) && Reborn(d, e, source, now, rest)
    requires forall i :: 0 <= i < |rest| ==> rest[i] in db.messages && rest[i] != s
    requires d.nextSequence <= t < e.nextSequence
    ensures t in e.messages
    ensures e.messages[t] == MovedRow(db.messages[rest[t - d.nextSequence]], t, source, now, DelayOf(db, source), true, true)
  {
  }

  lemma RebornAfterOne(db: Db, d: Db, e: Db, source: string, now: nat, s: nat, rest: seq<nat>)
    requires OneReborn(db, d, source, now, s) && Reborn(d, e, source, now, rest)
    requires forall i :: 0 <= i < |rest| ==> rest[i] in db.messages && rest[i] != s
    requires s !in e.messages && Untouched(d, e, db.nextSequence)
    ensures Reborn(db, e, source, now, [s] + rest)
  {
    var order, n := [s] + rest, db.nextSequence;
    OrderStaysGone(db, d, e, source, now, s, rest);
    forall t | n <= t < e.nextSequence
      ensures t in e.messages && e.messages[t] == MovedRow(db.messages[order[t - n]], t, source, now, DelayOf(db, source), true, true)
    {
      if t > n {
        RebornLater(db, d, e, source, now, s, rest, t);
        assert order[t - n] == rest[t - d.nextSequence];
      }
    }
  }

  lemma MovedBackAfterOne(db: Db, d: Db, e: Db, source: string, now: nat, order: seq<nat>)
    requires order != [] && OneReborn(db, d, source, now, order[0]) && MovedBack(d, e, source, now, order[1..])
    requires forall i :: 0 <= i < |order[1..]| ==> order[1..][i] in db.messages && order[1..][i] != order[0]
    ensures MovedBack(db, e, source, now, order)
  {
    var s, rest := order[0], order[1..];
    assert order == [s] + rest;
    assert db.nextSequence !in rest;
    assert Untouched(d, e, db.nextSequence);
    RestStayedAfterOne(db, d, e, source, now, s, rest);
    RebornAfterOne(db, d, e, source, now, s, rest);
  }

  /**
   * Manual redrive keeps the bag of message contents over both queues (apart from expired rows),
   * takes only rows whose recorded origin is that source, leaves every other row alone, and
   * re-enqueues the first `maximum` such rows in order as new messages.
   */
  lemma RedriveConserves(db: Db, dlq: string, source: string, maximum: nat, nowMs: nat)
    requires Inv(db) && RedriveDeadLetters(db, dlq, source, maximum, nowMs).reply.Moved?
    ensures var now := Ms(nowMs);
            var e := ExpireMessages(ExpireMessages(db, dlq, now), source, now);
            var d := RedriveDeadLetters(db, dlq, source, maximum, nowMs).db;
            var order := First(Ascending(Movable(e, dlq, source, now)), maximum);
            && Messages(d, {dlq, source}, false) == Messages(e, {dlq, source}, false)
            && MovedBack(e, d, source, now, order)
            && (forall i :: 0 <= i < |order| ==> Origin(e, order[i]) == Some(source) && e.messages[order[i]].queue == dlq)
  {
    var now := Ms(nowMs);
    ExpireKeeps(db, dlq, now);
    ExpireKeeps(ExpireMessages(db, dlq, now), source, now);
    var e := ExpireMessages(ExpireMessages(db, dlq, now), source, now);
    var order := RedriveOrder(e, dlq, source, now, maximum);
    RedriveOrderRows(e, dlq, source, now, maximum);
    BelowNext(e);
    MoveBackConserves(e, dlq, source, now, order);
    MoveBackMoves(e, source, now, order);
  }
}
