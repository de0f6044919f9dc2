/** The in-flight quota over runs. */
module Quota {
  import opened Identifiers
  import opened Ordering
  import opened Tables
  import opened Operations
  import opened Invariants
  import opened Receiving
  import opened ReceiveTheorems
  import opened Runs
  import opened History

  function Max(a: nat, b: nat): nat {
    if a < b then b else a
  }

  function QuotaOf(db: Db, q: string): nat {
    if q in db.queues then db.queues[q].settings.maxInFlight else 0
  }

  /** Right after expiry the quota counts every hidden row. */
  lemma NothingHiddenUncounted(db: Db, q: string, now: nat)
    requires forall s :: s in db.messages && db.messages[s].queue == q ==> !Expired(db, db.messages[s], now)
    ensures CountInFlight(db, q, now) == |Hidden(db, q, now)|
  {
    assert Hidden(db, q, now) == set s | s in Hidden(db, q, now) && !Expired(db, db.messages[s], now);
  }

  function Elements(order: seq<nat>): set<nat> {
    set s | s in order
  }

  lemma {:induction false} ElementsBound(order: seq<nat>)
    ensures |Elements(order)| <= |order|
  {
    if order == [] {
      assert Elements(order) == {};
    } else {
      ElementsBound(order[1..]);
      assert Elements(order) == {order[0]} + Elements(order[1..]);
    }
  }

  /** A fresh receive hides at most as many rows as it delivers. */
  lemma FreshHidesDelivered(db: Db, q: string, limit: nat, visibility: nat, now: nat, p: string)
    requires Inv(db) && q in db.queues
    ensures var d := CollectReceived(db, q, limit, visibility, now).db;
            Hidden(d, p, now) <= Hidden(db, p, now) + (if p == q then Elements(Answer(db, q, visibility, now, limit)) else {})
  {
    var d := CollectReceived(db, q, limit, visibility, now).db;
    var answer, casualties := Answer(db, q, visibility, now, limit), Casualties(db, q, visibility, now, limit);
    ReceiveLeavesOutcome(db, q, limit, visibility, now);
    forall s | s in Hidden(d, p, now)
      ensures s in Hidden(db, p, now) || (p == q && s in answer)
    {
      if s in answer {
        var i :| 0 <= i < |answer| && answer[i] == s;
        AnswerFromQueue(db, q, limit, visibility, now, s);
      } else {
        HiddenOutside(db, d, q, PolicyOf(db, q), visibility, now, answer, casualties, s);
      }
    }
  }

  lemma HiddenOutside(db: Db, d: Db, q: string, policy: Option<Policy>, visibility: nat, now: nat,
                      delivered: seq<nat>, moved: seq<nat>, s: nat)
    requires Outcome(db, d, q, policy, visibility, now, delivered, moved)
    requires s in d.messages && s !in delivered && HiddenAt(d.messages[s], now)
    ensures s in db.messages && d.messages[s] == db.messages[s]
  {
  }

  lemma UnionBound(a: set<nat>, b: set<nat>, c: set<nat>)
    requires a <= b + c
    ensures |a| <= |b| + |c|
  {
    CardinalitySubset(a, b + c);
    assert |b + c| <= |b| + |c| by { assert b + c == b + (c - b); CardinalitySubset(c - b, c); }
  }

  /** The room left by the quota bounds what a fresh receive adds. */
  lemma FreshWithinQuota(db: Db, q: string, maximum: nat, o: ReceiveOptions, visibility: nat, now: nat, cacheEmpty: bool, p: string)
    requires Inv(db) && q in db.queues
    requires forall s :: s in db.messages && db.messages[s].queue == q ==> !Expired(db, db.messages[s], now)
    ensures var d := ReceiveFresh(db, q, maximum, o, visibility, now, cacheEmpty).db;
            |Hidden(d, p, now)| <= Max(|Hidden(db, p, now)|, QuotaOf(db, p))
  {
    var d := ReceiveFresh(db, q, maximum, o, visibility, now, cacheEmpty).db;
    FreshRows(db, q, maximum, o, visibility, now, cacheEmpty);
    var limit := Limit(db, q, maximum, now);
    var c := CollectReceived(db, q, limit, visibility, now);
    if d != db {
      assert Hidden(d, p, now) == Hidden(c.db, p, now);
      FreshHidesDelivered(db, q, limit, visibility, now, p);
      var answer := Answer(db, q, visibility, now, limit);
      ElementsBound(answer);
      NothingHiddenUncounted(db, q, now);
      UnionBound(Hidden(c.db, p, now), Hidden(db, p, now), if p == q then Elements(answer) else {});
    }
  }

  /** A replay is refused when hiding its members again would exceed the quota. */
  lemma ReplayWithinQuota(db: Db, q: string, o: ReceiveOptions, maximum: nat, now: nat, p: string)
    requires Inv(db) && q in db.queues
    requires forall s :: s in db.messages && db.messages[s].queue == q ==> !Expired(db, db.messages[s], now)
    requires ReplayAttempt(db, q, o, maximum, now).Replayed?
    ensures var d := ReplayAttempt(db, q, o, maximum, now).db;
            |Hidden(d, p, now)| <= Max(|Hidden(db, p, now)|, QuotaOf(db, p))
  {
    var pruned := PruneAttempts(db, q, now);
    var a := pruned.attempts[(q, o.attemptId.value)];
    var d := ReplayAttempt(db, q, o, maximum, now).db;
    assert AttemptOk(db, (q, o.attemptId.value));
    var extra := Extra(pruned, q, a.members, now);
    forall s | s in Hidden(d, p, now)
      ensures s in Hidden(db, p, now) || (p == q && a.visibility > 0 && s in extra)
    {
      assert RowOk(db, s);
    }
    NothingHiddenUncounted(db, q, now);
    assert Hidden(pruned, q, now) == Hidden(db, q, now);
    NothingHiddenUncounted(pruned, q, now);
    UnionBound(Hidden(d, p, now), Hidden(db, p, now), if p == q && a.visibility > 0 then extra else {});
  }

  function Clock(op: Op, before: nat): nat {
    if op.OpDelete? then before else Ms(op.nowMs)
  }

  lemma ReceiveWithinQuota(db: Db, op: Op, p: string)
    requires Inv(db) && op.OpReceive?
    ensures |Hidden(Step(db, op), p, Ms(op.nowMs))| <= Max(|Hidden(db, p, Ms(op.nowMs))|, QuotaOf(db, p))
  {
    var q, now := op.queue, Ms(op.nowMs);
    var stage := ReceiveStage(db, op);
    match stage
    case RolledBack =>
    case Replaying(e) =>
      CardinalitySubset(Hidden(e, p, now), Hidden(db, p, now));
      ReplayWithinQuota(e, q, op.options, op.maximum, now, p);
    case Collecting(e, visibility) =>
      CardinalitySubset(Hidden(e, p, now), Hidden(db, p, now));
      FreshWithinQuota(e, q, op.maximum, op.options, visibility, now, op.cacheEmpty, p);
  }

  /** No operation raises the in-flight count above the larger of what it was and the quota. */
  lemma StepWithinQuota(db: Db, op: Op, p: string, before: nat)
    requires Inv(db)
    ensures var now := Clock(op, before);
            |Hidden(Step(db, op), p, now)| <= Max(|Hidden(db, p, now)|, QuotaOf(db, p))
  {
    var now := Clock(op, before);
    var d := Step(db, op);
    if op.OpReceive? {
      ReceiveWithinQuota(db, op, p);
    } else {
      StepEvolves(db, op);
      forall s | s in Hidden(d, p, now) ensures s in Hidden(db, p, now) { assert Evolves(db, d, op, s); }
      CardinalitySubset(Hidden(d, p, now), Hidden(db, p, now));
    }
  }

  /** Times never go back, starting from t. */
  ghost predicate Timely(ops: seq<Op>, t: nat)
    decreases |ops|
  {
    ops == [] || (t <= Clock(ops[0], t) && Timely(ops[1..], Clock(ops[0], t)))
  }

  function LastClock(ops: seq<Op>, t: nat): nat
    decreases |ops|
  {
    if ops == [] then t else LastClock(ops[1..], Clock(ops[0], t))
  }

  /** The quota of p never exceeds the bound during the run. */
  ghost predicate QuotaThroughout(db: Db, ops: seq<Op>, p: string, bound: nat)
    decreases |ops|
  {
    ops == [] || (QuotaOf(db, p) <= bound && QuotaThroughout(Step(db, ops[0]), ops[1..], p, bound))
  }

  /** With time moving forward, at most the quota of rows is hidden at any time, whatever the operations. */
  lemma {:induction false} QuotaHoldsOverRuns(db: Db, ops: seq<Op>, p: string, bound: nat, t: nat)
    requires Inv(db) && |Hidden(db, p, t)| <= bound && Timely(ops, t) && QuotaThroughout(db, ops, p, bound)
    ensures |Hidden(Run(db, ops), p, LastClock(ops, t))| <= bound
    decreases |ops|
  {
    if ops != [] {
      var now := Clock(ops[0], t);
      CardinalitySubset(Hidden(db, p, now), Hidden(db, p, t));
      StepWithinQuota(db, ops[0], p, t);
      StepKeeps(db, ops[0]);
      QuotaHoldsOverRuns(Step(db, ops[0]), ops[1..], p, bound, now);
    }
  }
}
