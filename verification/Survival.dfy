/** No operation loses a message silently: whatever is gone was removed for a reason the caller could name. */
module Survival {
  import opened Identifiers
  import opened Ordering
  import opened Tables
  import opened Operations
  import opened Invariants
  import opened Preservation
  import opened Receiving
  import opened ReceiveTheorems
  import opened Runs
  import opened History
  import opened Conservation

  predicate CarriedBy(db: Db, m: Payload, s: nat) {
    s in db.messages && PayloadOf(db.messages[s], true) == m
  }

  /** The message is somewhere, under its id. */
  ghost predicate Live(db: Db, m: Payload) {
    exists s :: CarriedBy(db, m, s)
  }

  /** The operation takes the row away on purpose; a manual redrive re-enqueues its content under a new id. */
  predicate Removes(db: Db, op: Op, s: nat)
    requires s in db.messages
  {
    var row := db.messages[s];
    match op
    case OpDelete(q, handle) => row.queue == q && row.handle == Some(handle)
    case OpPurge(q, _) => row.queue == q
    case OpDeleteQueue(name, _) => row.queue == name
    case OpRedrive(dlq, source, _, _) => row.queue == dlq && Origin(db, s) == Some(source)
    case _ => false
  }

  /** The retention that counts once the operation is through. */
  function RetentionAfter(db: Db, op: Op, q: string): nat
    requires q in db.queues
  {
    if op.OpSetAttributes? && op.queue == q then op.update.retention.GetOr(db.queues[q].settings.retention)
    else db.queues[q].settings.retention
  }

  /** The row has outlived its queue's retention at the time of the operation. */
  predicate Outlived(db: Db, op: Op, s: nat)
    requires s in db.messages
  {
    var row := db.messages[s];
    !op.OpDelete? && row.queue in db.queues
    && row.createdAt as int <= Ms(op.nowMs) as int - RetentionAfter(db, op, row.queue) as int
  }

  lemma ReplayLosesNothing(db: Db, e: Db, op: Op, s: nat)
    requires op.OpReceive? && Cleared(db, e, op.queue, Ms(op.nowMs)) && s in db.messages
    requires ReplayAttempt(e, op.queue, op.options, op.maximum, Ms(op.nowMs)).Replayed?
    ensures Live(ReplayAttempt(e, op.queue, op.options, op.maximum, Ms(op.nowMs)).db, PayloadOf(db.messages[s], true))
            || Outlived(db, op, s)
  {
    if s in e.messages {
      assert CarriedBy(ReplayAttempt(e, op.queue, op.options, op.maximum, Ms(op.nowMs)).db, PayloadOf(db.messages[s], true), s);
    } else {
      ClearedOutlived(db, e, op, s);
    }
  }

  /** What is cleared before a receive has outlived its retention. */
  lemma ClearedOutlived(db: Db, e: Db, op: Op, s: nat)
    requires op.OpReceive? && Cleared(db, e, op.queue, Ms(op.nowMs)) && s in db.messages && s !in e.messages
    ensures Outlived(db, op, s)
  {
  }

  lemma ReceiveLosesNothing(db: Db, op: Op, s: nat)
    requires Inv(db) && op.OpReceive? && s in db.messages
    ensures Live(Step(db, op), PayloadOf(db.messages[s], true)) || Outlived(db, op, s)
  {
    var stage := ReceiveStage(db, op);
    match stage
    case RolledBack => assert CarriedBy(db, PayloadOf(db.messages[s], true), s);
    case Replaying(e) => ReplayLosesNothing(db, e, op, s);
    case Collecting(e, visibility) =>
      if s in e.messages { CollectedLosesNothing(e, Step(db, op), op, visibility, s); } else { ClearedOutlived(db, e, op, s); }
  }

  lemma CollectedLosesNothing(e: Db, d: Db, op: Op, visibility: nat, s: nat)
    requires Inv(e) && op.OpReceive? && op.queue in e.queues && s in e.messages
    requires d == ReceiveFresh(e, op.queue, op.maximum, op.options, visibility, Ms(op.nowMs), op.cacheEmpty).db
    ensures Live(d, PayloadOf(e.messages[s], true))
  {
    var q, now := op.queue, Ms(op.nowMs);
    FreshRows(e, q, op.maximum, op.options, visibility, now, op.cacheEmpty);
    if d == e {
      assert CarriedBy(d, PayloadOf(e.messages[s], true), s);
    } else {
      var limit := Limit(e, q, op.maximum, now);
      var c := CollectReceived(e, q, limit, visibility, now).db;
      ReceiveLeavesOutcome(e, q, limit, visibility, now);
      var t := WhereItWent(e, c, q, PolicyOf(e, q), visibility, now,
                           Answer(e, q, visibility, now, limit), Casualties(e, q, visibility, now, limit), s);
      assert CarriedBy(d, PayloadOf(e.messages[s], true), t);
    }
  }

  /** A row is delivered in place, untouched, or found under the number of its move. */
  lemma WhereItWent(e: Db, d: Db, q: string, policy: Option<Policy>, visibility: nat, now: nat,
                    delivered: seq<nat>, moved: seq<nat>, s: nat) returns (t: nat)
    requires Outcome(e, d, q, policy, visibility, now, delivered, moved) && s in e.messages
    ensures CarriedBy(d, PayloadOf(e.messages[s], true), t)
  {
    t := s;
    if s in delivered {
      var i :| 0 <= i < |delivered| && delivered[i] == s;
    } else if s in moved {
      var i :| 0 <= i < |moved| && moved[i] == s;
      t := e.nextSequence + i;
      assert moved[t - e.nextSequence] == s;
    } else {
      assert Untouched(e, d, s);
    }
  }

  /** A receive that is not rolled back leaves no expired row in its queue, so it delivers none. */
  lemma ReceiveLeavesNothingExpired(db: Db, op: Op, s: nat)
    requires Inv(db) && op.OpReceive? && Step(db, op) != db
    requires s in Step(db, op).messages && s in db.messages && db.messages[s].queue == op.queue
    ensures !Expired(db, db.messages[s], Ms(op.nowMs))
  {
    var stage := ReceiveStage(db, op);
    match stage
    case RolledBack =>
    case Replaying(_) =>
    case Collecting(e, visibility) =>
      BelowNext(db);
      FreshKeepsAway(e, op.queue, op.maximum, op.options, visibility, Ms(op.nowMs), op.cacheEmpty, s);
  }

  /** A row that was not there when the collecting began is there afterwards only as a new one. */
  lemma FreshKeepsAway(e: Db, q: string, maximum: nat, o: ReceiveOptions, visibility: nat, now: nat, cacheEmpty: bool, s: nat)
    requires Inv(e) && q in e.queues && s in ReceiveFresh(e, q, maximum, o, visibility, now, cacheEmpty).db.messages
    ensures s in e.messages || e.nextSequence <= s
  {
    FreshRows(e, q, maximum, o, visibility, now, cacheEmpty);
    ReceiveLeavesOutcome(e, q, Limit(e, q, maximum, now), visibility, now);
  }

  lemma SendLosesNothing(db: Db, op: Op, s: nat)
    requires Inv(db) && op.OpSend? && s in db.messages
    ensures Live(Step(db, op), PayloadOf(db.messages[s], true)) || Outlived(db, op, s)
  {
    var q, d := op.queue, Step(db, op);
    var m := PayloadOf(db.messages[s], true);
    BelowNext(db);
    if q in db.queues && PrepareSend(op.request, db.queues[q]).Prepared? {
      SendShape(db, q, op.request, op.nowMs);
      var ready := ReadyToSend(db, q, PrepareSend(op.request, db.queues[q]), op.nowMs);
      if s in ready.messages { assert CarriedBy(d, m, s); }
    } else {
      assert CarriedBy(d, m, s);
    }
  }

  lemma SettingsLoseNothing(db: Db, op: Op, s: nat)
    requires Inv(db) && op.OpSetAttributes? && s in db.messages
    ensures Live(Step(db, op), PayloadOf(db.messages[s], true)) || Outlived(db, op, s)
  {
    var m := PayloadOf(db.messages[s], true);
    if Perform(db, op).reply == Done {
      var updated, delayed, settings := SettingsSteps(db, op);
      DelayKeepsPayloads(updated, delayed, op.queue, settings.delay);
      ExpiredOrLive(db, delayed, op, settings, Step(db, op), s);
    } else {
      assert CarriedBy(Step(db, op), m, s);
    }
  }

  lemma ExpiredOrLive(db: Db, delayed: Db, op: Op, settings: Settings, d: Db, s: nat)
    requires op.OpSetAttributes? && op.queue in db.queues && s in db.messages && s in delayed.messages
    requires d == ExpireMessages(delayed, op.queue, Ms(op.nowMs))
    requires delayed.queues == db.queues[op.queue := db.queues[op.queue].(settings := settings)]
    requires settings == Resolve(db.queues[op.queue].settings, op.update)
    requires delayed.messages[s] == db.messages[s].(availableAt := delayed.messages[s].availableAt)
    ensures Live(d, PayloadOf(db.messages[s], true)) || Outlived(db, op, s)
  {
    KeptUnlessExpired(delayed, op.queue, Ms(op.nowMs), s);
    if s in d.messages { assert CarriedBy(d, PayloadOf(db.messages[s], true), s); }
  }

  lemma KeptUnlessExpired(db: Db, q: string, now: nat, s: nat)
    requires s in db.messages
    ensures s in ExpireMessages(db, q, now).messages ==> ExpireMessages(db, q, now).messages[s] == db.messages[s]
    ensures s !in ExpireMessages(db, q, now).messages ==> db.messages[s].queue == q && Expired(db, db.messages[s], now)
  {
  }

  /** The rows a redrive starts from and the order it takes them in. */
  lemma RedriveStage(db: Db, op: Op) returns (e: Db, order: seq<nat>)
    requires Inv(db) && op.OpRedrive? && Perform(db, op).reply.Moved?
    ensures MovedBack(e, Step(db, op), op.source, Ms(op.nowMs), order) && e.nextSequence == db.nextSequence
    ensures forall s :: s in db.messages ==> s in e.messages || Outlived(db, op, s)
    ensures forall s :: s in e.messages ==> s in db.messages && e.messages[s] == db.messages[s]
    ensures forall i :: 0 <= i < |order| ==>
              order[i] in db.messages && db.messages[order[i]].queue == op.dlq && Origin(db, order[i]) == Some(op.source)
  {
    var now := Ms(op.nowMs);
    RedriveConserves(db, op.dlq, op.source, op.maximum, op.nowMs);
    e := ExpireMessages(ExpireMessages(db, op.dlq, now), op.source, now);
    order := First(Ascending(Movable(e, op.dlq, op.source, now)), op.maximum);
    forall s | s in db.messages && s !in e.messages ensures Outlived(db, op, s) {
      KeptUnlessExpired(db, op.dlq, now, s);
      if s in ExpireMessages(db, op.dlq, now).messages { KeptUnlessExpired(ExpireMessages(db, op.dlq, now), op.source, now, s); }
    }
  }

  lemma RedriveLosesNothing(db: Db, op: Op, s: nat)
    requires Inv(db) && op.OpRedrive? && s in db.messages
    ensures Live(Step(db, op), PayloadOf(db.messages[s], true)) || Removes(db, op, s) || Outlived(db, op, s)
  {
    var m := PayloadOf(db.messages[s], true);
    if Perform(db, op).reply.Moved? {
      var e, order := RedriveStage(db, op);
      StayedUnlessMoved(db, e, Step(db, op), op.source, Ms(op.nowMs), order, s);
    } else {
      assert CarriedBy(Step(db, op), m, s);
    }
  }

  lemma StayedUnlessMoved(db: Db, e: Db, d: Db, source: string, now: nat, order: seq<nat>, s: nat)
    requires MovedBack(e, d, source, now, order) && s in db.messages
    requires s in e.messages ==> e.messages[s] == db.messages[s]
    ensures s in e.messages ==> s in order || Live(d, PayloadOf(db.messages[s], true))
  {
    if s in e.messages && s !in order {
      assert Untouched(e, d, s);
      assert CarriedBy(d, PayloadOf(db.messages[s], true), s);
    }
  }

  lemma RemovalLosesNothingElse(db: Db, op: Op, s: nat)
    requires op.OpDelete? || op.OpPurge? || op.OpDeleteQueue?
    requires s in db.messages && !Removes(db, op, s)
    ensures Live(Step(db, op), PayloadOf(db.messages[s], true))
  {
    assert CarriedBy(Step(db, op), PayloadOf(db.messages[s], true), s);
  }

  lemma OthersLoseNothing(db: Db, op: Op, s: nat)
    requires op.OpCreateQueue? || op.OpChangeVisibility?
    requires s in db.messages
    ensures Live(Step(db, op), PayloadOf(db.messages[s], true))
  {
    assert CarriedBy(Step(db, op), PayloadOf(db.messages[s], true), s);
  }

  /** One operation: every live message stays live under its id, or was removed, or was too old. */
  lemma NothingIsLost(db: Db, op: Op, s: nat)
    requires Inv(db) && s in db.messages
    ensures Live(Step(db, op), PayloadOf(db.messages[s], true)) || Removes(db, op, s) || Outlived(db, op, s)
  {
    match op
    case OpReceive(_, _, _, _, _) => ReceiveLosesNothing(db, op, s);
    case OpSend(_, _, _) => SendLosesNothing(db, op, s);
    case OpSetAttributes(_, _, _) => SettingsLoseNothing(db, op, s);
    case OpRedrive(_, _, _, _) => RedriveLosesNothing(db, op, s);
    case OpCreateQueue(_, _, _, _, _) => OthersLoseNothing(db, op, s);
    case OpChangeVisibility(_, _, _, _) => OthersLoseNothing(db, op, s);
    case _ => if !Removes(db, op, s) { RemovalLosesNothingElse(db, op, s); }
  }

  /** The operation, in this state, is a reason for the message to be gone. */
  ghost predicate Explains(db: Db, op: Op, m: Payload) {
    exists s :: CarriedBy(db, m, s) && (Removes(db, op, s) || Outlived(db, op, s))
  }

  /** Over any run: a message that is no longer live was taken by one operation of the run, for one of those reasons. */
  lemma {:induction false} EveryLossIsExplained(db: Db, ops: seq<Op>, m: Payload) returns (k: nat)
    requires Inv(db) && Live(db, m) && !Live(Run(db, ops), m)
    ensures k < |ops| && Live(Run(db, ops[..k]), m) && Explains(Run(db, ops[..k]), ops[k], m)
    decreases |ops|
  {
    var s :| CarriedBy(db, m, s);
    NothingIsLost(db, ops[0], s);
    if Live(Step(db, ops[0]), m) {
      StepKeeps(db, ops[0]);
      var j := EveryLossIsExplained(Step(db, ops[0]), ops[1..], m);
      k := j + 1;
      assert ops[..k][0] == ops[0] && ops[..k][1..] == ops[1..][..j];
    } else {
      k := 0;
      assert ops[..0] == [];
    }
  }
}
