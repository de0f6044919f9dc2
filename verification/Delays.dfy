/** How long a FIFO message waits before its first delivery: never longer than its queue's present delay. */
module Delays {
  import opened Tables
  import opened Operations
  import opened Invariants
  import opened Preservation
  import opened Receiving
  import opened ReceiveTheorems
  import opened Runs
  import opened History
  import opened Conservation
  import opened Cooldowns
  import opened Survival

  predicate Timed(row: Row, delay: nat) {
    row.createdAt <= I64_MAX && row.createdAt <= row.availableAt <= SaturatingAdd(row.createdAt, Ms(delay))
  }

  /** A FIFO row that was never received is timed by its queue's delay. */
  ghost predicate DelayOk(db: Db, s: nat)
    requires s in db.messages
  {
    var row := db.messages[s];
    Kind(db, row.queue) == Fifo && row.count == 0 ==> Timed(row, DelayOf(db, row.queue))
  }

  ghost predicate DelaysOk(db: Db) {
    forall s {:trigger DelayOk(db, s)} :: s in db.messages ==> DelayOk(db, s)
  }

  /** Same times, same count, same queue settings. */
  predicate SameTiming(db: Db, d: Db, s: nat) {
    && s in db.messages && s in d.messages
    && d.messages[s] == db.messages[s].(invisibleUntil := d.messages[s].invisibleUntil, revision := d.messages[s].revision)
    && Kind(d, d.messages[s].queue) == Kind(db, d.messages[s].queue)
    && DelayOf(d, d.messages[s].queue) == DelayOf(db, d.messages[s].queue)
  }

  lemma SameTimingKeeps(db: Db, d: Db)
    requires DelaysOk(db) && forall s :: s in d.messages ==> SameTiming(db, d, s)
    ensures DelaysOk(d)
  {
    forall s | s in d.messages ensures DelayOk(d, s) { assert SameTiming(db, d, s) && DelayOk(db, s); }
  }

  // ----- receive

  lemma CollectedDelays(e: Db, d: Db, q: string, visibility: nat, now: nat, limit: nat, s: nat)
    requires Inv(e) && q in e.queues && DelaysOk(e) && now <= I64_MAX && s in d.messages
    requires d.queues == e.queues
    requires Outcome(e, d, q, PolicyOf(e, q), visibility, now, Answer(e, q, visibility, now, limit), Casualties(e, q, visibility, now, limit))
    ensures DelayOk(d, s)
  {
    var answer, casualties := Answer(e, q, visibility, now, limit), Casualties(e, q, visibility, now, limit);
    if s in e.messages {
      assert DelayOk(e, s);
      if s in answer {
        var i :| 0 <= i < |answer| && answer[i] == s;
      } else {
        assert s !in casualties;
        assert Untouched(e, d, s);
      }
    } else {
      assert e.nextSequence <= s < d.nextSequence;
      DeadLetterTiming(e, q, s, casualties[s - e.nextSequence], now);
    }
  }

  /** On a FIFO queue a dead letter starts its new life now, available at once. */
  lemma DeadLetterTiming(e: Db, q: string, n: nat, s: nat, now: nat)
    requires Inv(e) && q in e.policies && s in e.messages && now <= I64_MAX
    ensures var target := e.policies[q].deadLetterQueue;
            Kind(e, target) == Fifo ==>
              Timed(MovedRow(e.messages[s], n, target, now, 0, Kind(e, q) == Fifo, false), DelayOf(e, target))
  {
  }

  lemma FreshDelays(e: Db, q: string, maximum: nat, o: ReceiveOptions, visibility: nat, now: nat, cacheEmpty: bool)
    requires Inv(e) && q in e.queues && DelaysOk(e) && now <= I64_MAX
    ensures DelaysOk(ReceiveFresh(e, q, maximum, o, visibility, now, cacheEmpty).db)
  {
    var limit := Limit(e, q, maximum, now);
    var d := ReceiveFresh(e, q, maximum, o, visibility, now, cacheEmpty).db;
    var c := CollectReceived(e, q, limit, visibility, now).db;
    FreshRows(e, q, maximum, o, visibility, now, cacheEmpty);
    if d != e {
      CollectReceivedKeeps(e, q, limit, visibility, now);
      FreshKeepsQueues(e, q, maximum, o, visibility, now, cacheEmpty);
      ReceiveLeavesOutcome(e, q, limit, visibility, now);
      forall s | s in d.messages ensures DelayOk(d, s) {
        CollectedDelays(e, c, q, visibility, now, limit, s);
        assert DelayOk(c, s);
      }
    }
  }

  lemma ReplayDelays(e: Db, q: string, o: ReceiveOptions, maximum: nat, now: nat)
    requires q in e.queues && DelaysOk(e) && ReplayAttempt(e, q, o, maximum, now).Replayed?
    ensures DelaysOk(ReplayAttempt(e, q, o, maximum, now).db)
  {
    SameTimingKeeps(e, ReplayAttempt(e, q, o, maximum, now).db);
  }

  lemma ReceiveDelays(db: Db, op: Op)
    requires Inv(db) && DelaysOk(db) && op.OpReceive?
    ensures DelaysOk(Step(db, op))
  {
    var stage := ReceiveStage(db, op);
    match stage
    case RolledBack =>
    case Replaying(e) =>
      SameTimingKeeps(db, e);
      ReplayDelays(e, op.queue, op.options, op.maximum, Ms(op.nowMs));
    case Collecting(e, visibility) =>
      SameTimingKeeps(db, e);
      FreshDelays(e, op.queue, op.maximum, op.options, visibility, Ms(op.nowMs), op.cacheEmpty);
  }

  // ----- the other operations

  lemma RedriveDelays(db: Db, op: Op)
    requires Inv(db) && DelaysOk(db) && op.OpRedrive?
    ensures DelaysOk(Step(db, op))
  {
    if Perform(db, op).reply.Moved? {
      var d := Step(db, op);
      var e, order := RedriveStage(db, op);
      RedriveKeepsQueues(db, op);
      forall s | s in d.messages ensures DelayOk(d, s) {
        RedrivenDelay(db, e, d, op.source, Ms(op.nowMs), order, s);
      }
    }
  }

  lemma RedrivenDelay(db: Db, e: Db, d: Db, source: string, now: nat, order: seq<nat>, s: nat)
    requires DelaysOk(db) && MovedBack(e, d, source, now, order) && d.queues == db.queues && now <= I64_MAX && s in d.messages
    requires forall t :: t in e.messages ==> t in db.messages && e.messages[t] == db.messages[t]
    ensures DelayOk(d, s)
  {
    if s in e.messages {
      assert s !in order;
      assert Untouched(e, d, s) && DelayOk(db, s);
    } else {
      assert e.nextSequence <= s < d.nextSequence;
    }
  }

  lemma ReadyDelays(db: Db, q: string, p: Prepared, nowMs: nat)
    requires DelaysOk(db) && p.Prepared?
    ensures DelaysOk(ReadyToSend(db, q, p, nowMs)) && ReadyToSend(db, q, p, nowMs).queues == db.queues
  {
    SameTimingKeeps(db, ReadyToSend(db, q, p, nowMs));
  }

  lemma SendDelays(db: Db, op: Op)
    requires Inv(db) && DelaysOk(db) && op.OpSend?
    ensures DelaysOk(Step(db, op))
  {
    var q, d := op.queue, Step(db, op);
    if q in db.queues && PrepareSend(op.request, db.queues[q]).Prepared? {
      var p := PrepareSend(op.request, db.queues[q]);
      var ready := ReadyToSend(db, q, p, op.nowMs);
      SendShape(db, q, op.request, op.nowMs);
      ReadyDelays(db, q, p, op.nowMs);
      if d != ready { InsertedDelays(ready, q, p, Ms(op.nowMs)); }
    }
  }

  lemma InsertedDelays(ready: Db, q: string, p: Prepared, now: nat)
    requires DelaysOk(ready) && p.Prepared? && q in ready.queues && now <= I64_MAX
    requires ready.queues[q].kind == Fifo ==> p.delay == ready.queues[q].settings.delay
    ensures DelaysOk(InsertMessage(ready, q, p, now))
  {
    var d := InsertMessage(ready, q, p, now);
    forall s | s in d.messages ensures DelayOk(d, s) {
      if s != ready.nextSequence { assert DelayOk(ready, s); }
    }
  }

  /** The statement's MIN(created, i64::MAX - delay) + delay is the sum that saturates, as at the send. */
  lemma RetimedAsSent(row: Row, delay: nat)
    requires row.createdAt <= I64_MAX
    ensures (if row.createdAt <= I64_MAX - Ms(delay) then row.createdAt else I64_MAX - Ms(delay)) + Ms(delay)
            == SaturatingAdd(row.createdAt, Ms(delay))
  {
  }

  lemma SettingsDelays(db: Db, op: Op)
    requires Inv(db) && DelaysOk(db) && op.OpSetAttributes?
    ensures DelaysOk(Step(db, op))
  {
    if Perform(db, op).reply == Done {
      var updated, delayed, settings := SettingsSteps(db, op);
      forall s | s in delayed.messages ensures DelayOk(delayed, s) {
        RetimedDelay(db, updated, delayed, op.queue, settings, s);
      }
      SameTimingKeeps(delayed, Step(db, op));
    }
  }

  lemma RetimedDelay(db: Db, updated: Db, delayed: Db, q: string, settings: Settings, s: nat)
    requires q in db.queues && DelaysOk(db) && s in delayed.messages
    requires updated.queues == db.queues[q := db.queues[q].(settings := settings)] && updated.messages == db.messages
    requires delayed == if db.queues[q].kind == Fifo && settings.delay != db.queues[q].settings.delay
                        then DelayUnreceived(updated, q, settings.delay) else updated
    ensures DelayOk(delayed, s)
  {
    assert DelayOk(db, s);
    if db.messages[s].createdAt <= I64_MAX { RetimedAsSent(db.messages[s], settings.delay); }
  }

  predicate SameQueue(db: Db, d: Db, s: nat) {
    && s in db.messages && s in d.messages && d.messages[s] == db.messages[s]
    && db.messages[s].queue in d.queues && db.messages[s].queue in db.queues
    && d.queues[db.messages[s].queue] == db.queues[db.messages[s].queue]
  }

  lemma SameQueueKeeps(db: Db, d: Db)
    requires DelaysOk(db) && forall s :: s in d.messages ==> SameQueue(db, d, s)
    ensures DelaysOk(d)
  {
    forall s | s in d.messages ensures SameTiming(db, d, s) { assert SameQueue(db, d, s); }
    SameTimingKeeps(db, d);
  }

  lemma CreateKeepsRows(db: Db, op: Op)
    requires op.OpCreateQueue?
    ensures Step(db, op).messages == db.messages
    ensures forall q :: q in db.queues ==> q in Step(db, op).queues && Step(db, op).queues[q] == db.queues[q]
  {
  }

  lemma CreateDelays(db: Db, op: Op)
    requires Inv(db) && DelaysOk(db) && op.OpCreateQueue?
    ensures DelaysOk(Step(db, op))
  {
    var d := Step(db, op);
    CreateKeepsRows(db, op);
    forall s | s in d.messages ensures SameQueue(db, d, s) { assert RowOk(db, s); }
    SameQueueKeeps(db, d);
  }

  lemma DeleteDelays(db: Db, op: Op)
    requires Inv(db) && DelaysOk(db) && op.OpDeleteQueue?
    ensures DelaysOk(Step(db, op))
  {
    var d := Step(db, op);
    forall s | s in d.messages ensures SameQueue(db, d, s) { assert RowOk(db, s); }
    SameQueueKeeps(db, d);
  }

  lemma RemovalDelays(db: Db, op: Op)
    requires DelaysOk(db) && (op.OpPurge? || op.OpDelete?)
    ensures DelaysOk(Step(db, op))
  {
    SameTimingKeeps(db, Step(db, op));
  }

  lemma VisibilityDelays(db: Db, op: Op)
    requires DelaysOk(db) && op.OpChangeVisibility?
    ensures DelaysOk(Step(db, op))
  {
    SameTimingKeeps(db, Step(db, op));
  }

  lemma StepDelays(db: Db, op: Op)
    requires Inv(db) && DelaysOk(db)
    ensures DelaysOk(Step(db, op))
  {
    match op
    case OpReceive(_, _, _, _, _) => ReceiveDelays(db, op);
    case OpSend(_, _, _) => SendDelays(db, op);
    case OpSetAttributes(_, _, _) => SettingsDelays(db, op);
    case OpRedrive(_, _, _, _) => RedriveDelays(db, op);
    case OpCreateQueue(_, _, _, _, _) => CreateDelays(db, op);
    case OpDeleteQueue(_, _) => DeleteDelays(db, op);
    case OpChangeVisibility(_, _, _, _) => VisibilityDelays(db, op);
    case _ => RemovalDelays(db, op);
  }

  lemma {:induction false} RunDelays(db: Db, ops: seq<Op>)
    requires Inv(db) && DelaysOk(db)
    ensures DelaysOk(Run(db, ops))
    decreases |ops|
  {
    if ops != [] {
      StepKeeps(db, ops[0]);
      StepDelays(db, ops[0]);
      RunDelays(Step(db, ops[0]), ops[1..]);
    }
  }

  /**
    * In every reachable state a FIFO message that was never received becomes available no later than the
    * queue's present delay after it was enqueued, through sends, moves, redrives and changes of the delay.
    */
  lemma FifoWaitIsBounded(ops: seq<Op>, s: nat)
    requires var db := Run(EMPTY, ops);
             s in db.messages && Kind(db, db.messages[s].queue) == Fifo && db.messages[s].count == 0
    ensures var db := Run(EMPTY, ops);
            var row := db.messages[s];
            row.createdAt <= row.availableAt <= SaturatingAdd(row.createdAt, Ms(DelayOf(db, row.queue)))
  {
    assert Inv(EMPTY);
    RunDelays(EMPTY, ops);
    assert DelayOk(Run(EMPTY, ops), s);
  }
}
