/** The two sixty-second waits: a deleted name stays reserved, and purges of a queue are spaced. */
module Cooldowns {
  import opened Identifiers
  import opened Tables
  import opened Terms
  import opened PlanFacts
  import opened Operations
  import opened Invariants
  import opened Preservation
  import opened Runs
  import opened History
  import opened QueueCalls

  // ----- operations on messages touch neither queues nor reservations

  lemma {:induction false} CollectKeepsDeleted(db: Db, q: string, policy: Option<Policy>, visibility: nat, now: nat, plan: seq<nat>, limit: nat)
    requires Distinct(plan) && forall i :: 0 <= i < |plan| ==> plan[i] in db.messages
    ensures Collect(db, q, policy, visibility, now, plan, limit).db.deleted == db.deleted
    decreases |plan|
  {
    if limit != 0 && plan != [] {
      if ReceivePlan.Over(db.messages[plan[0]], policy) {
        CollectKeepsDeleted(DeadLetter(db, plan[0], q, policy.value, now), q, policy, visibility, now, plan[1..], limit);
      } else {
        CollectKeepsDeleted(Deliver(db, plan[0], visibility, now), q, policy, visibility, now, plan[1..], limit - 1);
      }
    }
  }

  lemma {:induction false} MoveBackKeepsQueues(db: Db, source: string, now: nat, order: seq<nat>)
    ensures MoveBack(db, source, now, order).queues == db.queues
    ensures MoveBack(db, source, now, order).deleted == db.deleted
    decreases |order|
  {
    if order != [] && order[0] in db.messages {
      MoveBackKeepsQueues(MoveMessage(db, order[0], source, now, true, true), source, now, order[1..]);
    }
  }

  lemma FreshKeepsQueues(e: Db, q: string, maximum: nat, o: ReceiveOptions, visibility: nat, now: nat, cacheEmpty: bool)
    requires Inv(e) && q in e.queues
    ensures var d := ReceiveFresh(e, q, maximum, o, visibility, now, cacheEmpty).db; d.queues == e.queues && d.deleted == e.deleted
  {
    var limit := Limit(e, q, maximum, now);
    CollectReceivedKeeps(e, q, limit, visibility, now);
    CollectKeepsDeleted(e, q, PolicyOf(e, q), visibility, now, ReceiveOrder(e, q, now), Cap(Kind(e, q), visibility, now, limit));
  }

  lemma ReceiveKeepsQueues(db: Db, op: Op)
    requires Inv(db) && op.OpReceive?
    ensures Step(db, op).queues == db.queues && Step(db, op).deleted == db.deleted
  {
    var stage := ReceiveStage(db, op);
    match stage
    case RolledBack =>
    case Replaying(_) =>
    case Collecting(e, visibility) =>
      FreshKeepsQueues(e, op.queue, op.maximum, op.options, visibility, Ms(op.nowMs), op.cacheEmpty);
  }

  predicate OnMessages(op: Op) {
    op.OpSend? || op.OpReceive? || op.OpDelete? || op.OpChangeVisibility? || op.OpRedrive?
  }

  lemma RedriveKeepsQueues(db: Db, op: Op)
    requires op.OpRedrive?
    ensures Step(db, op).queues == db.queues && Step(db, op).deleted == db.deleted
  {
    PerformRedrive(db, op);
    RedriveSparesQueues(db, op.dlq, op.source, op.maximum, op.nowMs);
  }

  lemma RedriveSparesQueues(db: Db, dlq: string, source: string, maximum: nat, nowMs: nat)
    ensures var d := RedriveDeadLetters(db, dlq, source, maximum, nowMs).db; d.queues == db.queues && d.deleted == db.deleted
  {
    var now := Ms(nowMs);
    var e := ExpireMessages(ExpireMessages(db, dlq, now), source, now);
    MoveBackKeepsQueues(e, source, now, RedriveOrder(e, dlq, source, now, maximum));
  }

  lemma SendKeepsQueues(db: Db, op: Op)
    requires op.OpSend?
    ensures Step(db, op).queues == db.queues && Step(db, op).deleted == db.deleted
  {
    if op.queue in db.queues && PrepareSend(op.request, db.queues[op.queue]).Prepared? {
      SendShape(db, op.queue, op.request, op.nowMs);
    }
  }

  lemma MessagesKeepQueues(db: Db, op: Op)
    requires Inv(db) && OnMessages(op)
    ensures Step(db, op).queues == db.queues && Step(db, op).deleted == db.deleted
  {
    match op
    case OpReceive(_, _, _, _, _) => ReceiveKeepsQueues(db, op);
    case OpRedrive(_, _, _, _) => RedriveKeepsQueues(db, op);
    case OpSend(_, _, _) => SendKeepsQueues(db, op);
    case _ =>
  }

  lemma CreationKeepsKinds(db: Db, op: Op, q: string)
    requires op.OpCreateQueue? && q in db.queues
    ensures q in Step(db, op).queues && Step(db, op).queues[q].kind == db.queues[q].kind
  {
  }

  lemma SettingsKeepKinds(db: Db, op: Op, q: string)
    requires (op.OpSetAttributes? || op.OpPurge?) && q in db.queues
    ensures q in Step(db, op).queues && Step(db, op).queues[q].kind == db.queues[q].kind
  {
  }

  lemma DeletionKeepsKinds(db: Db, op: Op, q: string)
    requires op.OpDeleteQueue? && q in db.queues
    ensures if op.name == q then q !in Step(db, op).queues
            else q in Step(db, op).queues && Step(db, op).queues[q].kind == db.queues[q].kind
  {
  }

  /** Only its own deletion removes a queue, and nothing changes its type. */
  lemma KindStays(db: Db, op: Op, q: string)
    requires Inv(db) && q in db.queues
    ensures q in Step(db, op).queues <==> !(op.OpDeleteQueue? && op.name == q)
    ensures q in Step(db, op).queues ==> Step(db, op).queues[q].kind == db.queues[q].kind
  {
    match op
    case OpCreateQueue(_, _, _, _, _) => CreationKeepsKinds(db, op, q);
    case OpSetAttributes(_, _, _) => SettingsKeepKinds(db, op, q);
    case OpPurge(_, _) => SettingsKeepKinds(db, op, q);
    case OpDeleteQueue(_, _) => DeletionKeepsKinds(db, op, q);
    case _ => MessagesKeepQueues(db, op);
  }

  // ----- deleted names

  /** The name was deleted at time t and has not been created since. */
  predicate ReservedSince(db: Db, name: string, t: nat) {
    name !in db.queues && name in db.deleted && db.deleted[name] == t
  }

  /** Until the wait is over; times of other operations do not matter. */
  predicate TooSoon(op: Op, name: string, t: nat) {
    op.OpCreateQueue? && op.name == name ==> Capped(op.nowMs) < After(t, 60_000)
  }

  lemma ReservedCreate(db: Db, op: Op, name: string, t: nat)
    requires op.OpCreateQueue? && ReservedSince(db, name, t) && TooSoon(op, name, t)
    ensures ReservedSince(Step(db, op), name, t)
  {
  }

  lemma ReservedSettings(db: Db, op: Op, name: string, t: nat)
    requires op.OpSetAttributes? && ReservedSince(db, name, t)
    ensures ReservedSince(Step(db, op), name, t)
  {
  }

  lemma ReservedOthers(db: Db, op: Op, name: string, t: nat)
    requires (op.OpPurge? || op.OpDeleteQueue?) && ReservedSince(db, name, t)
    ensures ReservedSince(Step(db, op), name, t)
  {
  }

  lemma ReservedStep(db: Db, op: Op, name: string, t: nat)
    requires Inv(db) && ReservedSince(db, name, t) && TooSoon(op, name, t)
    ensures ReservedSince(Step(db, op), name, t)
  {
    if OnMessages(op) {
      MessagesKeepQueues(db, op);
    } else if op.OpCreateQueue? {
      ReservedCreate(db, op, name, t);
    } else if op.OpSetAttributes? {
      ReservedSettings(db, op, name, t);
    } else {
      ReservedOthers(db, op, name, t);
    }
  }

  /** Over any run that creates the name too soon only, it stays deleted; then creation is refused for exactly sixty seconds. */
  lemma {:induction false} DeletedNameStaysReserved(db: Db, ops: seq<Op>, name: string, t: nat)
    requires Inv(db) && ReservedSince(db, name, t)
    requires forall i :: 0 <= i < |ops| ==> TooSoon(ops[i], name, t)
    ensures ReservedSince(Run(db, ops), name, t)
    decreases |ops|
  {
    if ops != [] {
      assert TooSoon(ops[0], name, t);
      ReservedStep(db, ops[0], name, t);
      StepKeeps(db, ops[0]);
      forall i | 0 <= i < |ops[1..]| ensures TooSoon(ops[1..][i], name, t) { assert ops[1..][i] == ops[i + 1]; }
      DeletedNameStaysReserved(Step(db, ops[0]), ops[1..], name, t);
    }
  }

  /** A reserved name is refused until the wait is over, and a valid creation works from then on. */
  lemma ReservationDecides(d: Db, name: string, t: nat, kind: QueueType, settings: Settings, nowMs: nat)
    requires Inv(d) && ReservedSince(d, name, t) && (kind == Fifo <==> EndsInFifo(name)) && InRange(kind, settings)
    ensures var r := CreateQueue(d, name, kind, settings, None, nowMs);
            && (r == Result(d, Failed(QueueDeletedRecently)) <==> Capped(nowMs) < After(t, 60_000))
            && (r.reply == Done <==> Capped(nowMs) >= After(t, 60_000))
  {
    CreateAnswers(d, OpCreateQueue(name, kind, settings, None, nowMs));
    CreateDoes(d, OpCreateQueue(name, kind, settings, None, nowMs));
  }

  lemma DeletionReserves(db: Db, name: string, deletedMs: nat)
    requires name in db.queues
    ensures ReservedSince(Step(db, OpDeleteQueue(name, deletedMs)), name, Capped(deletedMs))
  {
  }

  /** From the deletion of a queue on: every creation within sixty seconds fails, and the first one after them that is valid succeeds. */
  lemma NameIsReservedExactly(
      db: Db, ops: seq<Op>, name: string, deletedMs: nat, kind: QueueType, settings: Settings, nowMs: nat)
    requires Inv(db) && name in db.queues
    requires forall i :: 0 <= i < |ops| ==> TooSoon(ops[i], name, Capped(deletedMs))
    requires (kind == Fifo <==> EndsInFifo(name)) && InRange(kind, settings)
    ensures var d := Run(Step(db, OpDeleteQueue(name, deletedMs)), ops);
            var r := CreateQueue(d, name, kind, settings, None, nowMs);
            && (r == Result(d, Failed(QueueDeletedRecently)) <==> Capped(nowMs) < After(deletedMs, 60_000))
            && (r.reply == Done <==> Capped(nowMs) >= After(deletedMs, 60_000))
  {
    var d := Step(db, OpDeleteQueue(name, deletedMs));
    StepKeeps(db, OpDeleteQueue(name, deletedMs));
    DeletionReserves(db, name, deletedMs);
    DeletedNameStaysReserved(d, ops, name, Capped(deletedMs));
    RunKeeps(d, ops);
    ReservationDecides(Run(d, ops), name, Capped(deletedMs), kind, settings, nowMs);
  }

  // ----- purges

  predicate PurgedAt(db: Db, q: string, t: nat) {
    q in db.queues && db.queues[q].lastPurge == Some(t)
  }

  /** The operation neither deletes the queue nor purges it after the wait. */
  predicate Waits(op: Op, q: string, t: nat) {
    && !(op.OpDeleteQueue? && op.name == q)
    && (op.OpPurge? && op.queue == q ==> Capped(op.nowMs) < After(t, 60_000))
  }

  lemma PurgedStep(db: Db, op: Op, q: string, t: nat)
    requires Inv(db) && PurgedAt(db, q, t) && Waits(op, q, t)
    ensures PurgedAt(Step(db, op), q, t)
  {
    if OnMessages(op) { MessagesKeepQueues(db, op); }
  }

  lemma {:induction false} PurgeTimeStays(db: Db, ops: seq<Op>, q: string, t: nat)
    requires Inv(db) && PurgedAt(db, q, t)
    requires forall i :: 0 <= i < |ops| ==> Waits(ops[i], q, t)
    ensures PurgedAt(Run(db, ops), q, t)
    decreases |ops|
  {
    if ops != [] {
      assert Waits(ops[0], q, t);
      PurgedStep(db, ops[0], q, t);
      StepKeeps(db, ops[0]);
      forall i | 0 <= i < |ops[1..]| ensures Waits(ops[1..][i], q, t) { assert ops[1..][i] == ops[i + 1]; }
      PurgeTimeStays(Step(db, ops[0]), ops[1..], q, t);
    }
  }

  /** Whatever happens after a purge, the next one is refused for exactly sixty seconds and leaves the queue alone. */
  lemma PurgesAreSpaced(db: Db, ops: seq<Op>, q: string, t: nat, nowMs: nat)
    requires Inv(db) && PurgedAt(db, q, t)
    requires forall i :: 0 <= i < |ops| ==> Waits(ops[i], q, t)
    ensures var d := Run(db, ops);
            && (PurgeQueue(d, q, nowMs) == Result(d, Failed(PurgeQueueInProgress)) <==> Capped(nowMs) < After(t, 60_000))
            && (PurgeQueue(d, q, nowMs).reply == Done <==> Capped(nowMs) >= After(t, 60_000))
  {
    PurgeTimeStays(db, ops, q, t);
  }

  /** A purge is refused exactly for an unknown queue or within the wait, and then changes nothing. */
  lemma PurgeAnswers(db: Db, q: string, nowMs: nat)
    ensures var r := PurgeQueue(db, q, nowMs);
            if q !in db.queues then r == Result(db, Failed(QueueNotFound))
            else if db.queues[q].lastPurge.Some? && Capped(nowMs) < After(db.queues[q].lastPurge.value, 60_000)
            then r == Result(db, Failed(PurgeQueueInProgress))
            else r.reply == Done
  {
  }

  /** A purge that is not refused empties the queue, keeps every other queue's rows and starts the wait. */
  lemma PurgeEmpties(db: Db, q: string, nowMs: nat)
    requires PurgeQueue(db, q, nowMs).reply == Done
    ensures var d := PurgeQueue(db, q, nowMs).db;
            && q in db.queues && d.queues == db.queues[q := db.queues[q].(lastPurge := Some(Capped(nowMs)))]
            && d.deleted == db.deleted && d.nextSequence == db.nextSequence && Rows(d, q) == {}
            && (forall s :: s in db.messages && db.messages[s].queue != q ==> Untouched(db, d, s))
            && d.keys == db.keys && d.policies == db.policies
            && (forall k :: k in db.attempts && k.0 == q ==> k in d.attempts && !d.attempts[k].valid)
  {
  }
}
