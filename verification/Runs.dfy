/** Runs of operations from the empty database, and what every reachable state satisfies. */
module Runs {
  import opened Identifiers
  import opened Tables
  import opened Operations
  import opened Invariants
  import opened Preservation

  datatype Op =
    | OpCreateQueue(name: string, kind: QueueType, settings: Settings, policy: Option<Policy>, nowMs: nat)
    | OpDeleteQueue(name: string, nowMs: nat)
    | OpSetAttributes(queue: string, update: Update, nowMs: nat)
    | OpPurge(queue: string, nowMs: nat)
    | OpSend(queue: string, request: SendRequest, nowMs: nat)
    | OpReceive(queue: string, maximum: nat, options: ReceiveOptions, nowMs: nat, cacheEmpty: bool)
    | OpDelete(queue: string, handle: string)
    | OpChangeVisibility(queue: string, handle: string, timeoutMs: nat, nowMs: nat)
    | OpRedrive(dlq: string, source: string, maximum: nat, nowMs: nat)

  function Perform(db: Db, op: Op): Result {
    match op
    case OpCreateQueue(name, kind, settings, policy, nowMs) => CreateQueue(db, name, kind, settings, policy, nowMs)
    case OpDeleteQueue(name, nowMs) => DeleteQueue(db, name, nowMs)
    case OpSetAttributes(q, update, nowMs) => SetQueueAttributes(db, q, update, nowMs)
    case OpPurge(q, nowMs) => PurgeQueue(db, q, nowMs)
    case OpSend(q, request, nowMs) => Send(db, q, request, nowMs)
    case OpReceive(q, maximum, options, nowMs, cacheEmpty) => ReceivePage(db, q, maximum, options, nowMs, cacheEmpty)
    case OpDelete(q, handle) => DeleteMessage(db, q, handle)
    case OpChangeVisibility(q, handle, timeoutMs, nowMs) => ChangeVisibility(db, q, handle, timeoutMs, nowMs)
    case OpRedrive(dlq, source, maximum, nowMs) => RedriveDeadLetters(db, dlq, source, maximum, nowMs)
  }

  lemma PerformReceive(db: Db, op: Op)
    requires op.OpReceive?
    ensures Perform(db, op) == ReceivePage(db, op.queue, op.maximum, op.options, op.nowMs, op.cacheEmpty)
  {
  }

  lemma PerformRedrive(db: Db, op: Op)
    requires op.OpRedrive?
    ensures Perform(db, op) == RedriveDeadLetters(db, op.dlq, op.source, op.maximum, op.nowMs)
  {
  }

  function Step(db: Db, op: Op): Db {
    Perform(db, op).db
  }

  function Run(db: Db, ops: seq<Op>): Db
    decreases |ops|
  {
    if ops == [] then db else Run(Step(db, ops[0]), ops[1..])
  }

  lemma StepKeeps(db: Db, op: Op)
    requires Inv(db)
    ensures Inv(Step(db, op))
  {
    match op
    case OpCreateQueue(name, kind, settings, policy, nowMs) => CreateQueueKeeps(db, name, kind, settings, policy, nowMs);
    case OpDeleteQueue(name, nowMs) => DeleteQueueKeeps(db, name, nowMs);
    case OpSetAttributes(q, update, nowMs) => SetQueueAttributesKeeps(db, q, update, nowMs);
    case OpPurge(q, nowMs) => PurgeQueueKeeps(db, q, nowMs);
    case OpSend(q, request, nowMs) => SendKeeps(db, q, request, nowMs);
    case OpReceive(q, maximum, options, nowMs, cacheEmpty) => ReceivePageKeeps(db, q, maximum, options, nowMs, cacheEmpty);
    case OpDelete(q, handle) => DeleteMessageKeeps(db, q, handle);
    case OpChangeVisibility(q, handle, timeoutMs, nowMs) => ChangeVisibilityKeeps(db, q, handle, timeoutMs, nowMs);
    case OpRedrive(dlq, source, maximum, nowMs) => RedriveKeeps(db, dlq, source, maximum, nowMs);
  }

  lemma {:induction false} RunKeeps(db: Db, ops: seq<Op>)
    requires Inv(db)
    ensures Inv(Run(db, ops))
    decreases |ops|
  {
    if ops != [] {
      StepKeeps(db, ops[0]);
      RunKeeps(Step(db, ops[0]), ops[1..]);
    }
  }

  /** Every reachable database satisfies the whole invariant. */
  lemma Reachable(ops: seq<Op>)
    ensures Inv(Run(EMPTY, ops))
  {
    assert Inv(EMPTY);
    RunKeeps(EMPTY, ops);
  }

  /**
   * The receive-attempt cache: every handle of a replayable response is on exactly one
   * live row, a row of that queue, and the cached message is what reading it again gives.
   */
  lemma CacheIsCoherent(ops: seq<Op>, k: AttemptKey, m: Received)
    requires var db := Run(EMPTY, ops);
             k in db.attempts && db.attempts[k].valid && m in db.attempts[k].response
    ensures var db := Run(EMPTY, ops);
            exists s :: s in db.messages && db.messages[s].queue == k.0 && m == ViewRow(db, s)
                        && forall t :: t in db.messages ==> (db.messages[t].handle == Some(m.handle) <==> t == s)
  {
    var db := Run(EMPTY, ops);
    Reachable(ops);
    assert AttemptOk(db, k);
    assert Shown(db, k.0, m);
    var s :| s in db.messages && db.messages[s].queue == k.0 && db.messages[s].handle == Some(m.handle) && m == ViewRow(db, s);
    forall t | t in db.messages && db.messages[t].handle == Some(m.handle) ensures t == s {
      assert RowOk(db, s) && RowOk(db, t);
      HandleDetermines(m.handle, s, db.messages[s].count, t, db.messages[t].count);
    }
  }

  /** In a FIFO group, a row that was received is preceded only by rows that were received. */
  lemma ReceivedRowsArePrefix(ops: seq<Op>, e: nat, s: nat)
    requires var db := Run(EMPTY, ops);
             e in db.messages && s in db.messages && e < s && SameGroup(db, e, s)
             && Kind(db, db.messages[s].queue) == Fifo && db.messages[s].count > 0
    ensures Run(EMPTY, ops).messages[e].count > 0
  {
    Reachable(ops);
  }

  lemma MessageIdsAreUnique(ops: seq<Op>, s: nat, t: nat)
    requires var db := Run(EMPTY, ops); s in db.messages && t in db.messages && s != t
    ensures var db := Run(EMPTY, ops); db.messages[s].id != db.messages[t].id
  {
    Reachable(ops);
  }

  lemma PolicyGraphIsWellFormed(ops: seq<Op>, q: string)
    requires q in Run(EMPTY, ops).policies
    ensures var db := Run(EMPTY, ops);
            var target := db.policies[q].deadLetterQueue;
            q in db.queues && target in db.queues && target != q && db.queues[target].kind == db.queues[q].kind
  {
    Reachable(ops);
  }
}
