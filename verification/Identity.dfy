/** A message keeps its history for as long as it keeps its id, wherever it moves. */
module Identity {
  import opened Identifiers
  import opened Tables
  import opened PlanFacts
  import opened Operations
  import opened Invariants
  import opened Receiving
  import opened ReceiveTheorems
  import opened Runs
  import opened History
  import opened Conservation
  import opened Survival
  import opened Cooldowns

  /** Total receives only grow, the first receive stays, and on a standard queue the send time stays. */
  predicate KeepsHistory(row: Row, later: Row, standard: bool) {
    && row.total <= later.total
    && (row.firstReceived.Some? ==> later.firstReceived == row.firstReceived)
    && (standard ==> later.createdAt == row.createdAt)
  }

  lemma LaterIdsAreNew(db: Db, s: nat, n: nat)
    requires TableOk(db) && s in db.messages && db.nextSequence <= n
    ensures db.messages[s].id != MessageId(n)
  {
    assert RowOk(db, s);
    var k: nat :| 1 <= k <= s && db.messages[s].id == MessageId(k);
    MessageIdRoundTrip(k);
    MessageIdRoundTrip(n);
  }

  lemma SendNamesNewRow(db: Db, op: Op, t: nat)
    requires op.OpSend? && t in Step(db, op).messages && t !in db.messages
    ensures t == db.nextSequence && Step(db, op).messages[t].id == MessageId(t)
  {
    var q := op.queue;
    if q in db.queues && PrepareSend(op.request, db.queues[q]).Prepared? {
      SendShape(db, q, op.request, op.nowMs);
      ReadyKeepsRows(db, q, PrepareSend(op.request, db.queues[q]), op.nowMs);
    }
  }

  lemma RebornIsNamed(e: Db, d: Db, source: string, now: nat, order: seq<nat>, t: nat)
    requires MovedBack(e, d, source, now, order) && t in d.messages && t !in e.messages
    ensures e.nextSequence <= t && d.messages[t].id == MessageId(t)
  {
  }

  lemma RedriveNamesNewRow(db: Db, op: Op, t: nat)
    requires Inv(db) && op.OpRedrive? && t in Step(db, op).messages && t !in db.messages
    ensures db.nextSequence <= t && Step(db, op).messages[t].id == MessageId(t)
  {
    if Perform(db, op).reply.Moved? {
      var e, order := RedriveStage(db, op);
      RebornIsNamed(e, Step(db, op), op.source, Ms(op.nowMs), order, t);
    }
  }

  /** A row that a receive adds is a moved row with the id of the row it replaces. */
  lemma ReceiveMovesRow(db: Db, op: Op, t: nat) returns (s: nat)
    requires Inv(db) && op.OpReceive? && t in Step(db, op).messages && t !in db.messages
    ensures s in db.messages && Step(db, op).messages[t].id == db.messages[s].id
    ensures Kind(db, Step(db, op).messages[t].queue) == Kind(db, db.messages[s].queue)
    ensures KeepsHistory(db.messages[s], Step(db, op).messages[t], Kind(db, db.messages[s].queue) == Standard)
  {
    var stage := ReceiveStage(db, op);
    match stage
    case RolledBack =>
    case Replaying(_) =>
    case Collecting(e, visibility) =>
      var q, now := op.queue, Ms(op.nowMs);
      var limit := Limit(e, q, op.maximum, now);
      FreshRows(e, q, op.maximum, op.options, visibility, now, op.cacheEmpty);
      ReceiveLeavesOutcome(e, q, limit, visibility, now);
      s := CasualtyAt(e, q, limit, visibility, now, t);
  }

  lemma CasualtyAt(e: Db, q: string, limit: nat, visibility: nat, now: nat, t: nat) returns (s: nat)
    requires Inv(e) && q in e.queues
    requires t in CollectReceived(e, q, limit, visibility, now).db.messages && t !in e.messages
    ensures s in e.messages && e.messages[s].queue == q
    ensures Kind(e, CollectReceived(e, q, limit, visibility, now).db.messages[t].queue) == Kind(e, q)
    ensures CollectReceived(e, q, limit, visibility, now).db.messages[t].id == e.messages[s].id
    ensures KeepsHistory(e.messages[s], CollectReceived(e, q, limit, visibility, now).db.messages[t], Kind(e, q) == Standard)
  {
    ReceiveLeavesOutcome(e, q, limit, visibility, now);
    var casualties := Casualties(e, q, visibility, now, limit);
    s := casualties[t - e.nextSequence];
    CasualtyFromQueue(e, q, limit, visibility, now, s);
  }

  lemma CasualtyFromQueue(e: Db, q: string, limit: nat, visibility: nat, now: nat, s: nat)
    requires s in Casualties(e, q, visibility, now, limit)
    ensures s in Rows(e, q)
  {
    var plan, policy := ReceiveOrder(e, q, now), PolicyOf(e, q);
    var n := Handled(e.messages, plan, policy, Cap(Kind(e, q), visibility, now, limit));
    SplitMembers(e.messages, plan[..n], policy);
    FifoPlanServed(e.messages, Rows(e, q), now, policy);
    assert s in plan;
  }

  /** A row in its place. */
  lemma InPlace(db: Db, op: Op, t: nat)
    requires Inv(db) && t in Step(db, op).messages && t in db.messages
    ensures Step(db, op).messages[t].id == db.messages[t].id && Step(db, op).messages[t].queue == db.messages[t].queue
    ensures KeepsHistory(db.messages[t], Step(db, op).messages[t], true)
  {
    StepEvolves(db, op);
    assert Evolves(db, Step(db, op), op, t);
  }

  lemma CreationAddsNoRow(db: Db, op: Op, t: nat)
    requires op.OpCreateQueue? && t in Step(db, op).messages
    ensures t in db.messages
  {
  }

  lemma SettingsAddNoRow(db: Db, op: Op, t: nat)
    requires op.OpSetAttributes? && t in Step(db, op).messages
    ensures t in db.messages
  {
    if Perform(db, op).reply == Done {
      var updated, delayed, settings := SettingsSteps(db, op);
      DelayKeepsPayloads(updated, delayed, op.queue, settings.delay);
    }
  }

  lemma RemovalAddsNoRow(db: Db, op: Op, t: nat)
    requires (op.OpDeleteQueue? || op.OpPurge? || op.OpDelete? || op.OpChangeVisibility?) && t in Step(db, op).messages
    ensures t in db.messages
  {
  }

  /** Only a receive puts a message into another row. */
  lemma OnlyReceiveMoves(db: Db, op: Op, s: nat, t: nat)
    requires Inv(db) && s in db.messages && t in Step(db, op).messages && Step(db, op).messages[t].id == db.messages[s].id
    ensures if t in db.messages then t == s else op.OpReceive?
  {
    if t in db.messages {
      InPlace(db, op, t);
    } else {
      match op
      case OpReceive(_, _, _, _, _) =>
      case OpSend(_, _, _) => SendNamesNewRow(db, op, t); LaterIdsAreNew(db, s, t);
      case OpRedrive(_, _, _, _) => RedriveNamesNewRow(db, op, t); LaterIdsAreNew(db, s, t);
      case OpCreateQueue(_, _, _, _, _) => CreationAddsNoRow(db, op, t);
      case OpSetAttributes(_, _, _) => SettingsAddNoRow(db, op, t);
      case _ => RemovalAddsNoRow(db, op, t);
    }
  }

  /** The row a message is in after an operation is the row it was in, or the dead letter made of it. */
  lemma IdentityKeepsHistory(db: Db, op: Op, s: nat, t: nat)
    requires Inv(db) && s in db.messages && t in Step(db, op).messages && Step(db, op).messages[t].id == db.messages[s].id
    ensures KeepsHistory(db.messages[s], Step(db, op).messages[t], Kind(db, db.messages[s].queue) == Standard)
  {
    OnlyReceiveMoves(db, op, s, t);
    if t in db.messages {
      InPlace(db, op, t);
    } else {
      var from := ReceiveMovesRow(db, op, t);
      assert from == s;
    }
  }

  // ----- runs

  ghost predicate IdLive(db: Db, id: string) {
    exists s :: HasId(db, id, s)
  }

  predicate HasId(db: Db, id: string, s: nat) {
    s in db.messages && db.messages[s].id == id
  }

  /** The id was given out before. */
  ghost predicate IdIssued(db: Db, id: string) {
    exists k: nat :: k < db.nextSequence && id == MessageId(k)
  }

  lemma LiveIsIssued(db: Db, id: string, s: nat)
    requires TableOk(db) && HasId(db, id, s)
    ensures IdIssued(db, id)
  {
    assert RowOk(db, s);
    var k: nat :| 1 <= k <= s && id == MessageId(k);
  }

  /** An id that is gone does not return. */
  lemma GoneStaysGone(db: Db, op: Op, id: string)
    requires Inv(db) && IdIssued(db, id) && !IdLive(db, id)
    ensures IdIssued(Step(db, op), id) && !IdLive(Step(db, op), id)
  {
    StepEvolves(db, op);
    forall t | t in Step(db, op).messages ensures Step(db, op).messages[t].id != id {
      NoRowTakes(db, op, id, t);
    }
  }

  lemma NoRowTakes(db: Db, op: Op, id: string, t: nat)
    requires Inv(db) && IdIssued(db, id) && !IdLive(db, id) && t in Step(db, op).messages
    ensures Step(db, op).messages[t].id != id
  {
    var k: nat :| k < db.nextSequence && id == MessageId(k);
    if t in db.messages {
      InPlace(db, op, t);
      assert !HasId(db, id, t);
    } else {
      match op
      case OpReceive(_, _, _, _, _) => var from := ReceiveMovesRow(db, op, t); assert !HasId(db, id, from);
      case OpSend(_, _, _) => SendNamesNewRow(db, op, t); OtherNumberOtherId(k, t);
      case OpRedrive(_, _, _, _) => RedriveNamesNewRow(db, op, t); OtherNumberOtherId(k, t);
      case OpCreateQueue(_, _, _, _, _) => CreationAddsNoRow(db, op, t);
      case OpSetAttributes(_, _, _) => SettingsAddNoRow(db, op, t);
      case _ => RemovalAddsNoRow(db, op, t);
    }
  }

  lemma OtherNumberOtherId(k: nat, t: nat)
    requires k < t
    ensures MessageId(k) != MessageId(t)
  {
    MessageIdRoundTrip(k);
    MessageIdRoundTrip(t);
  }

  lemma {:induction false} GoneForever(db: Db, ops: seq<Op>, id: string)
    requires Inv(db) && IdIssued(db, id) && !IdLive(db, id)
    ensures !IdLive(Run(db, ops), id)
    decreases |ops|
  {
    if ops != [] {
      StepKeeps(db, ops[0]);
      GoneStaysGone(db, ops[0], id);
      GoneForever(Step(db, ops[0]), ops[1..], id);
    }
  }

  /** The queue a message is in keeps its type, and a dead letter goes to a queue of the same type. */
  lemma IdentityKeepsType(db: Db, op: Op, s: nat, t: nat)
    requires Inv(db) && s in db.messages && t in Step(db, op).messages && Step(db, op).messages[t].id == db.messages[s].id
    ensures Kind(Step(db, op), Step(db, op).messages[t].queue) == Kind(db, db.messages[s].queue)
  {
    OnlyReceiveMoves(db, op, s, t);
    if t in db.messages { InPlaceType(db, op, t); } else { MovedRowType(db, op, s, t); }
  }

  lemma InPlaceType(db: Db, op: Op, t: nat)
    requires Inv(db) && t in Step(db, op).messages && t in db.messages
    ensures Kind(Step(db, op), Step(db, op).messages[t].queue) == Kind(db, db.messages[t].queue)
  {
    StepKeeps(db, op);
    InPlace(db, op, t);
    assert RowOk(db, t) && RowOk(Step(db, op), t);
    KindStays(db, op, db.messages[t].queue);
  }

  lemma MovedRowType(db: Db, op: Op, s: nat, t: nat)
    requires Inv(db) && op.OpReceive? && s in db.messages && t in Step(db, op).messages && t !in db.messages
    requires Step(db, op).messages[t].id == db.messages[s].id
    ensures Kind(Step(db, op), Step(db, op).messages[t].queue) == Kind(db, db.messages[s].queue)
  {
    var from := ReceiveMovesRow(db, op, t);
    assert from == s;
    ReceiveKeepsQueues(db, op);
  }

  /** Over any run: as long as a message keeps its id, it keeps its history, wherever it moves. */
  lemma {:induction false} IdentityOverRuns(db: Db, ops: seq<Op>, s: nat, t: nat)
    requires Inv(db) && s in db.messages && t in Run(db, ops).messages && Run(db, ops).messages[t].id == db.messages[s].id
    ensures KeepsHistory(db.messages[s], Run(db, ops).messages[t], Kind(db, db.messages[s].queue) == Standard)
    decreases |ops|
  {
    var id := db.messages[s].id;
    if ops != [] {
      var d := Step(db, ops[0]);
      StepKeeps(db, ops[0]);
      if IdLive(d, id) {
        var u :| HasId(d, id, u);
        IdentityKeepsHistory(db, ops[0], s, u);
        IdentityKeepsType(db, ops[0], s, u);
        IdentityOverRuns(d, ops[1..], u, t);
      } else {
        assert HasId(db, id, s);
        LiveIsIssued(db, id, s);
        StepEvolves(db, ops[0]);
        GoneForever(d, ops[1..], id);
        assert HasId(Run(db, ops), id, t);
      }
    }
  }
}
