/** No operation invents or alters a message: whatever is live was sent. */
module Provenance {
  import opened Identifiers
  import opened Tables
  import opened Operations
  import opened Invariants
  import opened Preservation
  import opened Receiving
  import opened ReceiveTheorems
  import opened Runs
  import opened History
  import opened SendCalls
  import opened ReceiveCalls
  import opened Conservation
  import opened Survival

  /** What the sender of this request put in, under the id it is given. */
  function SentContent(request: SendRequest, queue: Queue, sequence: nat): Payload {
    Payload(MessageId(sequence), request.body, request.group, request.attributes, DeduplicationId(request, queue))
  }

  /** The operation is a send that was accepted as new, of this message. */
  predicate Sends(db: Db, op: Op, m: Payload) {
    && op.OpSend? && op.queue in db.queues && Admissible(op.request, db.queues[op.queue])
    && Perform(db, op).reply == Sent(MessageId(db.nextSequence), false)
    && m == SentContent(op.request, db.queues[op.queue], db.nextSequence)
  }

  /** The operation is a manual redrive that sent row s again as this message, under a new id. */
  ghost predicate Resends(db: Db, op: Op, m: Payload, s: nat) {
    && op.OpRedrive? && s in db.messages && db.messages[s].queue == op.dlq && Origin(db, s) == Some(op.source)
    && m == PayloadOf(db.messages[s], true).(id := m.id)
    && exists n: nat :: db.nextSequence <= n < Step(db, op).nextSequence && m.id == MessageId(n)
  }

  /** The operation gave the message its id. */
  ghost predicate Issues(db: Db, op: Op, m: Payload) {
    Sends(db, op, m) || exists s :: Resends(db, op, m, s)
  }

  lemma ReplayedComesFrom(db: Db, e: Db, op: Op, t: nat)
    requires op.OpReceive? && Cleared(db, e, op.queue, Ms(op.nowMs))
    requires ReplayAttempt(e, op.queue, op.options, op.maximum, Ms(op.nowMs)).Replayed?
    requires t in ReplayAttempt(e, op.queue, op.options, op.maximum, Ms(op.nowMs)).db.messages
    ensures Live(db, PayloadOf(ReplayAttempt(e, op.queue, op.options, op.maximum, Ms(op.nowMs)).db.messages[t], true))
  {
    assert CarriedBy(db, PayloadOf(ReplayAttempt(e, op.queue, op.options, op.maximum, Ms(op.nowMs)).db.messages[t], true), t);
  }

  lemma ReceiveInventsNothing(db: Db, op: Op, t: nat)
    requires Inv(db) && op.OpReceive? && t in Step(db, op).messages
    ensures Live(db, PayloadOf(Step(db, op).messages[t], true))
  {
    var d := Step(db, op);
    var m := PayloadOf(d.messages[t], true);
    var stage := ReceiveStage(db, op);
    match stage
    case RolledBack => assert CarriedBy(db, m, t);
    case Replaying(e) => ReplayedComesFrom(db, e, op, t);
    case Collecting(e, visibility) =>
      var s := CollectedComesFrom(e, d, op, visibility, t);
      assert CarriedBy(db, m, s);
  }

  lemma CollectedComesFrom(e: Db, d: Db, op: Op, visibility: nat, t: nat) returns (s: nat)
    requires Inv(e) && op.OpReceive? && op.queue in e.queues && t in d.messages
    requires d == ReceiveFresh(e, op.queue, op.maximum, op.options, visibility, Ms(op.nowMs), op.cacheEmpty).db
    ensures CarriedBy(e, PayloadOf(d.messages[t], true), s)
  {
    var q, now := op.queue, Ms(op.nowMs);
    FreshRows(e, q, op.maximum, op.options, visibility, now, op.cacheEmpty);
    s := t;
    if d != e {
      var limit := Limit(e, q, op.maximum, now);
      ReceiveLeavesOutcome(e, q, limit, visibility, now);
      s := WhereItCameFrom(e, CollectReceived(e, q, limit, visibility, now).db, q, PolicyOf(e, q), visibility, now,
                           Answer(e, q, visibility, now, limit), Casualties(e, q, visibility, now, limit), t);
    }
  }

  lemma WhereItCameFrom(e: Db, d: Db, q: string, policy: Option<Policy>, visibility: nat, now: nat,
                        delivered: seq<nat>, moved: seq<nat>, t: nat) returns (s: nat)
    requires Outcome(e, d, q, policy, visibility, now, delivered, moved) && t in d.messages
    ensures CarriedBy(e, PayloadOf(d.messages[t], true), s)
  {
    s := t;
    if t in delivered {
      var i :| 0 <= i < |delivered| && delivered[i] == t;
    } else if t in e.messages {
      assert t !in moved;
      assert Untouched(e, d, t);
    } else {
      s := moved[t - e.nextSequence];
    }
  }

  lemma SendAddsTheRequest(db: Db, op: Op, t: nat)
    requires op.OpSend? && t in Step(db, op).messages
    ensures var m := PayloadOf(Step(db, op).messages[t], true); Live(db, m) || Issues(db, op, m)
  {
    var q := op.queue;
    if q in db.queues && PrepareSend(op.request, db.queues[q]).Prepared? {
      PreparedExactly(op.request, db.queues[q]);
      SendShape(db, q, op.request, op.nowMs);
      ReadyComesFrom(db, q, PrepareSend(op.request, db.queues[q]), op.nowMs, t);
    } else {
      assert CarriedBy(db, PayloadOf(db.messages[t], true), t);
    }
  }

  lemma ReadyComesFrom(db: Db, q: string, p: Prepared, nowMs: nat, t: nat)
    requires p.Prepared?
    ensures var ready := ReadyToSend(db, q, p, nowMs); t in ready.messages ==> Live(db, PayloadOf(ready.messages[t], true))
  {
    if t in ReadyToSend(db, q, p, nowMs).messages { assert CarriedBy(db, PayloadOf(db.messages[t], true), t); }
  }

  lemma RebornRow(e: Db, d: Db, source: string, now: nat, order: seq<nat>, t: nat)
    requires Reborn(e, d, source, now, order) && e.nextSequence <= t < d.nextSequence
    ensures t in d.messages && t - e.nextSequence < |order| && order[t - e.nextSequence] in e.messages
    ensures d.messages[t] == MovedRow(e.messages[order[t - e.nextSequence]], t, source, now, DelayOf(e, source), true, true)
  {
  }

  lemma RebornKeepsContent(row: Row, n: nat, source: string, now: nat, delay: nat)
    ensures PayloadOf(MovedRow(row, n, source, now, delay, true, true), true) == PayloadOf(row, true).(id := MessageId(n))
  {
  }

  lemma RebornResends(db: Db, op: Op, e: Db, order: seq<nat>, t: nat)
    requires op.OpRedrive? && Reborn(e, Step(db, op), op.source, Ms(op.nowMs), order) && e.nextSequence == db.nextSequence
    requires e.nextSequence <= t < Step(db, op).nextSequence && t in Step(db, op).messages
    requires forall s :: s in e.messages ==> s in db.messages && e.messages[s] == db.messages[s]
    requires forall i :: 0 <= i < |order| ==>
               order[i] in db.messages && db.messages[order[i]].queue == op.dlq && Origin(db, order[i]) == Some(op.source)
    ensures Issues(db, op, PayloadOf(Step(db, op).messages[t], true))
  {
    RebornRow(e, Step(db, op), op.source, Ms(op.nowMs), order, t);
    var s := order[t - e.nextSequence];
    RebornKeepsContent(e.messages[s], t, op.source, Ms(op.nowMs), DelayOf(e, op.source));
    assert Resends(db, op, PayloadOf(Step(db, op).messages[t], true), s);
  }

  lemma RedriveResends(db: Db, op: Op, t: nat)
    requires Inv(db) && op.OpRedrive? && t in Step(db, op).messages
    ensures var m := PayloadOf(Step(db, op).messages[t], true); Live(db, m) || Issues(db, op, m)
  {
    var d := Step(db, op);
    if Perform(db, op).reply.Moved? {
      var e, order := RedriveStage(db, op);
      if t in e.messages {
        StayedAsItWas(e, d, order, t);
        assert CarriedBy(db, PayloadOf(d.messages[t], true), t);
      } else {
        RebornResends(db, op, e, order, t);
      }
    } else {
      assert CarriedBy(db, PayloadOf(db.messages[t], true), t);
    }
  }

  lemma StayedAsItWas(e: Db, d: Db, order: seq<nat>, t: nat)
    requires RestStayed(e, d, order) && t in e.messages && t in d.messages && (forall i :: 0 <= i < |order| ==> order[i] !in d.messages)
    ensures d.messages[t] == e.messages[t]
  {
    assert t !in order;
    assert Untouched(e, d, t);
  }

  lemma SettingsInventNothing(db: Db, op: Op, t: nat)
    requires op.OpSetAttributes? && t in Step(db, op).messages
    ensures Live(db, PayloadOf(Step(db, op).messages[t], true))
  {
    if Perform(db, op).reply == Done {
      var updated, delayed, settings := SettingsSteps(db, op);
      DelayKeepsPayloads(updated, delayed, op.queue, settings.delay);
      KeptUnlessExpired(delayed, op.queue, Ms(op.nowMs), t);
    }
    assert CarriedBy(db, PayloadOf(db.messages[t], true), t);
  }

  lemma OthersInventNothing(db: Db, op: Op, t: nat)
    requires op.OpCreateQueue? || op.OpDeleteQueue? || op.OpPurge? || op.OpDelete? || op.OpChangeVisibility?
    requires t in Step(db, op).messages
    ensures Live(db, PayloadOf(Step(db, op).messages[t], true))
  {
    assert CarriedBy(db, PayloadOf(Step(db, op).messages[t], true), t);
  }

  /** One operation: every message was there before under its id, or a send or a manual redrive just gave it that id. */
  lemma NothingIsInvented(db: Db, op: Op, t: nat)
    requires Inv(db) && t in Step(db, op).messages
    ensures var m := PayloadOf(Step(db, op).messages[t], true); Live(db, m) || Issues(db, op, m)
  {
    match op
    case OpReceive(_, _, _, _, _) => ReceiveInventsNothing(db, op, t);
    case OpSend(_, _, _) => SendAddsTheRequest(db, op, t);
    case OpRedrive(_, _, _, _) => RedriveResends(db, op, t);
    case OpSetAttributes(_, _, _) => SettingsInventNothing(db, op, t);
    case _ => OthersInventNothing(db, op, t);
  }

  lemma {:induction false} IssuedDuring(db: Db, ops: seq<Op>, m: Payload) returns (k: nat)
    requires Inv(db) && Live(Run(db, ops), m) && !Live(db, m)
    ensures k < |ops| && Issues(Run(db, ops[..k]), ops[k], m)
    decreases |ops|
  {
    var d := Step(db, ops[0]);
    if Live(d, m) {
      var s :| CarriedBy(d, m, s);
      NothingIsInvented(db, ops[0], s);
      k := 0;
      assert ops[..0] == [];
    } else {
      StepKeeps(db, ops[0]);
      var j := IssuedDuring(d, ops[1..], m);
      k := j + 1;
      assert ops[..k][0] == ops[0] && ops[..k][1..] == ops[1..][..j];
    }
  }

  /** Over any run from the empty database: one operation of the run gave the message its id, with the content it still has. */
  lemma IdWasIssued(ops: seq<Op>, m: Payload) returns (k: nat)
    requires Live(Run(EMPTY, ops), m)
    ensures k < |ops| && Issues(Run(EMPTY, ops[..k]), ops[k], m)
  {
    assert Inv(EMPTY);
    k := IssuedDuring(EMPTY, ops, m);
  }

  /** At step k of the run the message was sent, under whatever id it got then. */
  ghost predicate SentAt(ops: seq<Op>, k: nat, m: Payload) {
    k < |ops| && Sends(Run(EMPTY, ops[..k]), ops[k], m.(id := MessageId(Run(EMPTY, ops[..k]).nextSequence)))
  }

  /** Over any run from the empty database: the body, group, attributes and deduplication id of a live message are those of an accepted send. */
  lemma {:induction false} EveryMessageWasSent(ops: seq<Op>, m: Payload) returns (k: nat)
    requires Live(Run(EMPTY, ops), m)
    ensures SentAt(ops, k, m)
    decreases |ops|
  {
    k := IdWasIssued(ops, m);
    var b := Run(EMPTY, ops[..k]);
    if !Sends(b, ops[k], m) {
      var s :| Resends(b, ops[k], m, s);
      var before := PayloadOf(b.messages[s], true);
      assert CarriedBy(b, before, s);
      k := EveryMessageWasSent(ops[..k], before);
      SentEarlier(ops, k, before, m);
    }
  }

  lemma SentEarlier(ops: seq<Op>, k: nat, before: Payload, m: Payload)
    requires exists n :: 0 <= n <= |ops| && SentAt(ops[..n], k, before)
    requires m == before.(id := m.id)
    ensures SentAt(ops, k, m)
  {
    var n :| 0 <= n <= |ops| && SentAt(ops[..n], k, before);
    assert ops[..n][..k] == ops[..k];
  }

  // ----- what a receiver gets

  lemma {:induction false} RunAppend(db: Db, ops: seq<Op>, op: Op)
    ensures Run(db, ops + [op]) == Step(Run(db, ops), op)
    decreases |ops|
  {
    if ops != [] {
      assert (ops + [op])[0] == ops[0] && (ops + [op])[1..] == ops[1..] + [op];
      RunAppend(Step(db, ops[0]), ops[1..], op);
    }
  }

  /** The message as its sender put it in. */
  predicate AsSent(m: Received, p: Payload) {
    p.id == m.id && p.body == m.body && p.group == m.group && p.attributes == m.attributes && (m.dedup.Some? ==> m.dedup == p.dedup)
  }

  /**
    * What a receiver is given, fresh or replayed: its id was issued by one operation of the run, a send or a manual
    * redrive, with exactly this body, group and attributes, and these are what an accepted send asked for.
    */
  lemma ReceivedWasSent(ops: seq<Op>, op: Op, m: Received) returns (p: Payload, issued: nat, sent: nat)
    requires op.OpReceive? && Perform(Run(EMPTY, ops), op).reply.Page? && m in Perform(Run(EMPTY, ops), op).reply.messages
    ensures AsSent(m, p)
    ensures issued < |ops| && Issues(Run(EMPTY, ops[..issued]), ops[issued], p)
    ensures SentAt(ops, sent, p)
  {
    var db, all := Run(EMPTY, ops), ops + [op];
    Reachable(ops);
    RunAppend(EMPTY, ops, op);
    var s := PageShows(db, op, m);
    p := PayloadOf(Step(db, op).messages[s], true);
    assert CarriedBy(Run(EMPTY, all), p, s);
    issued := IdWasIssued(all, p);
    sent := EveryMessageWasSent(all, p);
    assert all[..issued] == ops[..issued] && all[..sent] == ops[..sent];
  }
}
