/** The pruned key table against the full history of accepted sends. */
module Dedup {
  import opened Identifiers
  import opened Ordering
  import opened Tables
  import opened Operations
  import opened Invariants
  import opened Preservation
  import opened Runs
  import opened History
  import opened SendCalls

  // ----- text order of message ids is numeric order

  function Power16(n: nat): nat {
    if n == 0 then 1 else 16 * Power16(n - 1)
  }

  lemma {:induction false} TextLessExtend(p: string, r: string, x: string, y: string)
    requires TextLess(p, r) && |p| == |r|
    ensures TextLess(p + x, r + y)
  {
    assert (p + x)[0] == p[0] && (r + y)[0] == r[0];
    assert (p + x)[1..] == p[1..] + x && (r + y)[1..] == r[1..] + y;
    if p[0] == r[0] { TextLessExtend(p[1..], r[1..], x, y); }
  }

  lemma {:induction false} TextLessSamePrefix(p: string, x: string, y: string)
    requires TextLess(x, y)
    ensures TextLess(p + x, p + y)
  {
    if p == "" {
      assert p + x == x && p + y == y;
    } else {
      assert (p + x)[0] == p[0] == (p + y)[0];
      assert (p + x)[1..] == p[1..] + x && (p + y)[1..] == p[1..] + y;
      TextLessSamePrefix(p[1..], x, y);
    }
  }

  lemma {:induction false} HexFits(n: nat, width: nat)
    requires n < Power16(width)
    ensures |Hex(n, width)| == width
  {
    if width > 0 { HexFits(n / 16, width - 1); }
  }

  lemma {:induction false} HexIsOrdered(a: nat, b: nat, width: nat)
    requires a < b < Power16(width)
    ensures TextLess(Hex(a, width), Hex(b, width))
  {
    var p, r := Hex(a / 16, width - 1), Hex(b / 16, width - 1);
    HexFits(a / 16, width - 1);
    HexFits(b / 16, width - 1);
    if a / 16 < b / 16 {
      HexIsOrdered(a / 16, b / 16, width - 1);
      TextLessExtend(p, r, [HexDigit(a % 16)], [HexDigit(b % 16)]);
    } else {
      assert a % 16 < b % 16;
      TextLessSamePrefix(p, [HexDigit(a % 16)], [HexDigit(b % 16)]);
    }
  }

  /** Sixteen digits hold every SQLite row number. */
  const ID_LIMIT: nat := 0x1_0000_0000_0000_0000

  lemma MessageIdsAreOrdered(a: nat, b: nat)
    requires a < b < ID_LIMIT
    ensures TextLess(MessageId(a), MessageId(b))
  {
    assert Power16(16) == ID_LIMIT by {
      assert Power16(4) == 0x1_0000;
      assert Power16(8) == 0x1_0000_0000;
      assert Power16(12) == 0x1_0000_0000_0000;
    }
    HexIsOrdered(a, b, 16);
    TextLessSamePrefix(MESSAGE_PREFIX, Hex(a, 16), Hex(b, 16));
  }

  // ----- the history

  /** An accepted send with a deduplication id; `nowMs` is the caller's time. */
  datatype Accepted = Accepted(dedup: string, group: string, sequence: nat, nowMs: nat)

  function KeyOf(q: string, a: Accepted): Key {
    Key(q, a.dedup, a.group, MessageId(a.sequence), Ms(a.nowMs))
  }

  /** The accepted sends to q since it was created, after one more operation. */
  function Extend(db: Db, history: seq<Accepted>, op: Op, q: string): seq<Accepted> {
    if op.OpDeleteQueue? && op.name == q && q in db.queues then []
    else if op.OpSend? && op.queue == q && q in db.queues then
      var id := DeduplicationId(op.request, db.queues[q]);
      if id.Some? && Perform(db, op).reply == Sent(MessageId(db.nextSequence), false)
      then history + [Accepted(id.value, op.request.group.GetOr(""), db.nextSequence, op.nowMs)]
      else history
    else history
  }

  function HistoryOf(db: Db, history: seq<Accepted>, ops: seq<Op>, q: string): seq<Accepted>
    decreases |ops|
  {
    if ops == [] then history else HistoryOf(Step(db, ops[0]), Extend(db, history, ops[0], q), ops[1..], q)
  }

  /** The caller's clock; operations without one leave it alone. */
  function ClockMs(op: Op, before: nat): nat {
    if op.OpDelete? then before else op.nowMs
  }

  ghost predicate InOrder(ops: seq<Op>, t: nat)
    decreases |ops|
  {
    ops == [] || (t <= ClockMs(ops[0], t) && InOrder(ops[1..], ClockMs(ops[0], t)))
  }

  function LastMs(ops: seq<Op>, t: nat): nat
    decreases |ops|
  {
    if ops == [] then t else LastMs(ops[1..], ClockMs(ops[0], t))
  }

  /** Pruning at time t would keep a key seen at the given time. */
  predicate Unpruned(nowMs: nat, t: nat) {
    t < WINDOW || Ms(nowMs) > Ms(t - WINDOW)
  }

  ghost predicate InHistory(k: Key, history: seq<Accepted>, q: string) {
    exists i :: 0 <= i < |history| && k == KeyOf(q, history[i])
  }

  /** Keys come from the history, and everything not yet prunable at time t is still there. */
  ghost predicate KeysTrack(keys: set<Key>, history: seq<Accepted>, q: string, t: nat) {
    && (forall k :: k in keys && k.queue == q ==> InHistory(k, history, q))
    && (forall i :: 0 <= i < |history| && Unpruned(history[i].nowMs, t) ==> KeyOf(q, history[i]) in keys)
  }

  /** Sends are recorded in time order, each with a newer row than the one before. */
  ghost predicate HistoryOk(history: seq<Accepted>, next: nat, t: nat) {
    && (forall i :: 0 <= i < |history| ==> history[i].nowMs <= t && history[i].sequence < next && history[i].group != "")
    && (forall i, j :: 0 <= i < j < |history| ==>
          history[i].nowMs <= history[j].nowMs && history[i].sequence < history[j].sequence)
  }

  lemma KeysTrackLater(keys: set<Key>, history: seq<Accepted>, q: string, t: nat, later: nat)
    requires KeysTrack(keys, history, q, t) && t <= later
    ensures KeysTrack(keys, history, q, later)
  {
  }

  // ----- one operation

  lemma {:induction false} MoveBackKeys(db: Db, source: string, now: nat, order: seq<nat>)
    ensures MoveBack(db, source, now, order).keys == db.keys
    decreases |order|
  {
    if order != [] && order[0] in db.messages { MoveBackKeys(MoveMessage(db, order[0], source, now, true, true), source, now, order[1..]); }
  }

  lemma FreshKeys(e: Db, q: string, maximum: nat, o: ReceiveOptions, visibility: nat, now: nat, cacheEmpty: bool)
    requires Inv(e) && q in e.queues
    ensures ReceiveFresh(e, q, maximum, o, visibility, now, cacheEmpty).db.keys == e.keys
  {
    CollectReceivedKeeps(e, q, Limit(e, q, maximum, now), visibility, now);
  }

  lemma ReceiveKeys(db: Db, op: Op)
    requires Inv(db) && op.OpReceive?
    ensures Step(db, op).keys == db.keys
  {
    var stage := ReceiveStage(db, op);
    match stage
    case RolledBack =>
    case Replaying(_) =>
    case Collecting(e, visibility) => FreshKeys(e, op.queue, op.maximum, op.options, visibility, Ms(op.nowMs), op.cacheEmpty);
  }

  lemma RedriveKeys(db: Db, dlq: string, source: string, maximum: nat, nowMs: nat)
    ensures RedriveDeadLetters(db, dlq, source, maximum, nowMs).db.keys == db.keys
  {
    var now := Ms(nowMs);
    var expired := ExpireMessages(ExpireMessages(db, dlq, now), source, now);
    MoveBackKeys(expired, source, now, RedriveOrder(expired, dlq, source, now, maximum));
  }

  lemma SettingsKeys(db: Db, op: Op)
    requires op.OpCreateQueue? || op.OpSetAttributes?
    ensures Step(db, op).keys == db.keys
  {
  }

  /** Only a send and a queue's deletion touch the key table. */
  lemma OtherKeys(db: Db, op: Op)
    requires Inv(db) && !op.OpSend? && !op.OpDeleteQueue?
    ensures Step(db, op).keys == db.keys
  {
    match op
    case OpReceive(_, _, _, _, _) => ReceiveKeys(db, op);
    case OpRedrive(dlq, source, maximum, nowMs) => RedriveKeys(db, dlq, source, maximum, nowMs);
    case OpCreateQueue(_, _, _, _, _) => SettingsKeys(db, op);
    case OpSetAttributes(_, _, _) => SettingsKeys(db, op);
    case OpPurge(_, _) =>
    case OpDelete(_, _) =>
    case OpChangeVisibility(_, _, _, _) =>
  }

  /** The history entry repeats this send within the window of the key table. */
  predicate Repeats(a: Accepted, dedup: string, scope: Scope, group: Option<string>, nowMs: nat) {
    a.dedup == dedup && (scope == QueueScope || group == Some(a.group)) && Unpruned(a.nowMs, nowMs)
  }

  lemma MatchingIsRepeating(db: Db, history: seq<Accepted>, q: string, t: nat, nowMs: nat, dedup: string, scope: Scope, group: Option<string>)
    requires KeysTrack(db.keys, history, q, t) && t <= nowMs && KeysOk(db)
    ensures var K := MatchingKeys(PruneKeys(db, q, nowMs), q, dedup, scope, group);
            && (forall k :: k in K ==>
                  exists i :: 0 <= i < |history| && k == KeyOf(q, history[i]) && Repeats(history[i], dedup, scope, group, nowMs))
            && (forall i :: 0 <= i < |history| && Repeats(history[i], dedup, scope, group, nowMs) ==> KeyOf(q, history[i]) in K)
  {
  }

  lemma SendKeys(db: Db, history: seq<Accepted>, op: Op, q: string, t: nat)
    requires op.OpSend? && t <= op.nowMs
    requires KeysTrack(db.keys, history, q, t) && HistoryOk(history, db.nextSequence, t)
    ensures KeysTrack(Step(db, op).keys, Extend(db, history, op, q), q, op.nowMs)
    ensures HistoryOk(Extend(db, history, op, q), Step(db, op).nextSequence, op.nowMs)
  {
    var target := op.queue;
    KeysTrackLater(db.keys, history, q, t, op.nowMs);
    if target in db.queues && PrepareSend(op.request, db.queues[target]).Prepared? {
      var p := PrepareSend(op.request, db.queues[target]);
      var ready := ReadyToSend(db, target, p, op.nowMs);
      SendShape(db, target, op.request, op.nowMs);
      ReadyKeys(db, history, target, q, p, t, op.nowMs);
      if Perform(db, op).reply.deduplicated {
        assert Extend(db, history, op, q) == history && Step(db, op) == ready;
      } else {
        ExtendedWhenAccepted(db, history, op, q);
        InsertMessageKeys(ready, target, p, Ms(op.nowMs));
        if p.dedup.Some? { PreparedGroup(op.request, db.queues[target]); }
        InsertedKeys(ready.keys, history, target, q, p, db.nextSequence, op.nowMs);
      }
    }
  }

  lemma ExtendedWhenAccepted(db: Db, history: seq<Accepted>, op: Op, q: string)
    requires op.OpSend? && op.queue in db.queues && PrepareSend(op.request, db.queues[op.queue]).Prepared?
    requires Perform(db, op).reply == Sent(MessageId(db.nextSequence), false)
    ensures Extend(db, history, op, q) == Recorded(history, op.queue, q, PrepareSend(op.request, db.queues[op.queue]), db.nextSequence, op.nowMs)
  {
    PreparedExactly(op.request, db.queues[op.queue]);
  }

  lemma InsertMessageKeys(db: Db, q: string, p: Prepared, now: nat)
    requires p.Prepared?
    ensures var d := InsertMessage(db, q, p, now);
            d.nextSequence == db.nextSequence + 1 && d.keys == KeysWith(db.keys, q, p, db.nextSequence, now)
  {
  }

  /** The history of q after a send to `target` was accepted. */
  function Recorded(history: seq<Accepted>, target: string, q: string, p: Prepared, next: nat, nowMs: nat): seq<Accepted>
    requires p.Prepared?
  {
    if target == q && p.dedup.Some? then history + [Accepted(p.dedup.value, p.request.group.GetOr(""), next, nowMs)] else history
  }

  function KeysWith(keys: set<Key>, q: string, p: Prepared, next: nat, now: nat): set<Key>
    requires p.Prepared?
  {
    if p.dedup.Some? then keys + {Key(q, p.dedup.value, p.request.group.GetOr(""), MessageId(next), now)} else keys
  }

  lemma InsertedKeys(keys: set<Key>, history: seq<Accepted>, target: string, q: string, p: Prepared, next: nat, nowMs: nat)
    requires p.Prepared? && (p.dedup.Some? ==> p.request.group.Some? && p.request.group.value != "")
    requires KeysTrack(keys, history, q, nowMs) && HistoryOk(history, next, nowMs)
    ensures KeysTrack(KeysWith(keys, target, p, next, Ms(nowMs)), Recorded(history, target, q, p, next, nowMs), q, nowMs)
    ensures HistoryOk(Recorded(history, target, q, p, next, nowMs), next + 1, nowMs)
  {
    if target == q && p.dedup.Some? {
      var a := Accepted(p.dedup.value, p.request.group.GetOr(""), next, nowMs);
      KeysTrackGrows(keys, history, q, nowMs, a);
      HistoryGrows(history, next, nowMs, a);
    }
  }

  lemma PreparedGroup(request: SendRequest, queue: Queue)
    requires PrepareSend(request, queue).Prepared? && PrepareSend(request, queue).dedup.Some?
    ensures request.group.Some? && request.group.value != ""
  {
  }

  lemma HistoryGrows(history: seq<Accepted>, next: nat, t: nat, a: Accepted)
    requires HistoryOk(history, next, t) && a.nowMs == t && a.sequence == next && a.group != ""
    ensures HistoryOk(history + [a], next + 1, t)
  {
  }

  lemma ReadyKeys(db: Db, history: seq<Accepted>, target: string, q: string, p: Prepared, t: nat, nowMs: nat)
    requires p.Prepared? && KeysTrack(db.keys, history, q, t) && t <= nowMs
    ensures KeysTrack(ReadyToSend(db, target, p, nowMs).keys, history, q, nowMs)
  {
  }

  lemma KeysTrackGrows(keys: set<Key>, history: seq<Accepted>, q: string, t: nat, a: Accepted)
    requires KeysTrack(keys, history, q, t)
    ensures KeysTrack(keys + {KeyOf(q, a)}, history + [a], q, t)
  {
    var after := history + [a];
    forall k | k in keys + {KeyOf(q, a)} && k.queue == q ensures InHistory(k, after, q) {
      if k in keys {
        assert InHistory(k, history, q);
        var i :| 0 <= i < |history| && k == KeyOf(q, history[i]);
        assert after[i] == history[i];
      } else {
        assert k == KeyOf(q, after[|history|]);
      }
    }
  }

  lemma StepTracks(db: Db, history: seq<Accepted>, op: Op, q: string, t: nat)
    requires Inv(db) && t <= ClockMs(op, t)
    requires KeysTrack(db.keys, history, q, t) && HistoryOk(history, db.nextSequence, t)
    ensures KeysTrack(Step(db, op).keys, Extend(db, history, op, q), q, ClockMs(op, t))
    ensures HistoryOk(Extend(db, history, op, q), Step(db, op).nextSequence, ClockMs(op, t))
  {
    KeysTrackLater(db.keys, history, q, t, ClockMs(op, t));
    if op.OpSend? {
      SendKeys(db, history, op, q, t);
    } else if !op.OpDeleteQueue? {
      OtherKeys(db, op);
      StepEvolves(db, op);
    }
  }

  lemma {:induction false} RunTracks(db: Db, history: seq<Accepted>, ops: seq<Op>, q: string, t: nat)
    requires Inv(db) && KeysTrack(db.keys, history, q, t) && HistoryOk(history, db.nextSequence, t) && InOrder(ops, t)
    ensures var d := Run(db, ops);
            var h := HistoryOf(db, history, ops, q);
            Inv(d) && KeysTrack(d.keys, h, q, LastMs(ops, t)) && HistoryOk(h, d.nextSequence, LastMs(ops, t))
    decreases |ops|
  {
    if ops != [] {
      StepKeeps(db, ops[0]);
      StepTracks(db, history, ops[0], q, t);
      RunTracks(Step(db, ops[0]), Extend(db, history, ops[0], q), ops[1..], q, ClockMs(ops[0], t));
    }
  }

  // ----- the decision

  ghost predicate IsFirstRepeat(history: seq<Accepted>, i: nat, dedup: string, scope: Scope, group: Option<string>, nowMs: nat) {
    i < |history| && Repeats(history[i], dedup, scope, group, nowMs)
    && forall j :: 0 <= j < i ==> !Repeats(history[j], dedup, scope, group, nowMs)
  }

  lemma FirstRepeatExists(history: seq<Accepted>, i: nat, dedup: string, scope: Scope, group: Option<string>, nowMs: nat) returns (first: nat)
    requires i < |history| && Repeats(history[i], dedup, scope, group, nowMs)
    ensures IsFirstRepeat(history, first, dedup, scope, group, nowMs)
  {
    first := 0;
    while !Repeats(history[first], dedup, scope, group, nowMs)
      decreases i - first
      invariant first <= i && forall j :: 0 <= j < first ==> !Repeats(history[j], dedup, scope, group, nowMs)
    {
      first := first + 1;
    }
  }

  /** The oldest key is the key of the first entry that repeats. */
  lemma OldestIsFirst(history: seq<Accepted>, q: string, K: set<Key>, first: nat, next: nat, t: nat,
                      dedup: string, scope: Scope, group: Option<string>, nowMs: nat)
    requires HistoryOk(history, next, t) && next <= ID_LIMIT
    requires IsFirstRepeat(history, first, dedup, scope, group, nowMs) && KeyOf(q, history[first]) in K
    requires forall k :: k in K ==>
               exists i :: 0 <= i < |history| && k == KeyOf(q, history[i]) && Repeats(history[i], dedup, scope, group, nowMs)
    ensures OldestId(K) == MessageId(history[first].sequence)
  {
    var best := KeyOf(q, history[first]);
    forall o | o in K ensures !KeyBefore(o, best) {
      var i :| 0 <= i < |history| && o == KeyOf(q, history[i]) && Repeats(history[i], dedup, scope, group, nowMs);
      if i != first {
        MessageIdsAreOrdered(history[first].sequence, history[i].sequence);
        TextLessTotal(best.id, o.id);
      } else {
        TextLessTotal(o.id, o.id);
      }
    }
    assert IsOldest(best.id, K);
    OldestUnique(K);
  }

  /**
   * After any run with times in order, a send with a deduplication id is a duplicate exactly
   * when an earlier accepted send in scope repeats within the window, and it answers with the
   * id of the first such send.
   */
  lemma DuplicateExactly(ops: seq<Op>, q: string, request: SendRequest, nowMs: nat)
    requires InOrder(ops, 0) && LastMs(ops, 0) <= nowMs
    requires var db := Run(EMPTY, ops);
             q in db.queues && db.queues[q].kind == Fifo && Admissible(request, db.queues[q])
             && db.nextSequence <= ID_LIMIT
    ensures var db := Run(EMPTY, ops);
            var history := HistoryOf(EMPTY, [], ops, q);
            var dedup := DeduplicationId(request, db.queues[q]).value;
            var scope := db.queues[q].settings.scope;
            var reply := Send(db, q, request, nowMs).reply;
            && reply.Sent?
            && (reply.deduplicated <==> exists i :: 0 <= i < |history| && Repeats(history[i], dedup, scope, request.group, nowMs))
            && (reply.deduplicated ==>
                  exists i: nat :: IsFirstRepeat(history, i, dedup, scope, request.group, nowMs) && reply.id == MessageId(history[i].sequence))
            && (!reply.deduplicated ==> reply.id == MessageId(db.nextSequence))
  {
    var db := Run(EMPTY, ops);
    var history := HistoryOf(EMPTY, [], ops, q);
    assert Inv(EMPTY);
    RunTracks(EMPTY, [], ops, q, 0);
    DecideSend(db, history, q, request, LastMs(ops, 0), nowMs);
  }

  lemma DecideSend(db: Db, history: seq<Accepted>, q: string, request: SendRequest, t: nat, nowMs: nat)
    requires Inv(db) && KeysTrack(db.keys, history, q, t) && HistoryOk(history, db.nextSequence, t) && t <= nowMs
    requires q in db.queues && db.queues[q].kind == Fifo && Admissible(request, db.queues[q])
    requires db.nextSequence <= ID_LIMIT
    ensures var dedup := DeduplicationId(request, db.queues[q]).value;
            var scope := db.queues[q].settings.scope;
            var reply := Send(db, q, request, nowMs).reply;
            && reply.Sent?
            && (reply.deduplicated <==> exists i :: 0 <= i < |history| && Repeats(history[i], dedup, scope, request.group, nowMs))
            && (reply.deduplicated ==>
                  exists i: nat :: IsFirstRepeat(history, i, dedup, scope, request.group, nowMs) && reply.id == MessageId(history[i].sequence))
            && (!reply.deduplicated ==> reply.id == MessageId(db.nextSequence))
  {
    PreparedExactly(request, db.queues[q]);
    var dedup, scope := DeduplicationId(request, db.queues[q]).value, db.queues[q].settings.scope;
    var expired := ExpireMessages(db, q, Ms(nowMs));
    SendShape(db, q, request, nowMs);
    ExpireKeeps(db, q, Ms(nowMs));
    MatchingIsRepeating(expired, history, q, t, nowMs, dedup, scope, request.group);
    var K := MatchingKeys(PruneKeys(expired, q, nowMs), q, dedup, scope, request.group);
    if K != {} {
      var k :| k in K;
      var i :| 0 <= i < |history| && k == KeyOf(q, history[i]) && Repeats(history[i], dedup, scope, request.group, nowMs);
      var first := FirstRepeatExists(history, i, dedup, scope, request.group, nowMs);
      OldestIsFirst(history, q, K, first, db.nextSequence, t, dedup, scope, request.group, nowMs);
    }
  }

  /**
   * The window of the key table is five minutes of the caller's clock exactly for times below
   * i64::MAX + 300000; from there on the clamped column makes every earlier send look old.
   */
  lemma WindowIsExact(nowMs: nat)
    ensures (forall sentMs: nat :: sentMs <= nowMs ==> (Unpruned(sentMs, nowMs) <==> nowMs - sentMs < 300_000))
            <==> nowMs < 0x7fff_ffff_ffff_ffff + 300_000
  {
    if nowMs >= I64_MAX + WINDOW {
      assert !Unpruned(nowMs, nowMs);
    }
  }

  /** The same dedup id in scope, less than five minutes ago. */
  predicate RepeatsRecently(a: Accepted, dedup: string, scope: Scope, group: Option<string>, nowMs: nat) {
    a.dedup == dedup && (scope == QueueScope || group == Some(a.group)) && nowMs - a.nowMs < 300_000
  }

  /** Said in the caller's clock: below i64::MAX + 300000, a duplicate is a repeat within 300000 milliseconds. */
  lemma DuplicateWithinFiveMinutes(ops: seq<Op>, q: string, request: SendRequest, nowMs: nat)
    requires InOrder(ops, 0) && LastMs(ops, 0) <= nowMs < 0x7fff_ffff_ffff_ffff + 300_000
    requires var db := Run(EMPTY, ops);
             q in db.queues && db.queues[q].kind == Fifo && Admissible(request, db.queues[q])
             && db.nextSequence <= ID_LIMIT
    ensures var db := Run(EMPTY, ops);
            var history := HistoryOf(EMPTY, [], ops, q);
            var dedup := DeduplicationId(request, db.queues[q]).value;
            var reply := Send(db, q, request, nowMs).reply;
            && reply.Sent?
            && (reply.deduplicated <==>
                exists i :: 0 <= i < |history| && RepeatsRecently(history[i], dedup, db.queues[q].settings.scope, request.group, nowMs))
  {
    var db := Run(EMPTY, ops);
    var history := HistoryOf(EMPTY, [], ops, q);
    var dedup, scope := DeduplicationId(request, db.queues[q]).value, db.queues[q].settings.scope;
    DuplicateExactly(ops, q, request, nowMs);
    assert Inv(EMPTY);
    RunTracks(EMPTY, [], ops, q, 0);
    WindowIsExact(nowMs);
    forall i | 0 <= i < |history|
      ensures Repeats(history[i], dedup, scope, request.group, nowMs) <==> RepeatsRecently(history[i], dedup, scope, request.group, nowMs)
    {
      assert history[i].nowMs <= nowMs;
    }
  }
}
