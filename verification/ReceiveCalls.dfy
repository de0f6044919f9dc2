/** What a fresh receive answers and leaves behind, said from the request, the tables and the time alone. */
module ReceiveCalls {
  import opened Identifiers
  import opened Ordering
  import opened Tables
  import opened Terms
  import opened ReceivePlan
  import opened Blocks
  import opened PlanFacts
  import opened Operations
  import opened Invariants
  import opened Preservation
  import opened Receiving
  import opened ReceiveTheorems
  import opened Runs
  import opened History
  import opened SendCalls

  // ----- the request

  /** What is demanded of a receive. */
  predicate Acceptable(db: Db, op: Op)
    requires op.OpReceive?
  {
    && 1 <= op.maximum <= 10 && op.queue in db.queues
    && (op.options.visibility.Some? ==> op.options.visibility.value <= 43_200_000)
    && (op.options.attemptId.Some? ==> db.queues[op.queue].kind == Fifo && Printable(op.options.attemptId.value))
  }

  /** How long delivered messages are hidden: as the receiver asked, or as the queue does. */
  function Timeout(db: Db, op: Op): nat
    requires op.OpReceive? && op.queue in db.queues
  {
    match op.options.visibility
    case Some(visibility) => visibility
    case None => db.queues[op.queue].settings.visibility
  }

  /** An attempt with this id was recorded less than five minutes ago. */
  predicate Remembered(db: Db, op: Op)
    requires op.OpReceive?
  {
    && op.options.attemptId.Some? && (op.queue, op.options.attemptId.value) in db.attempts
    && Capped(op.nowMs) < db.attempts[(op.queue, op.options.attemptId.value)].createdAt + 300_000
  }

  lemma AcceptableIsValid(db: Db, op: Op)
    requires op.OpReceive? && op.queue in db.queues
    ensures Acceptable(db, op) <==> 1 <= op.maximum <= 10 && OptionsError(op.options, db.queues[op.queue].kind).None?
  {
    if op.options.attemptId.Some? { PrintableIsValid(op.options.attemptId.value); }
  }

  /** An unacceptable receive changes nothing and names the first thing that is wrong. */
  lemma ReceiveRefused(db: Db, op: Op)
    requires op.OpReceive? && !Acceptable(db, op)
    ensures Perform(db, op)
         == Result(db, Failed(if !(1 <= op.maximum <= 10) then InvalidReceiveOptions
                              else if op.queue !in db.queues then QueueNotFound
                              else if op.options.visibility.Some? && op.options.visibility.value > 43_200_000 then InvalidDeliveryOptions
                              else if db.queues[op.queue].kind == Standard then InvalidDeliveryOptions
                              else InvalidMessageIdentifier))
  {
    if op.queue in db.queues { AcceptableIsValid(db, op); }
    if op.options.attemptId.Some? { PrintableIsValid(op.options.attemptId.value); }
  }

  /** The database in which a receive collects: old rows of the queue and old records are gone. */
  function ReadyFor(db: Db, q: string, nowMs: nat): Db {
    PruneAttempts(ExpireMessages(db, q, Ms(nowMs)), q, Ms(nowMs))
  }

  /** Without a young record of its attempt a receive collects. */
  lemma FreshCollects(db: Db, op: Op)
    requires Inv(db) && op.OpReceive? && Acceptable(db, op) && !Remembered(db, op)
    ensures Cleared(db, ReadyFor(db, op.queue, op.nowMs), op.queue, Ms(op.nowMs))
    ensures Perform(db, op)
         == ReceiveFresh(ReadyFor(db, op.queue, op.nowMs), op.queue, op.maximum, op.options, Timeout(db, op), Ms(op.nowMs), op.cacheEmpty)
  {
    AcceptableIsValid(db, op);
    ClearedByExpiry(db, op.queue, Ms(op.nowMs));
    ClearedByPruning(db, ExpireMessages(db, op.queue, Ms(op.nowMs)), op.queue, Ms(op.nowMs));
    PerformReceive(db, op);
    FreshPage(db, op);
  }

  lemma FreshPage(db: Db, op: Op)
    requires op.OpReceive? && op.queue in db.queues && 1 <= op.maximum <= 10 && !Remembered(db, op)
    requires OptionsError(op.options, db.queues[op.queue].kind).None?
    ensures ReceivePage(db, op.queue, op.maximum, op.options, op.nowMs, op.cacheEmpty)
         == ReceiveFresh(ReadyFor(db, op.queue, op.nowMs), op.queue, op.maximum, op.options, Timeout(db, op), Ms(op.nowMs), op.cacheEmpty)
  {
  }

  lemma ReadyForDrops(db: Db, q: string, nowMs: nat)
    ensures var e := ReadyFor(db, q, nowMs);
            && e.queues == db.queues && e.policies == db.policies && e.nextSequence == db.nextSequence && e.keys == db.keys
            && (forall s :: s in e.messages <==> s in db.messages && !(db.messages[s].queue == q && TooOld(db, s, nowMs)))
            && (forall s :: s in e.messages ==> e.messages[s] == db.messages[s] && Origin(e, s) == Origin(db, s))
  {
  }

  // ----- the quota

  lemma InFlightCounted(db: Db, q: string, nowMs: nat)
    ensures CountInFlight(ReadyFor(db, q, nowMs), q, Ms(nowMs)) == |InFlightRows(db, q, nowMs)|
  {
    var e, now := ReadyFor(db, q, nowMs), Ms(nowMs);
    ReadyForDrops(db, q, nowMs);
    assert (set s | s in Hidden(e, q, now) && !Expired(e, e.messages[s], now)) == InFlightRows(db, q, nowMs);
  }

  /** How many more messages may be in flight. */
  function Room(db: Db, q: string, nowMs: nat): nat
    requires q in db.queues
  {
    var quota, inFlight := db.queues[q].settings.maxInFlight, |InFlightRows(db, q, nowMs)|;
    if inFlight < quota then quota - inFlight else 0
  }

  // ----- what can be handed out

  /** Within retention and visible, and on a FIFO queue so is everything older of its group. */
  predicate AtHand(db: Db, q: string, s: nat, nowMs: nat)
    requires q in db.queues
  {
    && Present(db, q, s, nowMs) && Visible(db.messages[s], nowMs)
    && (db.queues[q].kind == Fifo ==>
          forall e | e in db.messages && e < s && Present(db, q, e, nowMs) && db.messages[e].group == db.messages[s].group ::
            Visible(db.messages[e], nowMs))
  }

  /** Received as often as the queue's policy allows. */
  predicate WornOut(db: Db, q: string, s: nat)
    requires s in db.messages
  {
    q in db.policies && db.policies[q].maxReceiveCount <= db.messages[s].count
  }

  /** The messages a receive could hand out now. */
  function Deliverables(db: Db, q: string, nowMs: nat): set<nat>
    requires q in db.queues
  {
    set s | s in db.messages && AtHand(db, q, s, nowMs) && !WornOut(db, q, s)
  }

  lemma ServedIsAtHand(db: Db, q: string, nowMs: nat, s: nat)
    requires q in db.queues && db.queues[q].kind == Fifo
    ensures var e := ReadyFor(db, q, nowMs); Served(e.messages, Rows(e, q), Ms(nowMs), s) <==> AtHand(db, q, s, nowMs)
  {
    ReadyForDrops(db, q, nowMs);
  }

  lemma ReceivableIsAtHand(db: Db, q: string, nowMs: nat, s: nat)
    requires q in db.queues && db.queues[q].kind == Standard
    ensures var e := ReadyFor(db, q, nowMs); s in ReceivableIn(e.messages, Rows(e, q), Ms(nowMs)) <==> AtHand(db, q, s, nowMs)
  {
    ReadyForDrops(db, q, nowMs);
  }

  /** The plan of a receive holds exactly the rows at hand. */
  lemma PlanIsAtHand(db: Db, q: string, nowMs: nat)
    requires q in db.queues
    ensures forall s :: s in ReceiveOrder(ReadyFor(db, q, nowMs), q, Ms(nowMs)) <==> AtHand(db, q, s, nowMs)
  {
    var e, now := ReadyFor(db, q, nowMs), Ms(nowMs);
    FifoPlanMembers(e.messages, Rows(e, q), now, PolicyOf(e, q));
    forall s ensures s in ReceiveOrder(e, q, now) <==> AtHand(db, q, s, nowMs) {
      if db.queues[q].kind == Fifo { ServedIsAtHand(db, q, nowMs, s); } else { ReceivableIsAtHand(db, q, nowMs, s); }
    }
  }

  lemma {:induction false} DistinctDeliveries(rows: map<nat, Row>, plan: seq<nat>, policy: Option<Policy>)
    requires Distinct(plan)
    ensures Distinct(Deliveries(rows, plan, policy))
  {
    if plan != [] {
      assert Distinct(plan[1..]);
      DistinctDeliveries(rows, plan[1..], policy);
      DeliveriesMembers(rows, plan[1..], policy);
    }
  }

  lemma {:induction false} DistinctCount(order: seq<nat>, S: set<nat>)
    requires Distinct(order) && forall s :: s in order <==> s in S
    ensures |order| == |S|
  {
    if order == [] {
      assert S == {};
    } else {
      var rest := order[1..];
      assert order == [order[0]] + rest && order[0] !in rest;
      assert Distinct(rest);
      DistinctCount(rest, S - {order[0]});
    }
  }

  /** All that the plan could deliver, were there no limit: exactly the deliverable messages, once each. */
  lemma PlanDelivers(db: Db, q: string, nowMs: nat)
    requires q in db.queues
    ensures var e := ReadyFor(db, q, nowMs);
            var all := Deliveries(e.messages, ReceiveOrder(e, q, Ms(nowMs)), PolicyOf(e, q));
            Distinct(all) && (forall s :: s in all <==> s in Deliverables(db, q, nowMs)) && |all| == |Deliverables(db, q, nowMs)|
  {
    var e := ReadyFor(db, q, nowMs);
    var plan := ReceiveOrder(e, q, Ms(nowMs));
    ReadyForDrops(db, q, nowMs);
    PlanIsAtHand(db, q, nowMs);
    DeliveriesMembers(e.messages, plan, PolicyOf(e, q));
    DistinctDeliveries(e.messages, plan, PolicyOf(e, q));
    DistinctCount(Deliveries(e.messages, plan, PolicyOf(e, q)), Deliverables(db, q, nowMs));
  }

  function Lesser(a: nat, b: nat): nat {
    if a <= b then a else b
  }

  /**
    * How many messages a receive hands out: what was asked for, what the quota leaves room for or what there is,
    * whichever is least; but a standard receive that does not hide what it hands out stops after one.
    */
  function Share(db: Db, op: Op): nat
    requires op.OpReceive? && op.queue in db.queues
  {
    var n := Lesser(Lesser(op.maximum, Room(db, op.queue, op.nowMs)), |Deliverables(db, op.queue, op.nowMs)|);
    if db.queues[op.queue].kind == Standard && After(op.nowMs, Timeout(db, op)) <= Capped(op.nowMs) then Lesser(n, 1) else n
  }

  predicate OverQuota(db: Db, op: Op)
    requires op.OpReceive? && op.queue in db.queues
  {
    db.queues[op.queue].kind == Standard && Room(db, op.queue, op.nowMs) == 0
  }

  lemma FirstOfDistinct(order: seq<nat>, limit: nat)
    requires Distinct(order)
    ensures var first := First(order, limit);
            |first| == Lesser(|order|, limit) && Distinct(first) && forall s :: s in first ==> s in order
  {
  }

  lemma CapAndLimit(db: Db, op: Op)
    requires op.OpReceive? && op.queue in db.queues
    ensures var q, now := op.queue, Ms(op.nowMs);
            var e, limit := ReadyFor(db, q, op.nowMs), Lesser(op.maximum, Room(db, q, op.nowMs));
            && q in e.queues && Limit(e, q, op.maximum, now) == limit
            && Cap(Kind(e, q), Timeout(db, op), now, limit)
               == if db.queues[q].kind == Standard && After(op.nowMs, Timeout(db, op)) <= Capped(op.nowMs) then Lesser(limit, 1) else limit
  {
    ReadyForDrops(db, op.queue, op.nowMs);
    InFlightCounted(db, op.queue, op.nowMs);
    TimesAreCapped(op.nowMs, Timeout(db, op));
  }

  lemma AnswerIsShare(db: Db, op: Op)
    requires Inv(db) && op.OpReceive? && Acceptable(db, op) && !Remembered(db, op)
    ensures var q, now := op.queue, Ms(op.nowMs);
            var e := ReadyFor(db, q, op.nowMs);
            var answer := Answer(e, q, Timeout(db, op), now, Limit(e, q, op.maximum, now));
            && |answer| == Share(db, op) && Distinct(answer)
            && forall s :: s in answer ==> s in Deliverables(db, q, op.nowMs)
  {
    var q, now := op.queue, Ms(op.nowMs);
    var e := ReadyFor(db, q, op.nowMs);
    CapAndLimit(db, op);
    PlanDelivers(db, q, op.nowMs);
    FirstOfDistinct(Deliveries(e.messages, ReceiveOrder(e, q, now), PolicyOf(e, q)),
                    Cap(Kind(e, q), Timeout(db, op), now, Limit(e, q, op.maximum, now)));
  }

  /**
    * A fresh receive is refused exactly on a standard queue without room; otherwise its page has exactly its share
    * of messages, and is complete if it has any or the caller's cache was empty.
    */
  lemma FreshAnswers(db: Db, op: Op)
    requires Inv(db) && op.OpReceive? && Acceptable(db, op) && !Remembered(db, op)
    ensures var reply := Perform(db, op).reply;
            if OverQuota(db, op) then reply == Failed(OverLimit)
            else reply.Page? && |reply.messages| == Share(db, op) && (reply.complete <==> reply.messages != [] || op.cacheEmpty)
  {
    var q, now := op.queue, Ms(op.nowMs);
    var e := ReadyFor(db, q, op.nowMs);
    FreshCollects(db, op);
    InFlightCounted(db, q, op.nowMs);
    ReadyForDrops(db, q, op.nowMs);
    AnswerIsShare(db, op);
    ReceiveDeliversAnswer(e, q, Limit(e, q, op.maximum, now), Timeout(db, op), now);
  }

  // ----- what is handed out

  /** r is row s of db as handing it out leaves it. */
  predicate HandedOut(db: Db, s: nat, r: Row, timeout: nat, nowMs: nat) {
    && s in db.messages
    && (var o := db.messages[s];
        && r == o.(handle := r.handle, invisibleUntil := r.invisibleUntil, count := o.count + 1, total := o.total + 1,
                   firstReceived := r.firstReceived)
        && r.handle == Some(ReceiptHandle(s, o.count + 1, Capped(nowMs))) && r.invisibleUntil == Some(After(nowMs, timeout))
        && r.firstReceived == if o.firstReceived.Some? then o.firstReceived else Some(Capped(nowMs)))
  }

  /** The message tells what its row holds. */
  predicate Tells(d: Db, s: nat, m: Received) {
    && s in d.messages
    && (var r := d.messages[s];
        && r.queue in d.queues
        && m.id == r.id && r.handle == Some(m.handle) && m.body == r.body && m.group == r.group && m.attributes == r.attributes
        && m.count == r.count % 0x1_0000_0000 && m.total == r.total
        && m.sent == r.createdAt && r.firstReceived == Some(m.firstReceived)
        && (match d.queues[r.queue].kind
            case Fifo => m.sequenceNumber.Some? && m.id == MessageId(m.sequenceNumber.value) && m.dedup == r.dedup
            case Standard => m.sequenceNumber.None? && m.dedup.None?)
        && (m.deadLetterSource.Some? <==> s in d.origins) && (s in d.origins ==> m.deadLetterSource == Some(d.origins[s])))
  }

  /** Reading a delivered row tells what it holds. */
  lemma ViewTells(d: Db, s: nat)
    requires Inv(d) && s in d.messages && d.messages[s].count > 0
    ensures Tells(d, s, ViewRow(d, s))
  {
    assert RowOk(d, s);
    var k: nat :| 1 <= k <= s && d.messages[s].id == MessageId(k);
    MessageIdRoundTrip(k);
  }

  /** Every message of a page, fresh or replayed, is one that a row of the queue shows afterwards. */
  lemma PageShows(db: Db, op: Op, m: Received) returns (s: nat)
    requires Inv(db) && op.OpReceive? && Perform(db, op).reply.Page? && m in Perform(db, op).reply.messages
    ensures var d := Step(db, op); Tells(d, s, m) && d.messages[s].queue == op.queue
  {
    var d, q, now := Step(db, op), op.queue, Ms(op.nowMs);
    StepKeeps(db, op);
    assert Shown(d, q, m) by { PageIsShown(db, op, m); }
    s :| s in d.messages && d.messages[s].queue == q && d.messages[s].handle == Some(m.handle) && m == ViewRow(d, s);
    assert RowOk(d, s);
    ViewTells(d, s);
  }

  /** What each stage of a receive answers. */
  lemma StageReplies(db: Db, op: Op)
    requires op.OpReceive?
    ensures var q, now := op.queue, Ms(op.nowMs);
            match StageOf(db, op)
            case RolledBack => !Perform(db, op).reply.Page?
            case Replaying(e) =>
              q in e.queues && e.queues == db.queues
              && (var r := ReplayAttempt(e, q, op.options, op.maximum, now); r.Replayed? && Perform(db, op) == Result(r.db, Page(r.messages, true)))
            case Collecting(e, visibility) =>
              q in e.queues && e.queues == db.queues
              && Perform(db, op) == ReceiveFresh(e, q, op.maximum, op.options, visibility, now, op.cacheEmpty)
  {
  }

  lemma PageIsShown(db: Db, op: Op, m: Received)
    requires Inv(db) && op.OpReceive? && Perform(db, op).reply.Page? && m in Perform(db, op).reply.messages
    ensures Shown(Step(db, op), op.queue, m)
  {
    var q, now := op.queue, Ms(op.nowMs);
    StageReplies(db, op);
    match StageOf(db, op)
    case RolledBack =>
    case Replaying(e) =>
      StageCleared(db, op, e);
      ReplayShows(e, q, op.options, op.maximum, now, m);
    case Collecting(e, visibility) =>
      StageCleared(db, op, e);
      FreshIsShown(e, q, op.maximum, op.options, visibility, now, op.cacheEmpty, m);
  }

  /** A receive that was not refused leaves what its collecting leaves. */
  lemma FreshLeaves(e: Db, q: string, maximum: nat, o: ReceiveOptions, visibility: nat, now: nat, cacheEmpty: bool)
    requires q in e.queues && ReceiveFresh(e, q, maximum, o, visibility, now, cacheEmpty).reply.Page?
    ensures var r, c := ReceiveFresh(e, q, maximum, o, visibility, now, cacheEmpty), CollectReceived(e, q, Limit(e, q, maximum, now), visibility, now);
            r.db == c.db.(attempts := r.db.attempts) && r.reply.messages == c.received
  {
  }

  lemma FreshIsShown(e: Db, q: string, maximum: nat, o: ReceiveOptions, visibility: nat, now: nat, cacheEmpty: bool, m: Received)
    requires Inv(e) && q in e.queues
    requires var r := ReceiveFresh(e, q, maximum, o, visibility, now, cacheEmpty); r.reply.Page? && m in r.reply.messages
    ensures Shown(ReceiveFresh(e, q, maximum, o, visibility, now, cacheEmpty).db, q, m)
  {
    var limit := Limit(e, q, maximum, now);
    CollectReceivedKeeps(e, q, limit, visibility, now);
    FreshLeaves(e, q, maximum, o, visibility, now, cacheEmpty);
    ShownFrame(CollectReceived(e, q, limit, visibility, now).db, ReceiveFresh(e, q, maximum, o, visibility, now, cacheEmpty).db, q, m);
  }

  /** No page, fresh or replayed, has more messages than were asked for. */
  lemma PageHasAtMost(db: Db, op: Op)
    requires Inv(db) && op.OpReceive? && Perform(db, op).reply.Page?
    ensures |Perform(db, op).reply.messages| <= op.maximum
  {
    StageReplies(db, op);
    match StageOf(db, op)
    case RolledBack =>
    case Replaying(e) =>
      StageCleared(db, op, e);
      ReplayHasAtMost(e, op.queue, op.options, op.maximum, Ms(op.nowMs));
    case Collecting(e, visibility) =>
      StageCleared(db, op, e);
      FreshHasAtMost(e, op.queue, op.maximum, op.options, visibility, Ms(op.nowMs), op.cacheEmpty);
  }

  lemma ReplayHasAtMost(e: Db, q: string, o: ReceiveOptions, maximum: nat, now: nat)
    requires Inv(e) && q in e.queues && ReplayAttempt(e, q, o, maximum, now).Replayed?
    ensures |ReplayAttempt(e, q, o, maximum, now).messages| <= maximum
  {
    assert AttemptOk(e, (q, o.attemptId.value));
  }

  lemma FreshHasAtMost(e: Db, q: string, maximum: nat, o: ReceiveOptions, visibility: nat, now: nat, cacheEmpty: bool)
    requires Inv(e) && q in e.queues && ReceiveFresh(e, q, maximum, o, visibility, now, cacheEmpty).reply.Page?
    ensures |ReceiveFresh(e, q, maximum, o, visibility, now, cacheEmpty).reply.messages| <= maximum
  {
    CollectReceivedAtMost(e, q, Limit(e, q, maximum, now), visibility, now);
  }

  /** No page, fresh or replayed, has a message that outlived its queue's retention. */
  lemma PageHasNothingOld(db: Db, op: Op, m: Received)
    requires Inv(db) && op.OpReceive? && Perform(db, op).reply.Page? && m in Perform(db, op).reply.messages
    ensures op.queue in db.queues && Capped(op.nowMs) < m.sent + db.queues[op.queue].settings.retention
  {
    var q, now := op.queue, Ms(op.nowMs);
    StageReplies(db, op);
    match StageOf(db, op)
    case RolledBack =>
    case Replaying(e) =>
      StageCleared(db, op, e);
      ReplayedIsKept(db, e, q, op.options, op.maximum, now, m);
    case Collecting(e, visibility) =>
      StageCleared(db, op, e);
      FreshIsKept(db, e, q, op.maximum, op.options, visibility, now, op.cacheEmpty, m);
  }

  lemma FreshIsKept(db: Db, e: Db, q: string, maximum: nat, o: ReceiveOptions, visibility: nat, now: nat, cacheEmpty: bool, m: Received)
    requires Cleared(db, e, q, now) && q in e.queues
    requires var r := ReceiveFresh(e, q, maximum, o, visibility, now, cacheEmpty); r.reply.Page? && m in r.reply.messages
    ensures now < m.sent + e.queues[q].settings.retention
  {
    FreshLeaves(e, q, maximum, o, visibility, now, cacheEmpty);
    CollectedIsKept(e, q, Limit(e, q, maximum, now), visibility, now, m);
  }

  lemma ReplayedIsKept(db: Db, e: Db, q: string, o: ReceiveOptions, maximum: nat, now: nat, m: Received)
    requires Cleared(db, e, q, now) && q in e.queues
    requires var r := ReplayAttempt(e, q, o, maximum, now); r.Replayed? && m in r.messages
    ensures now < m.sent + e.queues[q].settings.retention
  {
    assert AttemptOk(e, (q, o.attemptId.value));
    assert Shown(e, q, m);
    var s :| s in e.messages && e.messages[s].queue == q && e.messages[s].handle == Some(m.handle) && m == ViewRow(e, s);
  }

  lemma CollectedIsKept(e: Db, q: string, limit: nat, visibility: nat, now: nat, m: Received)
    requires Inv(e) && q in e.queues && m in CollectReceived(e, q, limit, visibility, now).received
    requires forall s :: s in e.messages && e.messages[s].queue == q ==> !Expired(e, e.messages[s], now)
    ensures now < m.sent + e.queues[q].settings.retention
  {
    var received, answer := CollectReceived(e, q, limit, visibility, now).received, Answer(e, q, visibility, now, limit);
    ReceiveDeliversAnswer(e, q, limit, visibility, now);
    var i :| 0 <= i < |received| && received[i] == m;
    AnswerFromQueue(e, q, limit, visibility, now, answer[i]);
  }

  // ----- the whole effect

  /** r is row s of db as its way into the dead-letter queue leaves it. */
  predicate Buried(db: Db, q: string, s: nat, r: Row, nowMs: nat) {
    && s in db.messages && q in db.policies && q in db.queues
    && (var o := db.messages[s];
        r == Row(o.id, db.policies[q].deadLetterQueue, o.body, o.group, o.attributes, None, None, 0, o.total, 0,
                 if db.queues[q].kind == Fifo then Capped(nowMs) else o.createdAt, Capped(nowMs), o.firstReceived, o.dedup))
  }

  /** The rows of `order` were handed out one after the other. */
  ghost predicate AllHandedOut(db: Db, d: Db, op: Op, messages: seq<Received>, order: seq<nat>)
    requires op.OpReceive? && op.queue in db.queues
  {
    && |messages| == |order|
    && forall i :: 0 <= i < |order| ==>
         && order[i] in Deliverables(db, op.queue, op.nowMs) && order[i] in d.messages
         && HandedOut(db, order[i], d.messages[order[i]], Timeout(db, op), op.nowMs)
         && Tells(d, order[i], messages[i])
  }

  /** The rows of `moved` are worn out and were appended to the dead-letter queue. */
  ghost predicate AllBuried(db: Db, d: Db, op: Op, moved: seq<nat>)
    requires op.OpReceive? && op.queue in db.queues
  {
    && d.nextSequence == db.nextSequence + |moved|
    && (forall i :: 0 <= i < |moved| ==>
          moved[i] !in d.messages && AtHand(db, op.queue, moved[i], op.nowMs) && WornOut(db, op.queue, moved[i]))
    && (forall t :: db.nextSequence <= t < d.nextSequence ==>
          && t in d.messages && Origin(d, t) == Some(op.queue)
          && Buried(db, op.queue, moved[t - db.nextSequence], d.messages[t], op.nowMs))
  }

  /** Every other row is as it was, or was too old and is gone. */
  ghost predicate OthersStay(db: Db, d: Db, op: Op, order: seq<nat>, moved: seq<nat>)
    requires op.OpReceive?
  {
    && (forall s :: s in db.messages && s !in order && s !in moved ==>
          if db.messages[s].queue == op.queue && TooOld(db, s, op.nowMs) then s !in d.messages else Untouched(db, d, s))
    && (forall t :: t in d.messages ==> t in db.messages || db.nextSequence <= t < d.nextSequence)
  }

  lemma DeliveredIsHandedOut(db: Db, s: nat, r: Row, timeout: nat, nowMs: nat)
    requires s in db.messages && r == DeliveredRow(db.messages[s], s, timeout, Ms(nowMs))
    ensures HandedOut(db, s, r, timeout, nowMs)
  {
    TimesAreCapped(nowMs, timeout);
  }

  lemma DeliveredTells(e: Db, d: Db, s: nat, m: Received, timeout: nat, now: nat)
    requires Inv(d) && d.queues == e.queues && s in e.messages && s in d.messages
    requires d.messages[s] == DeliveredRow(e.messages[s], s, timeout, now) && Origin(d, s) == Origin(e, s)
    requires m == DeliveredView(e, s, timeout, now)
    ensures Tells(d, s, m)
  {
    ViewTells(d, s);
  }

  lemma AnswerHandedOut(db: Db, d: Db, op: Op, e: Db, messages: seq<Received>, order: seq<nat>)
    requires Inv(db) && Inv(d) && op.OpReceive? && op.queue in db.queues && e == ReadyFor(db, op.queue, op.nowMs) && d.queues == e.queues
    requires Responds(e, messages, Timeout(db, op), Ms(op.nowMs), order)
    requires RowsDelivered(e, d, Timeout(db, op), Ms(op.nowMs), order)
    requires forall s :: s in order ==> s in Deliverables(db, op.queue, op.nowMs)
    ensures AllHandedOut(db, d, op, messages, order)
  {
    ReadyForDrops(db, op.queue, op.nowMs);
    forall i | 0 <= i < |order|
      ensures order[i] in Deliverables(db, op.queue, op.nowMs) && order[i] in d.messages
           && HandedOut(db, order[i], d.messages[order[i]], Timeout(db, op), op.nowMs) && Tells(d, order[i], messages[i])
    {
      assert order[i] in order;
      DeliveredIsHandedOut(db, order[i], d.messages[order[i]], Timeout(db, op), op.nowMs);
      DeliveredTells(e, d, order[i], messages[i], Timeout(db, op), Ms(op.nowMs));
    }
  }

  lemma CasualtiesBuried(db: Db, d: Db, op: Op, e: Db, moved: seq<nat>)
    requires op.OpReceive? && op.queue in db.queues && e == ReadyFor(db, op.queue, op.nowMs)
    requires RowsMoved(e, d, op.queue, PolicyOf(e, op.queue), Ms(op.nowMs), moved)
    requires forall s :: s in moved ==> AtHand(db, op.queue, s, op.nowMs) && WornOut(db, op.queue, s)
    ensures AllBuried(db, d, op, moved)
  {
    ReadyForDrops(db, op.queue, op.nowMs);
    TimesAreCapped(op.nowMs, 0);
    forall i | 0 <= i < |moved| ensures moved[i] in moved {}
  }

  lemma CasualtiesWornOut(db: Db, op: Op, limit: nat)
    requires op.OpReceive? && op.queue in db.queues
    ensures forall s :: s in Casualties(ReadyFor(db, op.queue, op.nowMs), op.queue, Timeout(db, op), Ms(op.nowMs), limit) ==>
              AtHand(db, op.queue, s, op.nowMs) && WornOut(db, op.queue, s)
  {
    var q, now := op.queue, Ms(op.nowMs);
    var e := ReadyFor(db, q, op.nowMs);
    var plan, policy := ReceiveOrder(e, q, now), PolicyOf(e, q);
    var n := Handled(e.messages, plan, policy, Cap(Kind(e, q), Timeout(db, op), now, limit));
    ReadyForDrops(db, q, op.nowMs);
    PlanIsAtHand(db, q, op.nowMs);
    DepartureMembers(e.messages, plan[..n], policy);
    forall s | s in plan[..n] ensures s in plan {}
  }

  lemma RestStays(db: Db, d: Db, op: Op, e: Db, order: seq<nat>, moved: seq<nat>)
    requires op.OpReceive? && e == ReadyFor(db, op.queue, op.nowMs) && RestKept(e, d, order, moved)
    requires forall s :: s in db.messages ==> s < db.nextSequence
    ensures OthersStay(db, d, op, order, moved)
  {
    ReadyForDrops(db, op.queue, op.nowMs);
    forall s | s in e.messages && s !in order && s !in moved ensures Untouched(db, d, s) { assert Untouched(e, d, s); }
  }

  lemma WantedIsDeliverable(db: Db, q: string, nowMs: nat)
    requires q in db.queues && db.queues[q].kind == Standard
    ensures Wanted(ReadyFor(db, q, nowMs), q, Ms(nowMs)) == Deliverables(db, q, nowMs)
  {
    ReadyForDrops(db, q, nowMs);
  }

  lemma FirstByLength(order: seq<nat>, limit: nat)
    ensures First(order, limit) == First(order, |First(order, limit)|)
  {
  }

  lemma StandardOrder(db: Db, op: Op)
    requires Inv(db) && op.OpReceive? && Acceptable(db, op) && !Remembered(db, op) && db.queues[op.queue].kind == Standard
    ensures var q, now := op.queue, Ms(op.nowMs);
            var e := ReadyFor(db, q, op.nowMs);
            Answer(e, q, Timeout(db, op), now, Limit(e, q, op.maximum, now)) == First(Ascending(Deliverables(db, q, op.nowMs)), Share(db, op))
  {
    var q, now := op.queue, Ms(op.nowMs);
    var e := ReadyFor(db, q, op.nowMs);
    AnswerIsShare(db, op);
    ReadyForDrops(db, q, op.nowMs);
    AscendingReceiveOrder(e, q, now);
    WantedIsDeliverable(db, q, op.nowMs);
    FirstByLength(Ascending(Wanted(e, q, now)), Cap(Kind(e, q), Timeout(db, op), now, Limit(e, q, op.maximum, now)));
  }

  lemma FifoOrder(db: Db, op: Op)
    requires Inv(db) && op.OpReceive? && Acceptable(db, op) && !Remembered(db, op) && db.queues[op.queue].kind == Fifo
    ensures var q, now := op.queue, Ms(op.nowMs);
            var e := ReadyFor(db, q, op.nowMs);
            var order := Answer(e, q, Timeout(db, op), now, Limit(e, q, op.maximum, now));
            InBlocks(GroupsOf(db.messages, order), order)
  {
    var q, now := op.queue, Ms(op.nowMs);
    var e := ReadyFor(db, q, op.nowMs);
    var order := Answer(e, q, Timeout(db, op), now, Limit(e, q, op.maximum, now));
    FreshCollects(db, op);
    FifoResponseInBlocks(e, q, Limit(e, q, op.maximum, now), Timeout(db, op), now);
    AnswerIsShare(db, op);
    SameGroups(db, q, op.nowMs, order);
  }

  lemma SameGroups(db: Db, q: string, nowMs: nat, order: seq<nat>)
    requires q in db.queues && forall s :: s in order ==> s in Deliverables(db, q, nowMs)
    ensures GroupsOf(ReadyFor(db, q, nowMs).messages, order) == GroupsOf(db.messages, order)
  {
    ReadyForDrops(db, q, nowMs);
    forall i | 0 <= i < |order| ensures GroupOf(ReadyFor(db, q, nowMs).messages, order[i]) == GroupOf(db.messages, order[i]) {
      assert order[i] in order;
    }
  }

  /** The outcome of the collecting is the outcome of the call. */
  lemma FreshOutcome(db: Db, op: Op)
    requires Inv(db) && op.OpReceive? && Acceptable(db, op) && !Remembered(db, op) && Perform(db, op).reply.Page?
    ensures var q, now, v := op.queue, Ms(op.nowMs), Timeout(db, op);
            var e, d := ReadyFor(db, q, op.nowMs), Step(db, op);
            var limit := Limit(e, q, op.maximum, now);
            && Inv(d) && d.queues == e.queues
            && Responds(e, Perform(db, op).reply.messages, v, now, Answer(e, q, v, now, limit))
            && Outcome(e, d, q, PolicyOf(e, q), v, now, Answer(e, q, v, now, limit), Casualties(e, q, v, now, limit))
  {
    var q, now, v := op.queue, Ms(op.nowMs), Timeout(db, op);
    var e := ReadyFor(db, q, op.nowMs);
    var limit := Limit(e, q, op.maximum, now);
    FreshCollects(db, op);
    StepKeeps(db, op);
    FreshLeaves(e, q, op.maximum, op.options, v, now, op.cacheEmpty);
    CollectReceivedKeeps(e, q, limit, v, now);
    ReceiveDeliversAnswer(e, q, limit, v, now);
    ReceiveLeavesOutcome(e, q, limit, v, now);
    OutcomeFrame(e, CollectReceived(e, q, limit, v, now).db, Step(db, op), q, PolicyOf(e, q), v, now,
                 Answer(e, q, v, now, limit), Casualties(e, q, v, now, limit));
  }

  lemma OutcomeFrame(e: Db, c: Db, d: Db, q: string, policy: Option<Policy>, visibility: nat, now: nat, delivered: seq<nat>, moved: seq<nat>)
    requires Outcome(e, c, q, policy, visibility, now, delivered, moved) && d == c.(attempts := d.attempts)
    ensures Outcome(e, d, q, policy, visibility, now, delivered, moved)
  {
    RestFrame(e, c, d, delivered, moved);
    assert RowsDelivered(e, d, visibility, now, delivered);
    MovedFrame(e, c, d, q, policy, now, moved);
  }

  lemma RestFrame(e: Db, c: Db, d: Db, delivered: seq<nat>, moved: seq<nat>)
    requires RestKept(e, c, delivered, moved) && d == c.(attempts := d.attempts)
    ensures RestKept(e, d, delivered, moved)
  {
    forall s | s in e.messages && s !in delivered && s !in moved ensures Untouched(e, d, s) { assert Untouched(e, c, s); }
  }

  lemma MovedFrame(e: Db, c: Db, d: Db, q: string, policy: Option<Policy>, now: nat, moved: seq<nat>)
    requires RowsMoved(e, c, q, policy, now, moved) && d == c.(attempts := d.attempts)
    ensures RowsMoved(e, d, q, policy, now, moved)
  {
    forall t | e.nextSequence <= t < d.nextSequence
      ensures t in d.messages && d.messages[t] == c.messages[t] && Origin(d, t) == Origin(c, t) {}
  }

  /**
    * The whole effect of a fresh receive: which rows were handed out and what the receiver was told of each, which
    * worn out rows went to the dead-letter queue, and that every other row stayed, if it was not too old. On a
    * standard queue the rows handed out are the first deliverable ones; on a FIFO queue they come in one ascending
    * block a group.
    */
  lemma FreshDelivers(db: Db, op: Op) returns (order: seq<nat>, moved: seq<nat>)
    requires Inv(db) && op.OpReceive? && Acceptable(db, op) && !Remembered(db, op) && !OverQuota(db, op)
    ensures var d, reply := Step(db, op), Perform(db, op).reply;
            && reply.Page? && |order| == Share(db, op) && Distinct(order)
            && AllHandedOut(db, d, op, reply.messages, order) && AllBuried(db, d, op, moved) && OthersStay(db, d, op, order, moved)
    ensures db.queues[op.queue].kind == Standard ==> order == First(Ascending(Deliverables(db, op.queue, op.nowMs)), Share(db, op))
    ensures db.queues[op.queue].kind == Fifo ==> InBlocks(GroupsOf(db.messages, order), order)
  {
    var q, now, v := op.queue, Ms(op.nowMs), Timeout(db, op);
    var e, d := ReadyFor(db, q, op.nowMs), Step(db, op);
    var limit := Limit(e, q, op.maximum, now);
    order, moved := Answer(e, q, v, now, limit), Casualties(e, q, v, now, limit);
    FreshAnswers(db, op);
    AnswerIsShare(db, op);
    if db.queues[q].kind == Standard { StandardOrder(db, op); } else { FifoOrder(db, op); }
    FreshOutcome(db, op);
    AnswerHandedOut(db, d, op, e, Perform(db, op).reply.messages, order);
    CasualtiesWornOut(db, op, limit);
    CasualtiesBuried(db, d, op, e, moved);
    BelowNext(db);
    RestStays(db, d, op, e, order, moved);
  }
}
