/** What a send does, said from the request, the queue's settings and the time alone. */
module SendCalls {
  import opened Identifiers
  import opened Tables
  import opened Terms
  import opened Operations
  import opened Invariants
  import opened Preservation
  import opened Runs
  import opened History

  /** What a message is deduplicated by: the sender's id, or the body's where the queue allows it; nothing on a standard queue. */
  function DeduplicationId(request: SendRequest, queue: Queue): Option<string> {
    match queue.kind
    case Standard => None
    case Fifo =>
      match request.dedup
      case Some(id) => Some(id)
      case None => if queue.settings.contentDedup then Some(request.contentId) else None
  }

  /** What the queue demands of a request. */
  predicate Admissible(request: SendRequest, queue: Queue) {
    match queue.kind
    case Fifo =>
      && request.delay.None? && request.group.Some? && Printable(request.group.value)
      && (if request.dedup.Some? then Printable(request.dedup.value) else queue.settings.contentDedup)
    case Standard =>
      && (request.delay.Some? ==> request.delay.value <= 900_000)
      && (request.group.Some? ==> Printable(request.group.value))
      && request.dedup.None?
  }

  /** How long the message is held back: as the sender asked, or as the queue does. */
  function Wait(request: SendRequest, queue: Queue): nat {
    match request.delay
    case Some(delay) => delay
    case None => queue.settings.delay
  }

  lemma PrintableIsValid(text: string)
    ensures ValidIdentifier(text) <==> Printable(text)
  {
    if Printable(text) {
      forall c | c in text ensures '!' <= c <= '~' {}
    }
    if ValidIdentifier(text) {
      forall i | 0 <= i < |text| ensures 33 <= text[i] as int <= 126 { assert text[i] in text; }
    }
  }

  /** Exactly the admissible requests are prepared, with the id and the delay they call for. */
  lemma PreparedExactly(request: SendRequest, queue: Queue)
    ensures PrepareSend(request, queue).Prepared? <==> Admissible(request, queue)
    ensures Admissible(request, queue) ==>
              && PrepareSend(request, queue) == Prepared(request, DeduplicationId(request, queue), Wait(request, queue))
              && (DeduplicationId(request, queue).Some? <==> queue.kind == Fifo)
  {
    if request.group.Some? { PrintableIsValid(request.group.value); }
    if request.dedup.Some? { PrintableIsValid(request.dedup.value); }
  }

  /** Why an inadmissible request is refused: the first of these that applies. */
  lemma RefusedBecause(request: SendRequest, queue: Queue)
    requires !Admissible(request, queue)
    ensures var fifo := queue.kind == Fifo;
            var group, dedup := request.group, request.dedup;
            var p := PrepareSend(request, queue);
            && p.Refused?
            && p.error
               == (if request.delay.Some? && (fifo || request.delay.value > 900_000) then InvalidDeliveryOptions
                   else if fifo && group.None? then FifoRequiresGroupId
                   else if fifo && group == Some("") then EmptyGroupId
                   else if (group.Some? && !Printable(group.value)) || (dedup.Some? && !Printable(dedup.value)) then InvalidMessageIdentifier
                   else if !fifo then InvalidDeliveryOptions
                   else DeduplicationIdRequired)
  {
    PreparedExactly(request, queue);
    if request.group.Some? { PrintableIsValid(request.group.value); }
    if request.dedup.Some? { PrintableIsValid(request.dedup.value); }
  }

  /** Before it looks for duplicates a send clears old rows of its queue, and no other. */
  lemma ReadyDropsTheOld(db: Db, q: string, p: Prepared, nowMs: nat, except: nat)
    requires p.Prepared?
    ensures OnlyTheOldGone(db, ReadyToSend(db, q, p, nowMs), q, nowMs, except)
  {
  }

  lemma NewRowAsAsked(q: string, p: Prepared, n: nat, nowMs: nat)
    requires p.Prepared?
    ensures NewRow(q, p, n, Ms(nowMs))
         == Row(MessageId(n), q, p.request.body, p.request.group, p.request.attributes, None, None, 0, 0, 0,
                Capped(nowMs), After(nowMs, p.delay), None, p.dedup)
  {
    TimesAreCapped(nowMs, p.delay);
  }

  lemma InsertAppends(ready: Db, q: string, p: Prepared, nowMs: nat)
    requires p.Prepared?
    ensures var d, n := InsertMessage(ready, q, p, Ms(nowMs)), ready.nextSequence;
            && d.nextSequence == n + 1 && n in d.messages && d.messages == ready.messages[n := d.messages[n]]
            && d.messages[n] == Row(MessageId(n), q, p.request.body, p.request.group, p.request.attributes, None, None, 0, 0, 0,
                                    Capped(nowMs), After(nowMs, p.delay), None, p.dedup)
  {
    NewRowAsAsked(q, p, ready.nextSequence, nowMs);
    InsertSets(ready, q, p, Ms(nowMs));
  }

  lemma InsertSets(ready: Db, q: string, p: Prepared, now: nat)
    requires p.Prepared?
    ensures var n, row := ready.nextSequence, NewRow(q, p, ready.nextSequence, now);
            var d := InsertMessage(ready, q, p, now);
            d.nextSequence == n + 1 && d.messages == ready.messages[n := row]
  {
    var inserted := InsertRow(ready, NewRow(q, p, ready.nextSequence, now));
    var d := InsertMessage(ready, q, p, now);
    assert d == inserted.(keys := d.keys);
  }

  /** An accepted send stores exactly what was asked for, to be available after its delay. */
  lemma SendStores(db: Db, op: Op)
    requires Inv(db) && op.OpSend? && op.queue in db.queues
    requires Step(db, op).nextSequence != db.nextSequence
    ensures var d, n, request, queue := Step(db, op), db.nextSequence, op.request, db.queues[op.queue];
            && Admissible(request, queue)
            && Perform(db, op).reply == Sent(MessageId(n), false) && d.nextSequence == n + 1 && n in d.messages
            && d.messages[n] == Row(MessageId(n), op.queue, request.body, request.group, request.attributes, None, None, 0, 0, 0,
                                    Capped(op.nowMs), After(op.nowMs, Wait(request, queue)), None,
                                    DeduplicationId(request, queue))
            && OnlyTheOldGone(db, d, op.queue, op.nowMs, n)
  {
    var q, p := op.queue, PrepareSend(op.request, db.queues[op.queue]);
    PreparedExactly(op.request, db.queues[q]);
    SendShape(db, q, op.request, op.nowMs);
    var ready := ReadyToSend(db, q, p, op.nowMs);
    ReadyDropsTheOld(db, q, p, op.nowMs, db.nextSequence);
    InsertAppends(ready, q, p, op.nowMs);
    BelowNext(db);
    AppendedToTheRest(db, ready, Step(db, op), q, op.nowMs);
  }

  lemma AppendedToTheRest(db: Db, ready: Db, d: Db, q: string, nowMs: nat)
    requires OnlyTheOldGone(db, ready, q, nowMs, db.nextSequence) && db.nextSequence !in db.messages
    requires db.nextSequence in d.messages && d.messages == ready.messages[db.nextSequence := d.messages[db.nextSequence]]
    ensures OnlyTheOldGone(db, d, q, nowMs, db.nextSequence)
  {
  }

  /** A send either stores a message, or answers a duplicate, or is refused and changes nothing. */
  lemma SendAnswers(db: Db, op: Op)
    requires Inv(db) && op.OpSend?
    ensures var d, reply := Step(db, op), Perform(db, op).reply;
            if op.queue !in db.queues then reply == Failed(QueueNotFound) && d == db
            else if !Admissible(op.request, db.queues[op.queue]) then reply.Failed? && d == db
            else && reply.Sent?
                 && (reply.deduplicated <==> d.nextSequence == db.nextSequence)
                 && (reply.deduplicated ==> db.queues[op.queue].kind == Fifo && OnlyTheOldGone(db, d, op.queue, op.nowMs, db.nextSequence))
  {
    if op.queue in db.queues {
      PreparedExactly(op.request, db.queues[op.queue]);
      if Admissible(op.request, db.queues[op.queue]) {
        SendShape(db, op.queue, op.request, op.nowMs);
        ReadyDropsTheOld(db, op.queue, PrepareSend(op.request, db.queues[op.queue]), op.nowMs, db.nextSequence);
      }
    }
  }
}
