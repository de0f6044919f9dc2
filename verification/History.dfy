/** How a row can change in one operation, and what follows for whole runs. */
module History {
  import opened Identifiers
  import opened Tables
  import opened ReceivePlan
  import opened Operations
  import opened Invariants
  import opened Preservation
  import opened Handles
  import opened Receiving
  import opened ReceiveTheorems
  import opened Runs

  /** Apart from its availability the row is what it was. */
  predicate Kept(r: Row, o: Row) {
    r == o.(availableAt := r.availableAt)
  }

  /** A row that was not there before: never received. */
  ghost predicate Added(db: Db, d: Db, s: nat)
    requires s in d.messages
  {
    db.nextSequence <= s < d.nextSequence && d.messages[s].count == 0 && d.messages[s].handle.None? && d.messages[s].invisibleUntil.None?
  }

  ghost predicate KeptOrAdded(db: Db, d: Db) {
    && db.nextSequence <= d.nextSequence
    && (forall s :: s in d.messages ==> if s in db.messages then Kept(d.messages[s], db.messages[s]) else Added(db, d, s))
  }

  lemma KeptOrAddedTransitive(a: Db, b: Db, c: Db)
    requires KeptOrAdded(a, b) && KeptOrAdded(b, c)
    requires forall s :: s in a.messages ==> s < a.nextSequence
    ensures KeptOrAdded(a, c)
  {
  }

  lemma {:induction false} MoveBackAdds(db: Db, source: string, now: nat, order: seq<nat>)
    requires forall s :: s in db.messages ==> s < db.nextSequence
    ensures KeptOrAdded(db, MoveBack(db, source, now, order))
    decreases |order|
  {
    if order != [] && order[0] in db.messages {
      var d := MoveMessage(db, order[0], source, now, true, true);
      assert KeptOrAdded(db, d);
      MoveBackAdds(d, source, now, order[1..]);
      KeptOrAddedTransitive(db, d, MoveBack(db, source, now, order));
    }
  }

  /** One operation delivered the row. */
  ghost predicate DeliveredBy(db: Db, d: Db, op: Op, s: nat)
    requires s in d.messages
  {
    && op.OpReceive? && s in db.messages && db.messages[s].queue == op.queue
    && Receivable(db.messages[s], Ms(op.nowMs)) && !Over(db.messages[s], PolicyOf(db, op.queue))
    && exists visibility: nat :: d.messages[s] == DeliveredRow(db.messages[s], s, visibility, Ms(op.nowMs))
  }

  /** One operation moved only the row's deadline; on request it also counts a revision. */
  ghost predicate DeadlineMovedBy(db: Db, d: Db, op: Op, s: nat)
    requires s in d.messages
  {
    && s in db.messages
    && (var moved := db.messages[s].(invisibleUntil := d.messages[s].invisibleUntil);
        || (op.OpReceive? && db.messages[s].queue == op.queue && Kept(d.messages[s], moved))
        || (op.OpChangeVisibility? && HiddenAt(db.messages[s], Ms(op.nowMs))
            && Kept(d.messages[s], moved.(revision := moved.revision + 1))))
  }

  ghost predicate Evolves(db: Db, d: Db, op: Op, s: nat)
    requires s in d.messages
  {
    || (s in db.messages && Kept(d.messages[s], db.messages[s]))
    || (s !in db.messages && Added(db, d, s))
    || DeliveredBy(db, d, op, s)
    || DeadlineMovedBy(db, d, op, s)
  }

  ghost predicate AllEvolve(db: Db, d: Db, op: Op) {
    db.nextSequence <= d.nextSequence && forall s {:trigger Evolves(db, d, op, s)} :: s in d.messages ==> Evolves(db, d, op, s)
  }

  lemma KeptEvolves(db: Db, d: Db, op: Op)
    requires KeptOrAdded(db, d)
    ensures AllEvolve(db, d, op)
  {
  }

  /** Saving the attempt touches no row. */
  lemma FreshRows(e: Db, q: string, maximum: nat, o: ReceiveOptions, visibility: nat, now: nat, cacheEmpty: bool)
    requires q in e.queues
    ensures var d := ReceiveFresh(e, q, maximum, o, visibility, now, cacheEmpty).db;
            var c := CollectReceived(e, q, Limit(e, q, maximum, now), visibility, now);
            d == e || (d.messages == c.db.messages && d.nextSequence == c.db.nextSequence)
  {
  }

  lemma FreshReceiveEvolves(db: Db, e: Db, op: Op, visibility: nat)
    requires op.OpReceive? && op.queue in e.queues && Inv(e) && e.policies == db.policies
    requires e.nextSequence == db.nextSequence && forall s :: s in e.messages ==> s in db.messages && e.messages[s] == db.messages[s]
    requires forall s :: s in db.messages ==> s < db.nextSequence
    ensures AllEvolve(db, ReceiveFresh(e, op.queue, op.maximum, op.options, visibility, Ms(op.nowMs), op.cacheEmpty).db, op)
  {
    var q, now := op.queue, Ms(op.nowMs);
    var d := ReceiveFresh(e, q, op.maximum, op.options, visibility, now, op.cacheEmpty).db;
    var limit := Limit(e, q, op.maximum, now);
    FreshRows(e, q, op.maximum, op.options, visibility, now, op.cacheEmpty);
    if d == e {
      KeptEvolves(db, d, op);
    } else {
      CollectedAllEvolve(db, e, d, op, visibility, limit);
    }
  }

  lemma CollectedAllEvolve(db: Db, e: Db, d: Db, op: Op, visibility: nat, limit: nat)
    requires op.OpReceive? && op.queue in e.queues && Inv(e) && e.policies == db.policies
    requires e.nextSequence == db.nextSequence && forall s :: s in e.messages ==> s in db.messages && e.messages[s] == db.messages[s]
    requires forall s :: s in db.messages ==> s < db.nextSequence
    requires var c := CollectReceived(e, op.queue, limit, visibility, Ms(op.nowMs));
             d.messages == c.db.messages && d.nextSequence == c.db.nextSequence
    ensures AllEvolve(db, d, op)
  {
    ReceiveLeavesOutcome(e, op.queue, limit, visibility, Ms(op.nowMs));
    BelowNext(e);
    forall s | s in d.messages ensures Evolves(db, d, op, s) {
      CollectedEvolves(db, e, d, op, visibility, limit, s);
    }
  }

  lemma CollectedEvolves(db: Db, e: Db, d: Db, op: Op, visibility: nat, limit: nat, s: nat)
    requires op.OpReceive? && e.policies == db.policies && e.nextSequence == db.nextSequence && s in d.messages
    requires forall t :: t in e.messages ==> t in db.messages && e.messages[t] == db.messages[t] && t < e.nextSequence
    requires var c := CollectReceived(e, op.queue, limit, visibility, Ms(op.nowMs));
             && d.messages == c.db.messages && d.nextSequence == c.db.nextSequence
             && Outcome(e, c.db, op.queue, PolicyOf(e, op.queue), visibility, Ms(op.nowMs),
                        Answer(e, op.queue, visibility, Ms(op.nowMs), limit), Casualties(e, op.queue, visibility, Ms(op.nowMs), limit))
    requires s in db.messages ==> s < db.nextSequence
    ensures Evolves(db, d, op, s)
  {
    var c := CollectReceived(e, op.queue, limit, visibility, Ms(op.nowMs));
    var answer := Answer(e, op.queue, visibility, Ms(op.nowMs), limit);
    var casualties := Casualties(e, op.queue, visibility, Ms(op.nowMs), limit);
    assert forall i :: 0 <= i < |casualties| ==> casualties[i] !in c.db.messages;
    assert s !in casualties;
    if s in e.messages {
      if s in answer {
        var k :| 0 <= k < |answer| && answer[k] == s;
        AnswerFromQueue(e, op.queue, limit, visibility, Ms(op.nowMs), s);
        assert d.messages[s] == DeliveredRow(db.messages[s], s, visibility, Ms(op.nowMs));
        assert DeliveredBy(db, d, op, s);
      } else {
        assert Untouched(e, c.db, s);
      }
    } else {
      assert e.nextSequence <= s < c.db.nextSequence;
      assert Added(db, d, s);
    }
  }

  /** The row is the same, or a row of q with another deadline. */
  predicate DeadlineOnly(r: Row, o: Row, q: string) {
    r == o || (r == o.(invisibleUntil := r.invisibleUntil) && o.queue == q)
  }

  /** Before the loop: expired rows and old attempts are gone, or a replay moved deadlines. */
  lemma BeforeCollecting(db: Db, q: string, o: ReceiveOptions, maximum: nat, now: nat)
    requires q in db.queues
    ensures var r := ReplayAttempt(ExpireMessages(db, q, now), q, o, maximum, now);
            !r.ReplayFailed? ==>
              && r.db.nextSequence == db.nextSequence && r.db.policies == db.policies && r.db.queues == db.queues
              && r.db.messages.Keys <= db.messages.Keys
              && (forall s :: s in r.db.messages ==> DeadlineOnly(r.db.messages[s], db.messages[s], q))
              && (r.Fresh? ==> forall s :: s in r.db.messages ==> r.db.messages[s] == db.messages[s])
  {
  }

  lemma ReplayEvolves(db: Db, d: Db, op: Op)
    requires op.OpReceive? && d.nextSequence == db.nextSequence
    requires d.messages.Keys <= db.messages.Keys
    requires forall s :: s in d.messages ==> DeadlineOnly(d.messages[s], db.messages[s], op.queue)
    ensures AllEvolve(db, d, op)
  {
  }

  lemma ReceiveEvolves(db: Db, op: Op)
    requires Inv(db) && op.OpReceive?
    ensures AllEvolve(db, Step(db, op), op)
  {
    var q, o, now := op.queue, op.options, Ms(op.nowMs);
    if 1 <= op.maximum <= 10 && q in db.queues && OptionsError(o, db.queues[q].kind).None? {
      var expired := ExpireMessages(db, q, now);
      var r := ReplayAttempt(expired, q, o, op.maximum, now);
      BeforeCollecting(db, q, o, op.maximum, now);
      if r.Fresh? {
        ExpireKeeps(db, q, now);
        ReplayKeeps(expired, q, o, op.maximum, now);
        BelowNext(db);
        FreshReceiveEvolves(db, r.db, op, o.visibility.GetOr(db.queues[q].settings.visibility));
      } else if r.Replayed? {
        ReplayEvolves(db, r.db, op);
      } else {
        KeptEvolves(db, db, op);
      }
    } else {
      KeptEvolves(db, db, op);
    }
  }

  lemma RedriveEvolves(db: Db, op: Op)
    requires Inv(db) && op.OpRedrive?
    ensures AllEvolve(db, Step(db, op), op)
  {
    BelowNext(db);
    if Perform(db, op).reply.Moved? {
      var now := Ms(op.nowMs);
      var expired := ExpireMessages(ExpireMessages(db, op.dlq, now), op.source, now);
      assert KeptOrAdded(db, expired);
      MoveBackAdds(expired, op.source, now, RedriveOrder(expired, op.dlq, op.source, now, op.maximum));
      KeptOrAddedTransitive(db, expired, Step(db, op));
    }
    KeptEvolves(db, Step(db, op), op);
  }

  lemma ChangeVisibilityEvolves(db: Db, op: Op)
    requires Inv(db) && op.OpChangeVisibility?
    ensures AllEvolve(db, Step(db, op), op)
  {
  }

  /** Every operation changes rows only in these ways. */
  lemma StepEvolves(db: Db, op: Op)
    requires Inv(db)
    ensures AllEvolve(db, Step(db, op), op)
  {
    if op.OpReceive? {
      ReceiveEvolves(db, op);
    } else if op.OpRedrive? {
      RedriveEvolves(db, op);
    } else if op.OpChangeVisibility? {
      ChangeVisibilityEvolves(db, op);
    } else {
      BelowNext(db);
      OthersKeep(db, op);
      KeptEvolves(db, Step(db, op), op);
    }
  }

  lemma OthersKeep(db: Db, op: Op)
    requires !op.OpReceive? && !op.OpRedrive? && !op.OpChangeVisibility?
    requires forall s :: s in db.messages ==> s < db.nextSequence
    ensures KeptOrAdded(db, Step(db, op))
  {
    match op
    case OpCreateQueue(_, _, _, _, _) =>
    case OpDeleteQueue(name, nowMs) => DeleteQueueKeepsRows(db, name, nowMs);
    case OpSetAttributes(q, update, nowMs) => SetAttributesKeepsRows(db, q, update, nowMs);
    case OpPurge(_, _) =>
    case OpSend(q, request, nowMs) => SendKeepsRows(db, q, request, nowMs);
    case OpDelete(_, _) =>
  }

  lemma DeleteQueueKeepsRows(db: Db, q: string, nowMs: nat)
    ensures KeptOrAdded(db, DeleteQueue(db, q, nowMs).db)
  {
  }

  /** New settings, step by step: the policy and settings are written, unreceived rows re-timed, old rows expired. */
  lemma SettingsSteps(db: Db, op: Op) returns (updated: Db, delayed: Db, settings: Settings)
    requires op.OpSetAttributes? && Perform(db, op).reply == Done
    ensures op.queue in db.queues && settings == Resolve(db.queues[op.queue].settings, op.update)
    ensures updated.queues == db.queues[op.queue := db.queues[op.queue].(settings := settings)]
    ensures updated == db.(queues := updated.queues, policies := updated.policies)
    ensures (if op.update.policy.None? then Some(db) else WritePolicy(db, op.queue, op.update.policy.value))
         == Some(db.(policies := updated.policies))
    ensures delayed == if db.queues[op.queue].kind == Fifo && settings.delay != db.queues[op.queue].settings.delay
                       then DelayUnreceived(updated, op.queue, settings.delay) else updated
    ensures Step(db, op) == ExpireMessages(delayed, op.queue, Ms(op.nowMs))
  {
    var q, u := op.queue, op.update;
    var queue := db.queues[q];
    settings := Resolve(queue.settings, u);
    var written := if u.policy.None? then Some(db) else WritePolicy(db, q, u.policy.value);
    PolicyTouchesNoRow(db, q, u);
    updated := written.value.(queues := db.queues[q := queue.(settings := settings)]);
    delayed := if queue.kind == Fifo && settings.delay != queue.settings.delay
               then DelayUnreceived(updated, q, settings.delay) else updated;
  }

  lemma PolicyTouchesNoRow(db: Db, q: string, u: Update)
    ensures var written := if u.policy.None? then Some(db) else WritePolicy(db, q, u.policy.value);
            written.Some? ==> written.value == db.(policies := written.value.policies)
  {
  }

  lemma DelayKeepsPayloads(updated: Db, delayed: Db, q: string, delay: nat)
    requires delayed == updated || delayed == DelayUnreceived(updated, q, delay)
    ensures delayed.messages.Keys == updated.messages.Keys && delayed.queues == updated.queues
    ensures forall s :: s in updated.messages ==>
              delayed.messages[s] == updated.messages[s].(availableAt := delayed.messages[s].availableAt)
  {
  }

  lemma SettingsKeepRows(db: Db, updated: Db, q: string, delayed: Db, now: nat)
    requires updated.messages == db.messages && updated.nextSequence == db.nextSequence
    requires forall s :: s in db.messages ==> s < db.nextSequence
    requires delayed == updated || exists delay :: delayed == DelayUnreceived(updated, q, delay)
    ensures KeptOrAdded(db, ExpireMessages(delayed, q, now))
  {
  }

  lemma SetAttributesKeepsRows(db: Db, q: string, u: Update, nowMs: nat)
    requires forall s :: s in db.messages ==> s < db.nextSequence
    ensures KeptOrAdded(db, SetQueueAttributes(db, q, u, nowMs).db)
  {
    if SetQueueAttributes(db, q, u, nowMs).reply == Done {
      var updated, delayed, settings := SettingsSteps(db, OpSetAttributes(q, u, nowMs));
      SettingsKeepRows(db, updated, q, delayed, Ms(nowMs));
    }
  }

  /** A prepared send either finds a duplicate or inserts, in the database it made ready. */
  lemma SendShape(db: Db, q: string, request: SendRequest, nowMs: nat)
    requires q in db.queues && PrepareSend(request, db.queues[q]).Prepared?
    ensures var p := PrepareSend(request, db.queues[q]);
            var ready := ReadyToSend(db, q, p, nowMs);
            var r := Send(db, q, request, nowMs);
            && ready.nextSequence == db.nextSequence
            && (if p.dedup.Some? && MatchingKeys(ready, q, p.dedup.value, db.queues[q].settings.scope, request.group) != {}
                then r == Result(ready, Sent(OldestId(MatchingKeys(ready, q, p.dedup.value, db.queues[q].settings.scope, request.group)), true))
                else r == Result(InsertMessage(ready, q, p, Ms(nowMs)), Sent(MessageId(db.nextSequence), false)))
  {
  }

  lemma ReadyKeepsRows(db: Db, q: string, p: Prepared, nowMs: nat)
    requires p.Prepared?
    ensures KeptOrAdded(db, ReadyToSend(db, q, p, nowMs))
    ensures ReadyToSend(db, q, p, nowMs).nextSequence == db.nextSequence
    ensures ReadyToSend(db, q, p, nowMs).messages.Keys <= db.messages.Keys
  {
  }

  lemma InsertAddsRow(db: Db, q: string, p: Prepared, now: nat)
    requires p.Prepared? && forall s :: s in db.messages ==> s < db.nextSequence
    ensures KeptOrAdded(db, InsertMessage(db, q, p, now))
  {
  }

  lemma SendKeepsRows(db: Db, q: string, request: SendRequest, nowMs: nat)
    requires forall s :: s in db.messages ==> s < db.nextSequence
    ensures KeptOrAdded(db, Send(db, q, request, nowMs).db)
  {
    if q in db.queues && PrepareSend(request, db.queues[q]).Prepared? {
      var p := PrepareSend(request, db.queues[q]);
      var ready := ReadyToSend(db, q, p, nowMs);
      SendShape(db, q, request, nowMs);
      ReadyKeepsRows(db, q, p, nowMs);
      InsertAddsRow(ready, q, p, Ms(nowMs));
      KeptOrAddedTransitive(db, ready, InsertMessage(ready, q, p, Ms(nowMs)));
    }
  }

  // ----- the stages of a receive

  datatype Stage = RolledBack | Replaying(expired: Db) | Collecting(ready: Db, visibility: nat)

  /** The state in which a receive replays or collects: expired rows of the queue are gone. */
  ghost predicate Cleared(db: Db, e: Db, q: string, now: nat) {
    && q in db.queues && Inv(e) && e == db.(messages := e.messages, origins := e.origins, attempts := e.attempts)
    && e.messages == ExpireMessages(db, q, now).messages
    && (forall s :: s in e.messages ==> s in db.messages && e.messages[s] == db.messages[s])
    && (forall s :: s in e.messages && e.messages[s].queue == q ==> !Expired(e, e.messages[s], now))
  }

  lemma ClearedByExpiry(db: Db, q: string, now: nat)
    requires Inv(db) && q in db.queues
    ensures Cleared(db, ExpireMessages(db, q, now), q, now)
  {
    ExpireKeeps(db, q, now);
  }

  lemma ClearedByPruning(db: Db, e: Db, q: string, now: nat)
    requires Cleared(db, e, q, now)
    ensures Cleared(db, PruneAttempts(e, q, now), q, now)
  {
    SameRowsKeep(e, PruneAttempts(e, q, now));
  }

  /** How far a receive gets. */
  function StageOf(db: Db, op: Op): Stage
    requires op.OpReceive?
  {
    var q, now := op.queue, Ms(op.nowMs);
    if !(1 <= op.maximum <= 10) || q !in db.queues || OptionsError(op.options, db.queues[q].kind).Some? then RolledBack
    else
      var expired := ExpireMessages(db, q, now);
      match ReplayAttempt(expired, q, op.options, op.maximum, now)
      case ReplayFailed(_) => RolledBack
      case Replayed(_, _) => Replaying(expired)
      case Fresh(ready) => Collecting(ready, op.options.visibility.GetOr(db.queues[q].settings.visibility))
  }

  /** The database a stage leads to. */
  ghost predicate LeadsTo(db: Db, op: Op, stage: Stage, d: Db)
    requires op.OpReceive?
  {
    var q, now := op.queue, Ms(op.nowMs);
    match stage
    case RolledBack => d == db
    case Replaying(e) =>
      q in e.queues && (var r := ReplayAttempt(e, q, op.options, op.maximum, now); r.Replayed? && d == r.db)
    case Collecting(e, visibility) =>
      q in e.queues && d == ReceiveFresh(e, q, op.maximum, op.options, visibility, now, op.cacheEmpty).db
  }

  lemma StageLeads(db: Db, op: Op)
    requires op.OpReceive?
    ensures LeadsTo(db, op, StageOf(db, op), Step(db, op))
  {
    PerformReceive(db, op);
    PageLeads(db, op);
  }

  lemma PageLeads(db: Db, op: Op)
    requires op.OpReceive?
    ensures LeadsTo(db, op, StageOf(db, op), ReceivePage(db, op.queue, op.maximum, op.options, op.nowMs, op.cacheEmpty).db)
  {
  }

  lemma StageCleared(db: Db, op: Op, e: Db)
    requires Inv(db) && op.OpReceive?
    requires StageOf(db, op) == Replaying(e) || (StageOf(db, op).Collecting? && StageOf(db, op).ready == e)
    ensures Cleared(db, e, op.queue, Ms(op.nowMs))
  {
    ClearedByExpiry(db, op.queue, Ms(op.nowMs));
    ClearedByPruning(db, ExpireMessages(db, op.queue, Ms(op.nowMs)), op.queue, Ms(op.nowMs));
  }

  lemma ReceiveStage(db: Db, op: Op) returns (stage: Stage)
    requires Inv(db) && op.OpReceive?
    ensures var d, q, now := Step(db, op), op.queue, Ms(op.nowMs);
            match stage
            case RolledBack => d == db
            case Replaying(e) =>
              Cleared(db, e, q, now) && (var r := ReplayAttempt(e, q, op.options, op.maximum, now); r.Replayed? && d == r.db)
            case Collecting(e, visibility) =>
              Cleared(db, e, q, now) && d == ReceiveFresh(e, q, op.maximum, op.options, visibility, now, op.cacheEmpty).db
  {
    stage := StageOf(db, op);
    StageLeads(db, op);
    match stage
    case RolledBack =>
    case Replaying(e) => StageCleared(db, op, e);
    case Collecting(e, _) => StageCleared(db, op, e);
  }

  lemma ReplayShows(e: Db, q: string, o: ReceiveOptions, maximum: nat, now: nat, m: Received)
    requires Inv(e) && q in e.queues
    requires var r := ReplayAttempt(e, q, o, maximum, now); r.Replayed? && m in r.messages
    ensures Shown(ReplayAttempt(e, q, o, maximum, now).db, q, m)
  {
    assert AttemptOk(e, (q, o.attemptId.value));
    assert Shown(e, q, m);
    var s :| s in e.messages && e.messages[s].queue == q && e.messages[s].handle == Some(m.handle) && m == ViewRow(e, s);
    assert m == ViewRow(ReplayAttempt(e, q, o, maximum, now).db, s);
  }

  /** A replay answers with the stored messages, and each is what its row still shows. */
  lemma ReplayShowsRows(db: Db, op: Op, m: Received)
    requires Inv(db) && op.OpReceive? && op.queue in db.queues
    requires var r := ReplayAttempt(ExpireMessages(db, op.queue, Ms(op.nowMs)), op.queue, op.options, op.maximum, Ms(op.nowMs));
             r.Replayed? && m in r.messages && Perform(db, op) == Result(r.db, Page(r.messages, true))
    ensures Shown(Step(db, op), op.queue, m)
  {
    ExpireKeeps(db, op.queue, Ms(op.nowMs));
    ReplayShows(ExpireMessages(db, op.queue, Ms(op.nowMs)), op.queue, op.options, op.maximum, Ms(op.nowMs), m);
  }

  // ----- receipt handles

  /** Some row up to its present delivery count could have produced this handle. */
  ghost predicate Used(db: Db, handle: string) {
    exists s: nat, c: nat :: HandleOf(handle, s, c) && UsedAt(db, s, c)
  }

  predicate UsedAt(db: Db, s: nat, c: nat) {
    s < db.nextSequence && (s in db.messages ==> c <= db.messages[s].count)
  }

  ghost predicate Held(db: Db, handle: string) {
    exists s :: s in db.messages && db.messages[s].handle == Some(handle)
  }

  /** Once used and no longer on any row. */
  ghost predicate Stale(db: Db, handle: string) {
    Used(db, handle) && !Held(db, handle)
  }

  lemma UsedAtStays(db: Db, op: Op, s: nat, c: nat)
    requires Inv(db) && UsedAt(db, s, c)
    ensures UsedAt(Step(db, op), s, c)
  {
    StepEvolves(db, op);
    if s in Step(db, op).messages { assert Evolves(db, Step(db, op), op, s); }
  }

  lemma UsedStays(db: Db, op: Op, handle: string)
    requires Inv(db) && Used(db, handle)
    ensures Used(Step(db, op), handle)
  {
    var s: nat, c: nat :| HandleOf(handle, s, c) && UsedAt(db, s, c);
    UsedAtStays(db, op, s, c);
  }

  /** A new handle has a larger count than any its row used before. */
  lemma StaleStays(db: Db, op: Op, handle: string)
    requires Inv(db) && Stale(db, handle)
    ensures Stale(Step(db, op), handle)
  {
    UsedStays(db, op, handle);
    var d := Step(db, op);
    StepKeeps(db, op);
    StepEvolves(db, op);
    forall t | t in d.messages ensures d.messages[t].handle != Some(handle) {
      assert Evolves(db, d, op, t) && RowOk(d, t);
      if d.messages[t].handle == Some(handle) {
        var s: nat, c: nat :| HandleOf(handle, s, c) && UsedAt(db, s, c);
        HandleDetermines(handle, s, c, t, d.messages[t].count);
      }
    }
  }

  lemma {:induction false} StaleForever(db: Db, ops: seq<Op>, handle: string)
    requires Inv(db) && Stale(db, handle)
    ensures Inv(Run(db, ops)) && Stale(Run(db, ops), handle)
    decreases |ops|
  {
    if ops != [] {
      StepKeeps(db, ops[0]);
      StaleStays(db, ops[0], handle);
      StaleForever(Step(db, ops[0]), ops[1..], handle);
    }
  }

  /** A row that loses its handle leaves it stale. */
  lemma LostHandleIsStale(db: Db, op: Op, handle: string)
    requires Inv(db) && Held(db, handle) && !Held(Step(db, op), handle)
    ensures Stale(Step(db, op), handle)
  {
    var s :| s in db.messages && db.messages[s].handle == Some(handle);
    assert RowOk(db, s) && UsedAt(db, s, db.messages[s].count);
    UsedStays(db, op, handle);
  }

  /** Deleting or changing with a stale handle changes nothing and says so. */
  lemma StaleHandleIsInert(db: Db, handle: string, q: string, timeoutMs: nat, nowMs: nat)
    requires Stale(db, handle) && q in db.queues && timeoutMs <= 43_200_000
    ensures DeleteMessage(db, q, handle) == Result(db, Failed(InvalidReceiptHandle))
    ensures ChangeVisibility(db, q, handle, timeoutMs, nowMs) == Result(db, Failed(InvalidReceiptHandle))
  {
    NothingDeleted(db);
    NothingRevised(db, SaturatingAdd(Ms(nowMs), Ms(timeoutMs)));
    assert Holding(db, q, handle) == {};
    assert InFlightHolding(db, q, handle, Ms(nowMs)) == {};
  }

  /** Whenever a handle is superseded, moved or removed during a run, it stays inert for the rest of it. */
  lemma StaleHandlesAreInertOverRuns(ops: seq<Op>, later: seq<Op>, handle: string, q: string, timeoutMs: nat, nowMs: nat)
    requires Stale(Run(EMPTY, ops), handle)
    requires q in Run(Run(EMPTY, ops), later).queues && timeoutMs <= 43_200_000
    ensures var d := Run(Run(EMPTY, ops), later);
            && DeleteMessage(d, q, handle) == Result(d, Failed(InvalidReceiptHandle))
            && ChangeVisibility(d, q, handle, timeoutMs, nowMs) == Result(d, Failed(InvalidReceiptHandle))
  {
    Reachable(ops);
    StaleForever(Run(EMPTY, ops), later, handle);
    StaleHandleIsInert(Run(Run(EMPTY, ops), later), handle, q, timeoutMs, nowMs);
  }

  /** A delivery puts a handle on its row that no row ever had. */
  lemma DeliveryIssuesNewHandle(db: Db, op: Op, s: nat)
    requires Inv(db) && s in Step(db, op).messages && DeliveredBy(db, Step(db, op), op, s)
    ensures var h := Step(db, op).messages[s].handle;
            h.Some? && !Used(db, h.value) && Used(Step(db, op), h.value)
  {
    var d := Step(db, op);
    StepKeeps(db, op);
    assert RowOk(d, s) && RowOk(db, s);
    var h := d.messages[s].handle.value;
    assert UsedAt(d, s, d.messages[s].count);
    if Used(db, h) {
      var t: nat, c: nat :| HandleOf(h, t, c) && UsedAt(db, t, c);
      HandleDetermines(h, t, c, s, d.messages[s].count);
      assert false;
    }
  }

  lemma {:induction false} UsedForever(db: Db, ops: seq<Op>, handle: string)
    requires Inv(db) && Used(db, handle)
    ensures Inv(Run(db, ops)) && Used(Run(db, ops), handle)
    decreases |ops|
  {
    if ops != [] {
      StepKeeps(db, ops[0]);
      UsedStays(db, ops[0], handle);
      UsedForever(Step(db, ops[0]), ops[1..], handle);
    }
  }

  /** Over any run no handle is issued twice. */
  lemma HandlesAreIssuedOnce(ops: seq<Op>, first: Op, between: seq<Op>, second: Op, s: nat, t: nat)
    requires var a := Run(EMPTY, ops);
             s in Step(a, first).messages && DeliveredBy(a, Step(a, first), first, s)
    requires var b := Run(Step(Run(EMPTY, ops), first), between);
             t in Step(b, second).messages && DeliveredBy(b, Step(b, second), second, t)
    ensures Step(Run(EMPTY, ops), first).messages[s].handle
         != Step(Run(Step(Run(EMPTY, ops), first), between), second).messages[t].handle
    ensures var d := Step(Run(EMPTY, ops), first);
            forall u :: u in d.messages && u != s && DeliveredBy(Run(EMPTY, ops), d, first, u) ==>
              d.messages[u].handle != d.messages[s].handle
  {
    var a := Run(EMPTY, ops);
    Reachable(ops);
    DeliveryIssuesNewHandle(a, first, s);
    StepKeeps(a, first);
    UsedForever(Step(a, first), between, Step(a, first).messages[s].handle.value);
    DeliveryIssuesNewHandle(Run(Step(a, first), between), second, t);
    HandlesDifferInOneReceive(a, first, s);
  }

  lemma HandlesDifferInOneReceive(db: Db, op: Op, s: nat)
    requires Inv(db) && s in Step(db, op).messages && DeliveredBy(db, Step(db, op), op, s)
    ensures var d := Step(db, op);
            forall u :: u in d.messages && u != s && DeliveredBy(db, d, op, u) ==> d.messages[u].handle != d.messages[s].handle
  {
    var d := Step(db, op);
    StepKeeps(db, op);
    forall u | u in d.messages && u != s && DeliveredBy(db, d, op, u) ensures d.messages[u].handle != d.messages[s].handle {
      if d.messages[u].handle == d.messages[s].handle {
        OneHolder(d, d.messages[s].handle.value, s, u);
        assert false;
      }
    }
  }

  // ----- how often a message is delivered

  ghost predicate DeliveredAtMost(db: Db, q: string, n: nat) {
    forall s :: s in db.messages && db.messages[s].queue == q ==> db.messages[s].count <= n
  }

  /** The queue's policy allows at most n deliveries before every step of the run. */
  ghost predicate PolicyThroughout(db: Db, ops: seq<Op>, q: string, n: nat)
    decreases |ops|
  {
    ops == [] || (PolicyOf(db, q).Some? && PolicyOf(db, q).value.maxReceiveCount <= n && PolicyThroughout(Step(db, ops[0]), ops[1..], q, n))
  }

  /** Under a policy a message is delivered at most `maxReceiveCount` times during its stay. */
  lemma {:induction false} DeliveriesAreBounded(db: Db, ops: seq<Op>, q: string, n: nat)
    requires Inv(db) && DeliveredAtMost(db, q, n) && PolicyThroughout(db, ops, q, n)
    ensures DeliveredAtMost(Run(db, ops), q, n)
    decreases |ops|
  {
    if ops != [] {
      var d := Step(db, ops[0]);
      StepKeeps(db, ops[0]);
      StepEvolves(db, ops[0]);
      forall s | s in d.messages && d.messages[s].queue == q ensures d.messages[s].count <= n {
        assert Evolves(db, d, ops[0], s);
      }
      DeliveriesAreBounded(d, ops[1..], q, n);
    }
  }
}
