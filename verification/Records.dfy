/**
 * What becomes of the record of a receive attempt, over whole runs: it stays replayable exactly
 * while nobody deletes, moves, redelivers or re-times a message of its response.
 */
module Records {
  import opened Identifiers
  import opened Tables
  import opened ReceivePlan
  import opened PlanFacts
  import opened Operations
  import opened Invariants
  import opened Preservation
  import opened Receiving
  import opened ReceiveTheorems
  import opened Runs
  import opened History

  /** Row s has one of the handles. */
  predicate Holds(db: Db, members: set<string>, s: nat) {
    s in db.messages && db.messages[s].handle.Some? && db.messages[s].handle.value in members
  }

  predicate SameHolder(db: Db, d: Db, s: nat)
    requires s in db.messages
  {
    s in d.messages && d.messages[s].handle == db.messages[s].handle && d.messages[s].revision == db.messages[s].revision
  }

  /** Every row with one of the handles still has it, and its visibility was not changed on request. */
  ghost predicate Intact(db: Db, d: Db, members: set<string>) {
    forall s :: Holds(db, members, s) ==> SameHolder(db, d, s)
  }

  /** The record stays, is invalidated at worst, and is unchanged if its members' rows are intact. */
  ghost predicate Fate(db: Db, d: Db, key: AttemptKey)
    requires key in db.attempts
  {
    var a := db.attempts[key];
    && key in d.attempts
    && (d.attempts[key] == a || d.attempts[key] == a.(valid := false))
    && (Intact(db, d, a.members) ==> d.attempts[key] == a)
  }

  // ----- statements

  lemma DeleteFate(db: Db, S: set<nat>, key: AttemptKey)
    requires key in db.attempts
    ensures Fate(db, DeleteRows(db, S), key)
  {
    var a, d := db.attempts[key], DeleteRows(db, S);
    if Intact(db, d, a.members) {
      assert forall s :: s in S && s in db.messages ==> !SameHolder(db, d, s);
      assert forall s :: s in S ==> !Holds(db, a.members, s);
      assert a.members * HandlesOf(db.messages, S) == {};
    }
  }

  /** First some rows go, and stay gone; then the rest happens. */
  lemma FateTwice(db: Db, e: Db, f: Db, key: AttemptKey)
    requires key in db.attempts && Fate(db, e, key) && Fate(e, f, key)
    requires forall s :: s in e.messages ==> s in db.messages && SameHolder(db, e, s)
    requires forall s :: s in db.messages && s !in e.messages ==> s !in f.messages
    ensures Fate(db, f, key)
  {
    var members := db.attempts[key].members;
    if Intact(db, f, members) {
      forall s | Holds(db, members, s) ensures SameHolder(db, e, s) { assert SameHolder(db, f, s); }
      forall s | Holds(e, members, s) ensures SameHolder(e, f, s) {
        assert SameHolder(db, e, s);
        assert Holds(db, members, s);
        assert SameHolder(db, f, s);
      }
    }
  }

  /** Attempts and rows as far as records are concerned are the same. */
  lemma SameFate(db: Db, d: Db, key: AttemptKey)
    requires key in db.attempts && key in d.attempts && d.attempts[key] == db.attempts[key]
    ensures Fate(db, d, key)
  {
  }

  lemma ExpireFate(db: Db, q: string, now: nat, key: AttemptKey)
    requires key in db.attempts
    ensures Fate(db, ExpireMessages(db, q, now), key)
    ensures forall s :: s in ExpireMessages(db, q, now).messages ==> s in db.messages && SameHolder(db, ExpireMessages(db, q, now), s)
  {
    DeleteFate(db, ExpiredRows(db, q, now), key);
  }

  // ----- the receive loop

  lemma DeliverRecord(db: Db, s: nat, visibility: nat, now: nat, key: AttemptKey)
    requires s in db.messages && key in db.attempts
    ensures var d := Deliver(db, s, visibility, now);
            && key in d.attempts
            && d.attempts[key] == if Holds(db, db.attempts[key].members, s) then db.attempts[key].(valid := false) else db.attempts[key]
  {
    HandlesOfOne(db, s);
    if db.messages[s].handle.Some? { MeetsOne(db.attempts[key].members, db.messages[s].handle.value); }
  }

  lemma MeetsOne(members: set<string>, handle: string)
    ensures members * {handle} != {} <==> handle in members
  {
    if handle in members { assert handle in members * {handle}; }
  }

  lemma DeadLetterRecord(db: Db, s: nat, q: string, policy: Policy, now: nat, key: AttemptKey)
    requires s in db.messages && key in db.attempts
    ensures var d := DeadLetter(db, s, q, policy, now);
            && key in d.attempts
            && d.attempts[key] == if Holds(db, db.attempts[key].members, s) then db.attempts[key].(valid := false) else db.attempts[key]
  {
    HandlesOfOne(db, s);
    if db.messages[s].handle.Some? { MeetsOne(db.attempts[key].members, db.messages[s].handle.value); }
  }

  lemma HandlesOfOne(db: Db, s: nat)
    requires s in db.messages
    ensures HandlesOf(db.messages, {s}) == if db.messages[s].handle.Some? then {db.messages[s].handle.value} else {}
  {
  }

  lemma HandleRecord(db: Db, q: string, policy: Option<Policy>, visibility: nat, now: nat, s: nat, key: AttemptKey)
    requires s in db.messages && key in db.attempts
    ensures var d := Handle(db, q, policy, visibility, now, s);
            && key in d.attempts
            && d.attempts[key] == if Holds(db, db.attempts[key].members, s) then db.attempts[key].(valid := false) else db.attempts[key]
  {
    if Over(db.messages[s], policy) {
      DeadLetterRecord(db, s, q, policy.value, now, key);
    } else {
      DeliverRecord(db, s, visibility, now, key);
    }
  }

  /** None of the rows that the loop handles has one of the handles. */
  ghost predicate Spares(db: Db, policy: Option<Policy>, plan: seq<nat>, limit: nat, members: set<string>) {
    forall i :: 0 <= i < Handled(db.messages, plan, policy, limit) ==> !Holds(db, members, plan[i])
  }

  lemma {:induction false} CollectRecord(db: Db, q: string, policy: Option<Policy>, visibility: nat, now: nat, plan: seq<nat>, limit: nat, key: AttemptKey)
    requires Inv(db) && Collectable(db, q, policy, plan) && key in db.attempts
    ensures var d := Collect(db, q, policy, visibility, now, plan, limit).db;
            var a := db.attempts[key];
            && key in d.attempts && (d.attempts[key] == a || d.attempts[key] == a.(valid := false))
            && (Spares(db, policy, plan, limit, a.members) ==> d.attempts[key] == a)
    decreases |plan|
  {
    if limit != 0 && plan != [] {
      var d := Handle(db, q, policy, visibility, now, plan[0]);
      var next := if Over(db.messages[plan[0]], policy) then limit else limit - 1;
      BelowNext(db);
      HandleStep(db, q, policy, visibility, now, plan);
      HandleRecord(db, q, policy, visibility, now, plan[0], key);
      CollectRecord(d, q, policy, visibility, now, plan[1..], next, key);
      CollectUnfold(db, d, q, policy, visibility, now, plan, limit);
      if Spares(db, policy, plan, limit, db.attempts[key].members) {
        SparesRest(db, d, policy, plan, limit, next, db.attempts[key].members);
      }
    }
  }

  lemma SparesRest(db: Db, d: Db, policy: Option<Policy>, plan: seq<nat>, limit: nat, next: nat, members: set<string>)
    requires plan != [] && limit != 0 && Distinct(plan) && forall i :: 0 <= i < |plan| ==> plan[i] in db.messages
    requires TouchesOne(db, d, plan[0], policy) && next == if Over(db.messages[plan[0]], policy) then limit else limit - 1
    requires Spares(db, policy, plan, limit, members)
    ensures !Holds(db, members, plan[0]) && Spares(d, policy, plan[1..], next, members)
  {
    var rest := plan[1..];
    SameBeforeRest(db, d, policy, plan);
    SameDecisions(db, d, plan[0], rest, policy, next);
    forall i | 0 <= i < Handled(d.messages, rest, policy, next) ensures !Holds(d, members, rest[i]) {
      assert Untouched(db, d, rest[i]);
      assert !Holds(db, members, plan[i + 1]);
    }
  }

  /** Delivered rows get another handle and moved rows go, so intact members were not handled. */
  lemma CollectReceivedFate(e: Db, q: string, limit: nat, visibility: nat, now: nat, key: AttemptKey)
    requires Inv(e) && q in e.queues && key in e.attempts
    ensures Fate(e, CollectReceived(e, q, limit, visibility, now).db, key)
  {
    var policy, plan := PolicyOf(e, q), ReceiveOrder(e, q, now);
    var cap := Cap(Kind(e, q), visibility, now, limit);
    var d := CollectReceived(e, q, limit, visibility, now).db;
    var members := e.attempts[key].members;
    ReceiveOrderCollectable(e, q, now);
    CollectRecord(e, q, policy, visibility, now, plan, cap, key);
    if Intact(e, d, members) {
      ReceiveLeavesOutcome(e, q, limit, visibility, now);
      HandledDeliversFirst(e.messages, plan, policy, cap);
      var done := plan[..Handled(e.messages, plan, policy, cap)];
      SplitMembers(e.messages, done, policy);
      forall i | 0 <= i < |done| ensures !Holds(e, members, plan[i]) {
        assert done[i] in done;
        HandledIsNotIntact(e, d, q, policy, visibility, now, Answer(e, q, visibility, now, limit),
                           Casualties(e, q, visibility, now, limit), plan[i]);
      }
    }
  }

  lemma HandledIsNotIntact(e: Db, d: Db, q: string, policy: Option<Policy>, visibility: nat, now: nat,
                           delivered: seq<nat>, moved: seq<nat>, s: nat)
    requires TableOk(e) && Outcome(e, d, q, policy, visibility, now, delivered, moved) && s in e.messages
    requires s in delivered || s in moved
    ensures e.messages[s].handle.Some? ==> !SameHolder(e, d, s)
  {
    if s in delivered {
      var i :| 0 <= i < |delivered| && delivered[i] == s;
      DeliveryRenamesRow(e, s, visibility, now);
    } else {
      var i :| 0 <= i < |moved| && moved[i] == s;
    }
  }

  lemma DeliveryRenamesRow(e: Db, s: nat, visibility: nat, now: nat)
    requires TableOk(e) && s in e.messages
    ensures DeliveredRow(e.messages[s], s, visibility, now).handle != e.messages[s].handle
  {
    assert RowOk(e, s);
    var r := e.messages[s];
    var h := ReceiptHandle(s, r.count + 1, now);
    if r.handle == Some(h) {
      assert HandleOf(h, s, r.count + 1);
      HandleDetermines(h, s, r.count, s, r.count + 1);
      assert false;
    }
  }

  // ----- manual redrive

  lemma {:induction false} MoveBackRecord(db: Db, source: string, now: nat, order: seq<nat>, key: AttemptKey)
    requires key in db.attempts && Distinct(order) && forall t :: t in db.messages ==> t < db.nextSequence
    requires forall i :: 0 <= i < |order| ==> order[i] in db.messages
    ensures var d := MoveBack(db, source, now, order);
            var a := db.attempts[key];
            && key in d.attempts && (d.attempts[key] == a || d.attempts[key] == a.(valid := false))
            && ((forall i :: 0 <= i < |order| ==> !Holds(db, a.members, order[i])) ==> d.attempts[key] == a)
    decreases |order|
  {
    if order != [] {
      var d := MoveMessage(db, order[0], source, now, true, true);
      HandlesOfOne(db, order[0]);
      var rest := order[1..];
      forall i | 0 <= i < |rest| ensures rest[i] in d.messages && d.messages[rest[i]] == db.messages[rest[i]] {
        assert rest[i] == order[i + 1] && order[0] != order[i + 1];
      }
      MoveBackRecord(d, source, now, rest, key);
    }
  }

  // ----- operations

  /** What may happen to the queue while its record is young: any operation that does not discard records wholesale. */
  predicate Calm(op: Op, q: string, response: seq<Received>, until: nat) {
    match op
    case OpReceive(queue, _, _, nowMs, _) => queue == q ==> Ms(nowMs) < until
    case OpPurge(queue, _) => queue != q
    case OpDeleteQueue(name, _) => name != q && forall m :: m in response ==> m.deadLetterSource != Some(name)
    case _ => true
  }

  lemma PruneFate(e: Db, q: string, now: nat, key: AttemptKey)
    requires key in e.attempts && (key.0 == q ==> now < e.attempts[key].createdAt + WINDOW)
    ensures Fate(e, PruneAttempts(e, q, now), key)
  {
  }

  lemma FreshFate(e: Db, q: string, maximum: nat, o: ReceiveOptions, visibility: nat, now: nat, cacheEmpty: bool, key: AttemptKey)
    requires Inv(e) && q in e.queues && key in e.attempts
    requires o.attemptId.Some? ==> (q, o.attemptId.value) !in e.attempts
    ensures Fate(e, ReceiveFresh(e, q, maximum, o, visibility, now, cacheEmpty).db, key)
    ensures forall s :: s in ReceiveFresh(e, q, maximum, o, visibility, now, cacheEmpty).db.messages ==> s in e.messages || e.nextSequence <= s
  {
    var limit := Limit(e, q, maximum, now);
    CollectReceivedFate(e, q, limit, visibility, now, key);
    ReceiveLeavesOutcome(e, q, limit, visibility, now);
  }

  /** What a receive collects from: expired rows and old attempts are gone, this attempt among them. */
  lemma CollectingFate(db: Db, e: Db, op: Op, key: AttemptKey)
    requires Inv(db) && op.OpReceive? && key in db.attempts
    requires key.0 == op.queue ==> Ms(op.nowMs) < db.attempts[key].createdAt + WINDOW
    requires StageOf(db, op).Collecting? && StageOf(db, op).ready == e
    ensures Fate(db, e, key) && Inv(e) && op.queue in e.queues
    ensures op.options.attemptId.Some? ==> (op.queue, op.options.attemptId.value) !in e.attempts
    ensures forall s :: s in e.messages ==> s in db.messages && SameHolder(db, e, s)
    ensures e.nextSequence == db.nextSequence
  {
    var q, now := op.queue, Ms(op.nowMs);
    StageCleared(db, op, e);
    ExpireFate(db, q, now, key);
    PruneFate(ExpireMessages(db, q, now), q, now, key);
    FateTwice(db, ExpireMessages(db, q, now), e, key);
  }

  lemma ReplayingFate(db: Db, op: Op, key: AttemptKey)
    requires Inv(db) && op.OpReceive? && key in db.attempts && StageOf(db, op).Replaying?
    requires key.0 == op.queue ==> Ms(op.nowMs) < db.attempts[key].createdAt + WINDOW
    ensures Fate(db, Step(db, op), key)
  {
    var q, now := op.queue, Ms(op.nowMs);
    var e := ExpireMessages(db, q, now);
    StageLeads(db, op);
    ExpireFate(db, q, now, key);
    ReplayedFate(e, q, op.options, op.maximum, now, key);
    FateTwice(db, e, Step(db, op), key);
  }

  lemma ReplayedFate(e: Db, q: string, o: ReceiveOptions, maximum: nat, now: nat, key: AttemptKey)
    requires q in e.queues && key in e.attempts && (key.0 == q ==> now < e.attempts[key].createdAt + WINDOW)
    requires ReplayAttempt(e, q, o, maximum, now).Replayed?
    ensures var d := ReplayAttempt(e, q, o, maximum, now).db; Fate(e, d, key) && d.messages.Keys == e.messages.Keys
  {
  }

  lemma ReceiveFate(db: Db, op: Op, key: AttemptKey)
    requires Inv(db) && op.OpReceive? && key in db.attempts
    requires key.0 == op.queue ==> Ms(op.nowMs) < db.attempts[key].createdAt + WINDOW
    ensures Fate(db, Step(db, op), key)
  {
    StageLeads(db, op);
    match StageOf(db, op)
    case RolledBack => SameFate(db, db, key);
    case Replaying(_) => ReplayingFate(db, op, key);
    case Collecting(e, visibility) =>
      CollectingFate(db, e, op, key);
      FreshFate(e, op.queue, op.maximum, op.options, visibility, Ms(op.nowMs), op.cacheEmpty, key);
      BelowNext(db);
      FateTwice(db, e, Step(db, op), key);
  }

  lemma SendFate(db: Db, op: Op, key: AttemptKey)
    requires Inv(db) && op.OpSend? && key in db.attempts
    ensures Fate(db, Step(db, op), key)
  {
    var q := op.queue;
    if q in db.queues && PrepareSend(op.request, db.queues[q]).Prepared? {
      var e := ExpireMessages(db, q, Ms(op.nowMs));
      SendShape(db, q, op.request, op.nowMs);
      ExpireFate(db, q, Ms(op.nowMs), key);
      BelowNext(db);
      FateTwice(db, e, Step(db, op), key);
    } else {
      SameFate(db, db, key);
    }
  }

  lemma SettingsFate(db: Db, op: Op, key: AttemptKey)
    requires op.OpSetAttributes? && key in db.attempts
    ensures Fate(db, Step(db, op), key)
  {
    if Perform(db, op).reply == Done {
      var updated, delayed, settings := SettingsSteps(db, op);
      DelayKeepsPayloads(updated, delayed, op.queue, settings.delay);
      SameFate(db, delayed, key);
      ExpireFate(delayed, op.queue, Ms(op.nowMs), key);
      FateTwice(db, delayed, Step(db, op), key);
    } else {
      SameFate(db, db, key);
    }
  }

  lemma RedriveFate(db: Db, op: Op, key: AttemptKey)
    requires Inv(db) && op.OpRedrive? && key in db.attempts
    ensures Fate(db, Step(db, op), key)
  {
    if Perform(db, op).reply.Moved? {
      var now := Ms(op.nowMs);
      var e := ExpireMessages(db, op.dlq, now);
      var f := ExpireMessages(e, op.source, now);
      ExpireFate(db, op.dlq, now, key);
      ExpireFate(e, op.source, now, key);
      FateTwice(db, e, f, key);
      BelowNext(db);
      var order := RedriveOrder(f, op.dlq, op.source, now, op.maximum);
      RedriveOrderRows(f, op.dlq, op.source, now, op.maximum);
      MovedBackFate(f, op.source, now, order, key);
      FateTwice(db, f, Step(db, op), key);
    } else {
      SameFate(db, db, key);
    }
  }

  lemma MovedBackFate(f: Db, source: string, now: nat, order: seq<nat>, key: AttemptKey)
    requires key in f.attempts && Distinct(order) && forall t :: t in f.messages ==> t < f.nextSequence
    requires forall i :: 0 <= i < |order| ==> order[i] in f.messages
    ensures Fate(f, MoveBack(f, source, now, order), key)
    ensures forall s :: s in MoveBack(f, source, now, order).messages ==> s in f.messages || f.nextSequence <= s
  {
    var d := MoveBack(f, source, now, order);
    MoveBackRecord(f, source, now, order, key);
    MoveBackAdds(f, source, now, order);
    MoveBackTakes(f, source, now, order);
    if Intact(f, d, f.attempts[key].members) {
      forall i | 0 <= i < |order| ensures !Holds(f, f.attempts[key].members, order[i]) {
        assert !SameHolder(f, d, order[i]);
      }
    }
  }

  lemma {:induction false} MoveBackTakes(f: Db, source: string, now: nat, order: seq<nat>)
    requires Distinct(order) && (forall t :: t in f.messages ==> t < f.nextSequence)
    requires forall i :: 0 <= i < |order| ==> order[i] in f.messages
    ensures forall i :: 0 <= i < |order| ==> order[i] !in MoveBack(f, source, now, order).messages
    decreases |order|
  {
    if order != [] {
      var d := MoveMessage(f, order[0], source, now, true, true);
      var rest := order[1..];
      forall i | 0 <= i < |rest| ensures rest[i] in d.messages { assert rest[i] == order[i + 1] && order[0] != order[i + 1]; }
      MoveBackTakes(d, source, now, rest);
      MoveBackAdds(d, source, now, rest);
      forall i | 0 <= i < |order| ensures order[i] !in MoveBack(d, source, now, rest).messages {
        if i > 0 { assert order[i] == rest[i - 1]; }
      }
    }
  }

  lemma PurgeFate(db: Db, op: Op, key: AttemptKey)
    requires op.OpPurge? && op.queue != key.0 && key in db.attempts
    ensures Fate(db, Step(db, op), key)
  {
    DeleteFate(db, Rows(db, op.queue), key);
  }

  lemma RemoveFate(db: Db, op: Op, key: AttemptKey)
    requires op.OpDelete? && key in db.attempts
    ensures Fate(db, Step(db, op), key)
  {
    if op.queue in db.queues { DeleteFate(db, Holding(db, op.queue, op.handle), key); }
  }

  lemma VisibilityFate(db: Db, op: Op, key: AttemptKey)
    requires op.OpChangeVisibility? && key in db.attempts
    ensures Fate(db, Step(db, op), key)
  {
    var d, members := Step(db, op), db.attempts[key].members;
    if d != db && Intact(db, d, members) {
      var S := InFlightHolding(db, op.queue, op.handle, Ms(op.nowMs));
      assert forall s :: s in S ==> !SameHolder(db, d, s);
      assert members * HandlesOf(db.messages, S) == {};
    }
  }

  /** The source that a response shows for a message is the origin of the row that still has its handle. */
  lemma OriginIsShown(db: Db, key: AttemptKey, s: nat)
    requires Inv(db) && key in db.attempts && db.attempts[key].valid && Holds(db, db.attempts[key].members, s)
    ensures exists m :: m in db.attempts[key].response && m.handle == db.messages[s].handle.value
                        && m.deadLetterSource == Origin(db, s) && db.messages[s].queue == key.0
  {
    assert AttemptOk(db, key);
    var a, h := db.attempts[key], db.messages[s].handle.value;
    var m :| m in a.response && m.handle == h;
    assert Shown(db, key.0, m);
    var t :| t in db.messages && db.messages[t].queue == key.0 && db.messages[t].handle == Some(h) && m == ViewRow(db, t);
    assert RowOk(db, s) && RowOk(db, t);
    HandleDetermines(h, s, db.messages[s].count, t, db.messages[t].count);
  }

  lemma DeleteQueueFate(db: Db, op: Op, key: AttemptKey)
    requires Inv(db) && op.OpDeleteQueue? && key in db.attempts && Calm(op, key.0, db.attempts[key].response, 0)
    ensures Fate(db, Step(db, op), key)
  {
    var a, name := db.attempts[key], op.name;
    if name in db.queues {
      var e := DetachOrigins(DetachPolicies(db, name), name);
      DetachedFate(db, e, name, key);
      DeleteFate(e, Rows(e, name), key);
      FateTwice(db, e, Step(db, op), key);
    } else {
      SameFate(db, db, key);
    }
  }

  lemma DetachedFate(db: Db, e: Db, name: string, key: AttemptKey)
    requires Inv(db) && key in db.attempts && e == DetachOrigins(DetachPolicies(db, name), name)
    requires forall m :: m in db.attempts[key].response ==> m.deadLetterSource != Some(name)
    ensures key in e.attempts && (e.attempts[key] == db.attempts[key] || e.attempts[key] == db.attempts[key].(valid := false))
    ensures Fate(db, e, key)
  {
    var a := db.attempts[key];
    if a.valid {
      forall s | s in CameFrom(db, name) ensures !Holds(db, a.members, s) {
        if Holds(db, a.members, s) { OriginIsShown(db, key, s); assert false; }
      }
      assert a.members * HandlesOf(db.messages, CameFrom(db, name)) == {};
    }
  }

  lemma StepFate(db: Db, op: Op, key: AttemptKey)
    requires Inv(db) && key in db.attempts
    requires Calm(op, key.0, db.attempts[key].response, db.attempts[key].createdAt + WINDOW)
    ensures Fate(db, Step(db, op), key)
  {
    match op
    case OpCreateQueue(_, _, _, _, _) => SameFate(db, Step(db, op), key);
    case OpDeleteQueue(_, _) => DeleteQueueFate(db, op, key);
    case OpSetAttributes(_, _, _) => SettingsFate(db, op, key);
    case OpPurge(_, _) => PurgeFate(db, op, key);
    case OpSend(_, _, _) => SendFate(db, op, key);
    case OpReceive(_, _, _, _, _) => ReceiveFate(db, op, key);
    case OpDelete(_, _) => RemoveFate(db, op, key);
    case OpChangeVisibility(_, _, _, _) => VisibilityFate(db, op, key);
    case OpRedrive(_, _, _, _) => RedriveFate(db, op, key);
  }

  // ----- the other direction: a record that is still valid has intact members

  /** A valid record's handles are each on the row they were on. */
  lemma ValidKeepsHolder(db: Db, d: Db, key: AttemptKey, s: nat)
    requires Inv(db) && Inv(d) && key in db.attempts && Holds(db, db.attempts[key].members, s)
    requires key in d.attempts && d.attempts[key] == db.attempts[key] && d.attempts[key].valid
    ensures s in d.messages && d.messages[s].handle == db.messages[s].handle
  {
    assert AttemptOk(d, key);
    var a, h := d.attempts[key], db.messages[s].handle.value;
    var m :| m in a.response && m.handle == h;
    assert Shown(d, key.0, m);
    var t :| t in d.messages && d.messages[t].queue == key.0 && d.messages[t].handle == Some(h) && m == ViewRow(d, t);
    assert RowOk(db, s) && RowOk(d, t);
    HandleDetermines(h, s, db.messages[s].count, t, d.messages[t].count);
  }

  /** A visibility change on a member's row invalidates the record. */
  lemma RevisedIsInvalid(db: Db, op: Op, key: AttemptKey, s: nat)
    requires op.OpChangeVisibility? && key in db.attempts && Holds(db, db.attempts[key].members, s)
    requires s in Step(db, op).messages && Step(db, op).messages[s].revision != db.messages[s].revision
    ensures key in Step(db, op).attempts && !Step(db, op).attempts[key].valid
  {
    var S := InFlightHolding(db, op.queue, op.handle, Ms(op.nowMs));
    assert s in S;
    assert db.messages[s].handle.value in HandlesOf(db.messages, S);
    assert db.messages[s].handle.value in db.attempts[key].members * HandlesOf(db.messages, S);
  }

  lemma ValidIsIntact(db: Db, op: Op, key: AttemptKey)
    requires Inv(db) && key in db.attempts && db.attempts[key].valid
    requires key in Step(db, op).attempts && Step(db, op).attempts[key] == db.attempts[key]
    ensures Intact(db, Step(db, op), db.attempts[key].members)
  {
    var d := Step(db, op);
    StepKeeps(db, op);
    StepEvolves(db, op);
    forall s | Holds(db, db.attempts[key].members, s) ensures SameHolder(db, d, s) {
      ValidKeepsHolder(db, d, key, s);
      assert Evolves(db, d, op, s);
      if d.messages[s].revision != db.messages[s].revision { RevisedIsInvalid(db, op, key, s); }
    }
  }

  // ----- runs

  /** A row only ages: counts and revisions grow, and the handle changes only with the count. */
  predicate Older(r: Row, o: Row) {
    o.count <= r.count && o.revision <= r.revision && (o.count == r.count ==> r.handle == o.handle)
  }

  lemma StepAges(db: Db, op: Op, s: nat)
    requires Inv(db) && s < db.nextSequence && s in Step(db, op).messages
    ensures s in db.messages && Older(Step(db, op).messages[s], db.messages[s]) && db.nextSequence <= Step(db, op).nextSequence
  {
    StepEvolves(db, op);
    assert Evolves(db, Step(db, op), op, s);
  }

  lemma {:induction false} RunAges(db: Db, ops: seq<Op>, s: nat)
    requires Inv(db) && s < db.nextSequence && s in Run(db, ops).messages
    ensures s in db.messages && Older(Run(db, ops).messages[s], db.messages[s])
    decreases |ops|
  {
    if ops != [] {
      StepKeeps(db, ops[0]);
      StepEvolves(db, ops[0]);
      RunAges(Step(db, ops[0]), ops[1..], s);
      StepAges(db, ops[0], s);
    }
  }

  /** Intact over a run is intact over its first operation and over the rest. */
  lemma IntactSplits(db: Db, ops: seq<Op>, key: AttemptKey)
    requires Inv(db) && ops != [] && key in db.attempts && db.attempts[key].valid
    requires Intact(db, Run(db, ops), db.attempts[key].members)
    ensures Intact(db, Step(db, ops[0]), db.attempts[key].members)
    ensures Intact(Step(db, ops[0]), Run(db, ops), db.attempts[key].members)
  {
    var members, d, f := db.attempts[key].members, Step(db, ops[0]), Run(db, ops);
    StepKeeps(db, ops[0]);
    StepEvolves(db, ops[0]);
    RunKeeps(d, ops[1..]);
    forall s | Holds(db, members, s) ensures SameHolder(db, d, s) && SameHolder(d, f, s) {
      HolderBetween(db, ops, members, s);
    }
    forall s | Holds(d, members, s) ensures SameHolder(d, f, s) {
      HoldersComeFrom(db, d, key, s);
    }
  }

  lemma HolderBetween(db: Db, ops: seq<Op>, members: set<string>, s: nat)
    requires Inv(db) && ops != [] && Holds(db, members, s) && SameHolder(db, Run(db, ops), s)
    ensures SameHolder(db, Step(db, ops[0]), s) && SameHolder(Step(db, ops[0]), Run(db, ops), s)
  {
    var d, f := Step(db, ops[0]), Run(db, ops);
    StepKeeps(db, ops[0]);
    StepEvolves(db, ops[0]);
    RunKeeps(d, ops[1..]);
    assert RowOk(db, s) && RowOk(f, s);
    HandleDetermines(db.messages[s].handle.value, s, db.messages[s].count, s, f.messages[s].count);
    RunAges(d, ops[1..], s);
    StepAges(db, ops[0], s);
  }

  /** Whoever has one of the handles after the step had it before. */
  lemma HoldersComeFrom(db: Db, d: Db, key: AttemptKey, s: nat)
    requires Inv(db) && Inv(d) && key in db.attempts && db.attempts[key].valid
    requires Intact(db, d, db.attempts[key].members) && Holds(d, db.attempts[key].members, s)
    ensures Holds(db, db.attempts[key].members, s)
  {
    assert AttemptOk(db, key);
    var a, h := db.attempts[key], d.messages[s].handle.value;
    var m :| m in a.response && m.handle == h;
    assert Shown(db, key.0, m);
    var t :| t in db.messages && db.messages[t].queue == key.0 && db.messages[t].handle == Some(h) && m == ViewRow(db, t);
    assert Holds(db, a.members, t) && SameHolder(db, d, t);
    assert RowOk(d, s) && RowOk(d, t);
    HandleDetermines(h, s, d.messages[s].count, t, d.messages[t].count);
  }

  ghost predicate AllCalm(ops: seq<Op>, q: string, response: seq<Received>, until: nat) {
    forall i :: 0 <= i < |ops| ==> Calm(ops[i], q, response, until)
  }

  lemma {:induction false} InvalidForever(db: Db, ops: seq<Op>, key: AttemptKey)
    requires Inv(db) && key in db.attempts && !db.attempts[key].valid
    requires AllCalm(ops, key.0, db.attempts[key].response, db.attempts[key].createdAt + WINDOW)
    ensures key in Run(db, ops).attempts && Run(db, ops).attempts[key] == db.attempts[key]
    decreases |ops|
  {
    if ops != [] {
      assert Calm(ops[0], key.0, db.attempts[key].response, db.attempts[key].createdAt + WINDOW);
      StepFate(db, ops[0], key);
      StepKeeps(db, ops[0]);
      assert forall i :: 0 <= i < |ops[1..]| ==> ops[1..][i] == ops[i + 1];
      InvalidForever(Step(db, ops[0]), ops[1..], key);
    }
  }

  /**
    * Over any run of operations within the record's five minutes that neither purge nor delete its queue or a
    * queue its response shows as a source: the record is still there, and it is still valid exactly when every
    * row of its response still has its handle and was not re-timed. Otherwise it is invalid.
    */
  lemma {:induction false} RecordOverRuns(db: Db, ops: seq<Op>, key: AttemptKey)
    requires Inv(db) && key in db.attempts && db.attempts[key].valid
    requires AllCalm(ops, key.0, db.attempts[key].response, db.attempts[key].createdAt + WINDOW)
    ensures var a, f := db.attempts[key], Run(db, ops);
            && key in f.attempts
            && f.attempts[key] == if Intact(db, f, a.members) then a else a.(valid := false)
    decreases |ops|
  {
    if ops != [] {
      var a, d, f := db.attempts[key], Step(db, ops[0]), Run(db, ops);
      assert Calm(ops[0], key.0, a.response, a.createdAt + WINDOW);
      StepFate(db, ops[0], key);
      StepKeeps(db, ops[0]);
      assert forall i :: 0 <= i < |ops[1..]| ==> ops[1..][i] == ops[i + 1];
      if d.attempts[key] == a {
        RecordOverRuns(d, ops[1..], key);
        ValidIsIntact(db, ops[0], key);
        if Intact(db, f, a.members) { IntactSplits(db, ops, key); } else { IntactJoins(db, d, f, a.members); }
      } else {
        InvalidForever(d, ops[1..], key);
        if Intact(db, f, a.members) { IntactSplits(db, ops, key); }
      }
    }
  }

  lemma IntactJoins(db: Db, d: Db, f: Db, members: set<string>)
    requires Intact(db, d, members)
    ensures Intact(d, f, members) ==> Intact(db, f, members)
  {
    if Intact(d, f, members) {
      forall s | Holds(db, members, s) ensures SameHolder(db, f, s) {
        assert SameHolder(db, d, s);
        assert Holds(d, members, s);
        assert SameHolder(d, f, s);
      }
    }
  }
}
