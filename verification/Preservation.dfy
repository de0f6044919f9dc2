/** Every operation keeps the invariant. */
module Preservation {
  import opened Identifiers
  import opened Tables
  import opened ReceivePlan
  import opened PlanFacts
  import opened Operations
  import opened Invariants

  /** Rows, ids and origins stay; attempts may go or become invalid; queues keep their type. */
  ghost predicate SameRows(db: Db, d: Db) {
    && d.messages == db.messages && d.nextSequence == db.nextSequence && d.origins == db.origins
    && (forall q :: q in db.queues ==> q in d.queues && d.queues[q].kind == db.queues[q].kind)
    && (forall k :: k in d.attempts ==>
          k in db.attempts && d.attempts[k] == db.attempts[k].(valid := d.attempts[k].valid)
          && (d.attempts[k].valid ==> db.attempts[k].valid))
  }

  lemma SameRowsKinds(db: Db, d: Db)
    requires TableOk(db) && SameRows(db, d)
    ensures forall s :: s in db.messages ==> Kind(d, db.messages[s].queue) == Kind(db, db.messages[s].queue)
  {
    forall s | s in db.messages ensures Kind(d, db.messages[s].queue) == Kind(db, db.messages[s].queue) {
      assert RowOk(db, s);
    }
  }

  lemma SameRowsAttempts(db: Db, d: Db)
    requires TableOk(db) && AttemptsOk(db) && SameRows(db, d)
    ensures AttemptsOk(d)
  {
    SameRowsKinds(db, d);
    AttemptQueues(db);
    AttemptsFrame(db, d);
  }

  lemma SameRowsKeep(db: Db, d: Db)
    requires Inv(db) && SameRows(db, d) && GraphOk(d) && KeysOk(d)
    ensures Inv(d)
  {
    TableFrame(db, d);
    SameRowsKinds(db, d);
    PrefixFrame(db, d);
    SameRowsAttempts(db, d);
  }

  // ----- queues and settings

  lemma WritePolicyKeeps(db: Db, q: string, policy: Option<Policy>)
    requires Inv(db) && q in db.queues && WritePolicy(db, q, policy).Some?
    ensures Inv(WritePolicy(db, q, policy).value)
  {
    var d := WritePolicy(db, q, policy).value;
    forall k | k in d.attempts ensures d.attempts[k] == db.attempts[k].(valid := d.attempts[k].valid) {}
    SameRowsKeep(db, d);
  }

  lemma CreateQueueKeeps(db: Db, name: string, kind: QueueType, settings: Settings, policy: Option<Policy>, nowMs: nat)
    requires Inv(db)
    ensures Inv(CreateQueue(db, name, kind, settings, policy, nowMs).db)
  {
    var r := CreateQueue(db, name, kind, settings, policy, nowMs);
    if r.reply == Done {
      var inserted := db.(deleted := db.deleted - {name}, queues := db.queues[name := Queue(kind, settings, None)]);
      assert GraphOk(inserted);
      SameRowsKeep(db, inserted);
      WritePolicyKeeps(inserted, name, policy);
    }
  }

  lemma SettingsKeep(db: Db, q: string, queue: Queue)
    requires Inv(db) && q in db.queues && queue.kind == db.queues[q].kind
    ensures Inv(db.(queues := db.queues[q := queue]))
  {
    var d := db.(queues := db.queues[q := queue]);
    assert GraphOk(d);
    SameRowsKeep(db, d);
  }

  lemma DelayKeeps(db: Db, q: string, delay: nat)
    requires Inv(db)
    ensures Inv(DelayUnreceived(db, q, delay))
  {
    SameViewsKeep(db, DelayUnreceived(db, q, delay));
  }

  lemma SetQueueAttributesKeeps(db: Db, q: string, u: Update, nowMs: nat)
    requires Inv(db)
    ensures Inv(SetQueueAttributes(db, q, u, nowMs).db)
  {
    var r := SetQueueAttributes(db, q, u, nowMs);
    if r.reply == Done {
      var queue := db.queues[q];
      if u.policy.Some? { WritePolicyKeeps(db, q, u.policy.value); }
      var written := if u.policy.None? then db else WritePolicy(db, q, u.policy.value).value;
      var settings := Resolve(queue.settings, u);
      SettingsKeep(written, q, queue.(settings := settings));
      var updated := written.(queues := db.queues[q := queue.(settings := settings)]);
      DelayKeeps(updated, q, settings.delay);
      var delayed := if queue.kind == Fifo && settings.delay != queue.settings.delay
                     then DelayUnreceived(updated, q, settings.delay) else updated;
      DeleteRowsKeeps(delayed, ExpiredRows(delayed, q, Ms(nowMs)));
    }
  }

  lemma PurgeQueueKeeps(db: Db, q: string, nowMs: nat)
    requires Inv(db)
    ensures Inv(PurgeQueue(db, q, nowMs).db)
  {
    if PurgeQueue(db, q, nowMs).reply == Done {
      var emptied := DeleteRows(db, Rows(db, q));
      DeleteRowsKeeps(db, Rows(db, q));
      SameRowsKeep(emptied, InvalidateQueue(emptied, q));
      SettingsKeep(InvalidateQueue(emptied, q), q, db.queues[q].(lastPurge := Some(Ms(nowMs))));
    }
  }

  /** The explicit clause in queue deletion: views that show the lost origin belong to invalid attempts. */
  lemma DetachOriginsKeeps(db: Db, q: string)
    requires Inv(db)
    ensures Inv(DetachOrigins(db, q))
  {
    var d := DetachOrigins(db, q);
    TableFrame(db, d);
    PrefixFrame(db, d);
    DetachOriginsAttempts(db, q);
    assert GraphOk(d) && OriginsOk(d) && KeysOk(d);
  }

  lemma DetachOriginsAttempts(db: Db, q: string)
    requires AttemptsOk(db)
    ensures AttemptsOk(DetachOrigins(db, q))
  {
    AttemptQueues(db);
    TriggerProtects(db, DetachOrigins(db, q), CameFrom(db, q));
  }

  lemma DropQueueTable(db: Db, q: string)
    requires TableOk(db) && PrefixOk(db)
    requires forall s :: s in db.messages ==> db.messages[s].queue != q
    ensures TableOk(db.(queues := db.queues - {q})) && PrefixOk(db.(queues := db.queues - {q}))
  {
    var d := db.(queues := db.queues - {q});
    forall s | s in d.messages ensures RowOk(d, s) { assert RowOk(db, s); }
    assert IdsUnique(d) by { assert d.messages == db.messages; }
    PrefixFrame(db, d);
  }

  lemma DropQueueAttempts(db: Db, d: Db, q: string)
    requires AttemptsOk(db) && d.queues == db.queues - {q} && d.messages == db.messages && d.origins == db.origins
    requires d.attempts == map k | k in db.attempts && k.0 != q :: db.attempts[k]
    requires forall s :: s in db.messages ==> db.messages[s].queue != q
    ensures AttemptsOk(d)
  {
    AttemptQueues(db);
    AttemptsFrame(db, d);
  }

  lemma DropQueueKeeps(db: Db, q: string)
    requires Inv(db) && q in db.queues
    requires forall s :: s in db.policies ==> s != q && db.policies[s].deadLetterQueue != q
    requires forall s :: s in db.origins ==> db.origins[s] != q
    ensures Inv(DropQueue(db, q))
  {
    var emptied := DeleteRows(db, Rows(db, q));
    DeleteRowsKeeps(db, Rows(db, q));
    DropQueueRows(emptied, DropQueue(db, q), q);
    DropQueueRest(emptied, DropQueue(db, q), q);
    DropQueueAttempts(emptied, DropQueue(db, q), q);
  }

  lemma DropQueueRows(db: Db, d: Db, q: string)
    requires TableOk(db) && PrefixOk(db)
    requires forall s :: s in db.messages ==> db.messages[s].queue != q
    requires d.queues == db.queues - {q} && d.messages == db.messages && d.nextSequence == db.nextSequence
    ensures TableOk(d) && PrefixOk(d)
  {
    DropQueueTable(db, q);
    TableFrame(db.(queues := db.queues - {q}), d);
    PrefixFrame(db.(queues := db.queues - {q}), d);
  }

  lemma DropQueueRest(db: Db, d: Db, q: string)
    requires GraphOk(db) && OriginsOk(db) && KeysOk(db)
    requires forall s :: s in db.policies ==> s != q && db.policies[s].deadLetterQueue != q
    requires forall s :: s in db.origins ==> db.origins[s] != q
    requires d.queues == db.queues - {q} && d.messages == db.messages && d.policies == db.policies && d.origins == db.origins
    requires d.keys == set k | k in db.keys && k.queue != q
    ensures GraphOk(d) && OriginsOk(d) && KeysOk(d)
  {
  }

  /** What is left of a deleted queue: nothing of its own, and no policy or origin that names it. */
  lemma DeleteQueueDetaches(db: Db, q: string, nowMs: nat)
    requires Inv(db) && q in db.queues
    ensures var d := DeleteQueue(db, q, nowMs).db;
            && d.queues == db.queues - {q} && Rows(d, q) == {}
            && (forall k :: k in d.keys <==> k in db.keys && k.queue != q)
            && (forall k :: k in d.attempts ==> k.0 != q)
            && (forall s :: s in d.policies <==> s in db.policies && s != q && db.policies[s].deadLetterQueue != q)
            && (forall s :: s in d.origins ==> d.origins[s] != q)
  {
  }

  /** Rows of other queues only lose an origin in the deleted queue. */
  lemma DeleteQueueSparesOthers(db: Db, q: string, nowMs: nat)
    requires Inv(db) && q in db.queues
    ensures var d := DeleteQueue(db, q, nowMs).db;
            forall s :: s in db.messages && db.messages[s].queue != q ==>
              && s in d.messages && d.messages[s] == db.messages[s]
              && Origin(d, s) == if Origin(db, s) == Some(q) then None else Origin(db, s)
  {
  }

  /** A response that showed the queue as a source is not replayed any more. */
  lemma DeleteQueueInvalidates(db: Db, q: string, nowMs: nat, k: AttemptKey, m: Received)
    requires Inv(db) && q in db.queues && k in db.attempts && m in db.attempts[k].response && m.deadLetterSource == Some(q)
    requires k in DeleteQueue(db, q, nowMs).db.attempts
    ensures !DeleteQueue(db, q, nowMs).db.attempts[k].valid
  {
    DeleteQueueKeeps(db, q, nowMs);
    DeleteQueueDetaches(db, q, nowMs);
    var d := DeleteQueue(db, q, nowMs).db;
    assert m in d.attempts[k].response && AttemptOk(d, k);
    assert !Shown(d, k.0, m);
  }

  lemma DeleteQueueKeeps(db: Db, q: string, nowMs: nat)
    requires Inv(db)
    ensures Inv(DeleteQueue(db, q, nowMs).db)
  {
    if q in db.queues {
      var detached := DetachPolicies(db, q);
      SameRowsKeep(db, detached);
      DetachOriginsKeeps(detached, q);
      DropQueueKeeps(DetachOrigins(detached, q), q);
      ReservationKeeps(DropQueue(DetachOrigins(detached, q), q), q, Ms(nowMs));
    }
  }

  lemma ReservationKeeps(db: Db, name: string, deletedAt: nat)
    requires Inv(db)
    ensures Inv(db.(deleted := db.deleted[name := deletedAt]))
  {
    SameRowsKeep(db, db.(deleted := db.deleted[name := deletedAt]));
  }

  // ----- send

  lemma ExpireKeeps(db: Db, q: string, now: nat)
    requires Inv(db)
    ensures Inv(ExpireMessages(db, q, now))
  {
    DeleteRowsKeeps(db, ExpiredRows(db, q, now));
  }

  lemma InsertMessageKeeps(db: Db, q: string, p: Prepared, now: nat)
    requires Inv(db) && q in db.queues && p.Prepared?
    requires db.queues[q].kind == Fifo ==> p.request.group.Some?
    requires p.dedup.Some? ==> p.request.group.Some? && p.request.group.value != ""
    requires p.dedup.Some? ==> forall k :: k in db.keys ==>
               !(k.queue == q && k.dedup == p.dedup.value && k.group == p.request.group.value)
    ensures Inv(InsertMessage(db, q, p, now))
  {
    FreshId(db);
    var inserted := InsertRow(db, NewRow(q, p, db.nextSequence, now));
    InsertRowKeeps(db, NewRow(q, p, db.nextSequence, now));
    ChangeKeysKeeps(inserted, InsertMessage(db, q, p, now).keys);
  }

  /** No live key in scope: in particular the key insert never meets its primary key. */
  lemma NoMatchNoClash(db: Db, q: string, dedup: string, scope: Scope, group: Option<string>)
    requires group.Some? && MatchingKeys(db, q, dedup, scope, group) == {}
    ensures forall k :: k in db.keys ==> !(k.queue == q && k.dedup == dedup && k.group == group.value)
  {
    forall k | k in db.keys ensures !(k.queue == q && k.dedup == dedup && k.group == group.value) {
      assert k !in MatchingKeys(db, q, dedup, scope, group);
    }
  }

  /** The database a send searches for duplicates: expired rows and old keys are gone. */
  function ReadyToSend(db: Db, q: string, p: Prepared, nowMs: nat): Db
    requires p.Prepared?
  {
    var expired := ExpireMessages(db, q, Ms(nowMs));
    if p.dedup.Some? then PruneKeys(expired, q, nowMs) else expired
  }

  lemma ReadyToSendKeeps(db: Db, q: string, p: Prepared, nowMs: nat)
    requires Inv(db) && p.Prepared?
    ensures Inv(ReadyToSend(db, q, p, nowMs))
  {
    ExpireKeeps(db, q, Ms(nowMs));
    PruneKeysKeeps(ExpireMessages(db, q, Ms(nowMs)), q, nowMs);
  }

  lemma PruneKeysKeeps(db: Db, q: string, nowMs: nat)
    requires Inv(db)
    ensures Inv(PruneKeys(db, q, nowMs))
  {
    ChangeKeysKeeps(db, PruneKeys(db, q, nowMs).keys);
  }

  /** Only the key table changes. */
  lemma ChangeKeysKeeps(db: Db, keys: set<Key>)
    requires Inv(db) && KeysOk(db.(keys := keys))
    ensures Inv(db.(keys := keys))
  {
    var d := db.(keys := keys);
    TableFrame(db, d);
    PrefixFrame(db, d);
    ChangeKeysAttempts(db, keys);
  }

  lemma ChangeKeysAttempts(db: Db, keys: set<Key>)
    requires AttemptsOk(db)
    ensures AttemptsOk(db.(keys := keys))
  {
    AttemptQueues(db);
    AttemptsFrame(db, db.(keys := keys));
  }

  lemma SendKeeps(db: Db, q: string, request: SendRequest, nowMs: nat)
    requires Inv(db)
    ensures Inv(Send(db, q, request, nowMs).db)
  {
    if q in db.queues {
      var p := PrepareSend(request, db.queues[q]);
      if p.Prepared? {
        var ready := ReadyToSend(db, q, p, nowMs);
        ReadyToSendKeeps(db, q, p, nowMs);
        if p.dedup.Some? {
          var scope := db.queues[q].settings.scope;
          if MatchingKeys(ready, q, p.dedup.value, scope, request.group) == {} {
            NoMatchNoClash(ready, q, p.dedup.value, scope, request.group);
            InsertMessageKeeps(ready, q, p, Ms(nowMs));
          }
        } else {
          InsertMessageKeeps(ready, q, p, Ms(nowMs));
        }
      }
    }
  }

  // ----- receive

  /** Every older row of the same group is handled before, or was received already. */
  ghost predicate Ready(db: Db, plan: seq<nat>)
    requires forall i :: 0 <= i < |plan| ==> plan[i] in db.messages
  {
    forall i, e | 0 <= i < |plan| && e in db.messages && e < plan[i] && SameGroup(db, e, plan[i]) ::
      e in plan[..i] || db.messages[e].count > 0
  }

  ghost predicate Collectable(db: Db, q: string, policy: Option<Policy>, plan: seq<nat>) {
    && q in db.queues && Distinct(plan)
    && (forall i :: 0 <= i < |plan| ==> plan[i] in db.messages && db.messages[plan[i]].queue == q)
    && (policy.Some? ==> policy.value.deadLetterQueue in db.queues && policy.value.deadLetterQueue != q
                         && Kind(db, policy.value.deadLetterQueue) == Kind(db, q))
    && (Kind(db, q) == Fifo ==> Ready(db, plan))
  }

  /** Row s and what a view of it shows are the same in d. */
  ghost predicate Untouched(db: Db, d: Db, s: nat)
    requires s in db.messages
  {
    s in d.messages && d.messages[s] == db.messages[s] && Origin(d, s) == Origin(db, s)
  }

  /** One pass of the loop on the first row of the plan. */
  function Handle(db: Db, q: string, policy: Option<Policy>, visibility: nat, now: nat, s: nat): Db
    requires s in db.messages
  {
    if Over(db.messages[s], policy) then DeadLetter(db, s, q, policy.value, now) else Deliver(db, s, visibility, now)
  }

  /** Everything but row s is left alone; what is new went to the dead-letter queue. */
  ghost predicate TouchesOne(db: Db, d: Db, s: nat, policy: Option<Policy>) {
    && d.queues == db.queues && d.policies == db.policies && d.keys == db.keys && d.attempts.Keys == db.attempts.Keys
    && db.nextSequence <= d.nextSequence
    && (forall t :: t in db.messages && t != s ==> Untouched(db, d, t))
    && (forall t :: t in d.messages && t !in db.messages ==> policy.Some? && d.messages[t].queue == policy.value.deadLetterQueue)
    && (s in d.messages ==> d.messages[s].count > 0)
  }

  lemma DeadLetterTouchesOne(db: Db, q: string, policy: Policy, now: nat, s: nat)
    requires s in db.messages && forall t :: t in db.messages ==> t < db.nextSequence
    ensures TouchesOne(db, DeadLetter(db, s, q, policy, now), s, Some(policy))
  {
  }

  lemma DeliverTouchesOne(db: Db, visibility: nat, now: nat, s: nat, policy: Option<Policy>)
    requires s in db.messages
    ensures TouchesOne(db, Deliver(db, s, visibility, now), s, policy)
  {
  }

  lemma HandleTouchesOne(db: Db, q: string, policy: Option<Policy>, visibility: nat, now: nat, s: nat)
    requires TableOk(db) && s in db.messages
    ensures TouchesOne(db, Handle(db, q, policy, visibility, now, s), s, policy)
  {
    assert forall t :: t in db.messages ==> RowOk(db, t);
    if Over(db.messages[s], policy) {
      DeadLetterTouchesOne(db, q, policy.value, now, s);
    } else {
      DeliverTouchesOne(db, visibility, now, s, policy);
    }
  }

  lemma ReadyStep(db: Db, d: Db, q: string, policy: Option<Policy>, plan: seq<nat>)
    requires Collectable(db, q, policy, plan) && plan != [] && TouchesOne(db, d, plan[0], policy)
    ensures Collectable(d, q, policy, plan[1..])
  {
    var s := plan[0];
    var rest := plan[1..];
    forall i | 0 <= i < |rest| ensures rest[i] in d.messages && d.messages[rest[i]] == db.messages[rest[i]] {
      assert rest[i] == plan[i + 1] && plan[0] != plan[i + 1];
      assert Untouched(db, d, rest[i]);
    }
    if Kind(db, q) == Fifo {
      forall i, e | 0 <= i < |rest| && e in d.messages && e < rest[i] && SameGroup(d, e, rest[i])
        ensures e in rest[..i] || d.messages[e].count > 0
      {
        ReadyStepAt(db, d, q, policy, plan, i, e);
      }
    }
  }

  lemma ReadyStepAt(db: Db, d: Db, q: string, policy: Option<Policy>, plan: seq<nat>, i: nat, e: nat)
    requires Collectable(db, q, policy, plan) && plan != [] && TouchesOne(db, d, plan[0], policy) && Kind(db, q) == Fifo
    requires i < |plan[1..]| && plan[i + 1] in d.messages && d.messages[plan[i + 1]] == db.messages[plan[i + 1]]
    requires e in d.messages && e < plan[i + 1] && SameGroup(d, e, plan[i + 1])
    ensures e in plan[1..][..i] || d.messages[e].count > 0
  {
  }

  lemma HandleKeeps(db: Db, q: string, policy: Option<Policy>, visibility: nat, now: nat, plan: seq<nat>)
    requires Inv(db) && Collectable(db, q, policy, plan) && plan != []
    ensures Inv(Handle(db, q, policy, visibility, now, plan[0]))
  {
    var s := plan[0];
    if Over(db.messages[s], policy) {
      DeadLetterKeeps(db, s, q, policy.value, now);
    } else {
      if Kind(db, q) == Fifo {
        forall e | e in db.messages && e < s && SameGroup(db, e, s) ensures db.messages[e].count > 0 {
          assert plan[..0] == [];
        }
      }
      DeliverKeeps(db, s, visibility, now);
    }
  }

  /** Rows outside the plan are left alone, and the response is what its rows now show. */
  ghost predicate CollectedWell(db: Db, q: string, plan: seq<nat>, c: Collected) {
    && c.db.queues == db.queues && c.db.policies == db.policies && c.db.keys == db.keys && c.db.attempts.Keys == db.attempts.Keys
    && db.nextSequence <= c.db.nextSequence
    && (forall s :: s in db.messages && s !in plan ==> Untouched(db, c.db, s))
    && (forall m :: m in c.received ==> Shown(c.db, q, m))
  }

  lemma HandleStep(db: Db, q: string, policy: Option<Policy>, visibility: nat, now: nat, plan: seq<nat>)
    requires Inv(db) && Collectable(db, q, policy, plan) && plan != []
    ensures var d := Handle(db, q, policy, visibility, now, plan[0]);
            Inv(d) && TouchesOne(db, d, plan[0], policy) && Collectable(d, q, policy, plan[1..])
  {
    HandleKeeps(db, q, policy, visibility, now, plan);
    HandleTouchesOne(db, q, policy, visibility, now, plan[0]);
    ReadyStep(db, Handle(db, q, policy, visibility, now, plan[0]), q, policy, plan);
  }

  /** The loop's first pass: what it returned, and what it leaves to the remaining plan. */
  function Front(db: Db, d: Db, s: nat): seq<Received>
    requires s in db.messages
  {
    if s in d.messages then [ViewRow(d, s)] else []
  }

  lemma CollectUnfold(db: Db, d: Db, q: string, policy: Option<Policy>, visibility: nat, now: nat, plan: seq<nat>, limit: nat)
    requires Distinct(plan) && plan != [] && limit != 0
    requires forall i :: 0 <= i < |plan| ==> plan[i] in db.messages && plan[i] < db.nextSequence
    requires d == Handle(db, q, policy, visibility, now, plan[0])
    requires forall i :: 0 <= i < |plan[1..]| ==> plan[1..][i] in d.messages
    ensures var next := if Over(db.messages[plan[0]], policy) then limit else limit - 1;
            var rest := Collect(d, q, policy, visibility, now, plan[1..], next);
            Collect(db, q, policy, visibility, now, plan, limit) == Collected(rest.db, Front(db, d, plan[0]) + rest.received)
    ensures plan[0] in d.messages ==> d == Deliver(db, plan[0], visibility, now)
  {
  }

  lemma CollectFirst(db: Db, q: string, policy: Option<Policy>, visibility: nat, now: nat, plan: seq<nat>, limit: nat)
      returns (d: Db, next: nat)
    requires Inv(db) && Collectable(db, q, policy, plan) && plan != [] && limit != 0
    ensures Inv(d) && TouchesOne(db, d, plan[0], policy) && Collectable(d, q, policy, plan[1..])
    ensures var rest := Collect(d, q, policy, visibility, now, plan[1..], next);
            Collect(db, q, policy, visibility, now, plan, limit) == Collected(rest.db, Front(db, d, plan[0]) + rest.received)
    ensures plan[0] in d.messages ==> d == Deliver(db, plan[0], visibility, now)
  {
    assert forall i :: 0 <= i < |plan| ==> RowOk(db, plan[i]);
    HandleStep(db, q, policy, visibility, now, plan);
    d := Handle(db, q, policy, visibility, now, plan[0]);
    next := if Over(db.messages[plan[0]], policy) then limit else limit - 1;
    CollectUnfold(db, d, q, policy, visibility, now, plan, limit);
  }

  lemma CollectedAfterFirst(db: Db, d: Db, q: string, policy: Option<Policy>, visibility: nat, now: nat, plan: seq<nat>, rest: Collected)
    requires plan != [] && Distinct(plan) && plan[0] in db.messages && db.messages[plan[0]].queue == q
    requires TouchesOne(db, d, plan[0], policy) && CollectedWell(d, q, plan[1..], rest)
    requires plan[0] in d.messages ==> d == Deliver(db, plan[0], visibility, now)
    ensures CollectedWell(db, q, plan, Collected(rest.db, Front(db, d, plan[0]) + rest.received))
  {
  }

  /** The whole loop keeps the invariant and returns what its rows now show. */
  lemma {:induction false} CollectKeeps(db: Db, q: string, policy: Option<Policy>, visibility: nat, now: nat, plan: seq<nat>, limit: nat)
    requires Inv(db) && Collectable(db, q, policy, plan)
    ensures var c := Collect(db, q, policy, visibility, now, plan, limit);
            Inv(c.db) && CollectedWell(db, q, plan, c)
    decreases |plan|
  {
    if limit != 0 && plan != [] {
      var d, next := CollectFirst(db, q, policy, visibility, now, plan, limit);
      CollectKeeps(d, q, policy, visibility, now, plan[1..], next);
      var rest := Collect(d, q, policy, visibility, now, plan[1..], next);
      CollectedAfterFirst(db, d, q, policy, visibility, now, plan, rest);
    }
  }

  lemma ReceiveOrderCollectable(db: Db, q: string, now: nat)
    requires Inv(db) && q in db.queues
    ensures Collectable(db, q, PolicyOf(db, q), ReceiveOrder(db, q, now))
  {
    var S := Rows(db, q);
    var policy := PolicyOf(db, q);
    var plan := ReceiveOrder(db, q, now);
    FifoPlanMembers(db.messages, S, now, policy);
    forall i | 0 <= i < |plan| ensures plan[i] in S { assert plan[i] in plan; }
    if Kind(db, q) == Fifo {
      forall i, e | 0 <= i < |plan| && e in db.messages && e < plan[i] && SameGroup(db, e, plan[i])
        ensures e in plan[..i]
      {
        assert e in S;
      }
    }
  }

  lemma SaveAttemptKeeps(db: Db, q: string, o: ReceiveOptions, maximum: nat, visibility: nat, now: nat, received: seq<Received>)
    requires Inv(db) && q in db.queues && |received| <= maximum && forall m :: m in received ==> Shown(db, q, m)
    ensures Inv(SaveAttempt(db, q, o, maximum, visibility, now, received))
  {
    var d := SaveAttempt(db, q, o, maximum, visibility, now, received);
    TableFrame(db, d);
    PrefixFrame(db, d);
    assert GraphOk(d) && OriginsOk(d) && KeysOk(d);
    SaveAttemptAttempts(db, q, o, maximum, visibility, now, received);
  }

  lemma SaveAttemptAttempts(db: Db, q: string, o: ReceiveOptions, maximum: nat, visibility: nat, now: nat, received: seq<Received>)
    requires AttemptsOk(db) && q in db.queues && |received| <= maximum && forall m :: m in received ==> Shown(db, q, m)
    ensures AttemptsOk(SaveAttempt(db, q, o, maximum, visibility, now, received))
  {
    forall k | k in SaveAttempt(db, q, o, maximum, visibility, now, received).attempts
      ensures AttemptOk(SaveAttempt(db, q, o, maximum, visibility, now, received), k)
    {
      SaveAttemptAt(db, q, o, maximum, visibility, now, received, k);
    }
  }

  lemma ShownFrame(db: Db, d: Db, q: string, m: Received)
    requires Shown(db, q, m) && d.messages == db.messages && d.origins == db.origins && d.queues == db.queues
    ensures Shown(d, q, m)
  {
    var s :| s in db.messages && db.messages[s].queue == q && db.messages[s].handle == Some(m.handle) && m == ViewRow(db, s);
    assert m == ViewRow(d, s);
  }

  lemma SaveAttemptAt(db: Db, q: string, o: ReceiveOptions, maximum: nat, visibility: nat, now: nat, received: seq<Received>, k: AttemptKey)
    requires AttemptsOk(db) && q in db.queues && |received| <= maximum && forall m :: m in received ==> Shown(db, q, m)
    requires k in SaveAttempt(db, q, o, maximum, visibility, now, received).attempts
    ensures AttemptOk(SaveAttempt(db, q, o, maximum, visibility, now, received), k)
  {
    var d := SaveAttempt(db, q, o, maximum, visibility, now, received);
    if o.attemptId.Some? && k == (q, o.attemptId.value) {
      forall m | m in received ensures Shown(d, q, m) { ShownFrame(db, d, q, m); }
    } else {
      assert AttemptOk(db, k);
      AttemptStays(db, d, k);
    }
  }

  lemma ExtendHiddenViews(db: Db, q: string, handles: set<string>, until: nat)
    requires TableOk(db)
    ensures SameViews(db, ExtendHidden(db, q, handles, until))
  {
    var d := ExtendHidden(db, q, handles, until);
    forall s | s in db.messages ensures SameShownColumns(d.messages[s], db.messages[s]) { assert RowOk(db, s); }
  }

  lemma ExtendHiddenKeeps(db: Db, q: string, handles: set<string>, until: nat)
    requires Inv(db)
    ensures Inv(ExtendHidden(db, q, handles, until))
  {
    ExtendHiddenViews(db, q, handles, until);
    SameViewsKeep(db, ExtendHidden(db, q, handles, until));
  }

  lemma CollectReceivedKeeps(db: Db, q: string, limit: nat, visibility: nat, now: nat)
    requires Inv(db) && q in db.queues
    ensures var c := CollectReceived(db, q, limit, visibility, now);
            Inv(c.db) && CollectedWell(db, q, ReceiveOrder(db, q, now), c)
  {
    ReceiveOrderCollectable(db, q, now);
    CollectKeeps(db, q, PolicyOf(db, q), visibility, now, ReceiveOrder(db, q, now), Cap(Kind(db, q), visibility, now, limit));
  }

  /** The loop stops when it has delivered as many messages as it may. */
  lemma {:induction false} CollectsAtMost(db: Db, q: string, policy: Option<Policy>, visibility: nat, now: nat, plan: seq<nat>, limit: nat)
    requires Inv(db) && Collectable(db, q, policy, plan)
    ensures |Collect(db, q, policy, visibility, now, plan, limit).received| <= limit
    decreases |plan|
  {
    if limit != 0 && plan != [] {
      var d := Handle(db, q, policy, visibility, now, plan[0]);
      var next := if Over(db.messages[plan[0]], policy) then limit else limit - 1;
      BelowNext(db);
      HandleStep(db, q, policy, visibility, now, plan);
      CollectsAtMost(d, q, policy, visibility, now, plan[1..], next);
      CollectUnfold(db, d, q, policy, visibility, now, plan, limit);
    }
  }

  lemma CollectReceivedAtMost(db: Db, q: string, limit: nat, visibility: nat, now: nat)
    requires Inv(db) && q in db.queues
    ensures |CollectReceived(db, q, limit, visibility, now).received| <= limit
  {
    ReceiveOrderCollectable(db, q, now);
    CollectsAtMost(db, q, PolicyOf(db, q), visibility, now, ReceiveOrder(db, q, now), Cap(Kind(db, q), visibility, now, limit));
  }

  lemma ReceiveFreshKeeps(db: Db, q: string, maximum: nat, o: ReceiveOptions, visibility: nat, now: nat, cacheEmpty: bool)
    requires Inv(db) && q in db.queues
    ensures Inv(ReceiveFresh(db, q, maximum, o, visibility, now, cacheEmpty).db)
  {
    var limit := Limit(db, q, maximum, now);
    CollectReceivedKeeps(db, q, limit, visibility, now);
    var c := CollectReceived(db, q, limit, visibility, now);
    CollectReceivedAtMost(db, q, limit, visibility, now);
    SaveAttemptKeeps(c.db, q, o, maximum, visibility, now, c.received);
  }

  lemma ReplayKeeps(db: Db, q: string, o: ReceiveOptions, maximum: nat, now: nat)
    requires Inv(db) && q in db.queues
    ensures var r := ReplayAttempt(db, q, o, maximum, now);
            !r.ReplayFailed? ==> Inv(r.db) && r.db.queues == db.queues
  {
    var pruned := PruneAttempts(db, q, now);
    SameRowsKeep(db, pruned);
    var r := ReplayAttempt(db, q, o, maximum, now);
    if r.Replayed? {
      var a := pruned.attempts[(q, o.attemptId.value)];
      ExtendHiddenKeeps(pruned, q, ResponseHandles(a.response), SaturatingAdd(now, Ms(a.visibility)));
    }
  }

  lemma ReceivePageKeeps(db: Db, q: string, maximum: nat, o: ReceiveOptions, nowMs: nat, cacheEmpty: bool)
    requires Inv(db)
    ensures Inv(ReceivePage(db, q, maximum, o, nowMs, cacheEmpty).db)
  {
    if 1 <= maximum <= 10 && q in db.queues && OptionsError(o, db.queues[q].kind).None? {
      var now := Ms(nowMs);
      var expired := ExpireMessages(db, q, now);
      ExpireKeeps(db, q, now);
      ReplayKeeps(expired, q, o, maximum, now);
      var r := ReplayAttempt(expired, q, o, maximum, now);
      if r.Fresh? {
        ReceiveFreshKeeps(r.db, q, maximum, o, o.visibility.GetOr(db.queues[q].settings.visibility), now, cacheEmpty);
      }
    }
  }

  // ----- delete, visibility, manual redrive

  lemma DeleteMessageKeeps(db: Db, q: string, handle: string)
    requires Inv(db)
    ensures Inv(DeleteMessage(db, q, handle).db)
  {
    if q in db.queues { DeleteRowsKeeps(db, Holding(db, q, handle)); }
  }

  lemma ReviseHiddenViews(db: Db, S: set<nat>, until: nat)
    requires TableOk(db) && forall s :: s in S ==> s in db.messages && db.messages[s].handle.Some?
    ensures SameViews(db, ReviseHidden(db, S, until))
  {
    var d := ReviseHidden(db, S, until);
    forall s | s in db.messages ensures SameShownColumns(d.messages[s], db.messages[s]) { assert RowOk(db, s); }
  }

  lemma ReviseHiddenKeeps(db: Db, S: set<nat>, until: nat)
    requires Inv(db) && forall s :: s in S ==> s in db.messages && db.messages[s].handle.Some?
    ensures Inv(ReviseHidden(db, S, until))
  {
    ReviseHiddenViews(db, S, until);
    SameViewsKeep(db, ReviseHidden(db, S, until));
  }

  lemma ChangeVisibilityKeeps(db: Db, q: string, handle: string, timeoutMs: nat, nowMs: nat)
    requires Inv(db)
    ensures Inv(ChangeVisibility(db, q, handle, timeoutMs, nowMs).db)
  {
    if timeoutMs <= MAX_VISIBILITY && q in db.queues {
      var now := Ms(nowMs);
      ReviseHiddenKeeps(db, InFlightHolding(db, q, handle, now), SaturatingAdd(now, Ms(timeoutMs)));
    }
  }

  lemma {:induction false} MoveBackKeeps(db: Db, source: string, now: nat, order: seq<nat>)
    requires Inv(db) && source in db.queues && Distinct(order)
    requires forall i :: 0 <= i < |order| ==> order[i] in db.messages && Kind(db, db.messages[order[i]].queue) == Kind(db, source)
    ensures Inv(MoveBack(db, source, now, order))
    decreases |order|
  {
    if order != [] {
      MoveMessageKeeps(db, order[0], source, now, true, true);
      var d := MoveMessage(db, order[0], source, now, true, true);
      var rest := order[1..];
      forall i | 0 <= i < |rest| ensures rest[i] in d.messages && d.messages[rest[i]].queue == db.messages[rest[i]].queue {
        assert rest[i] == order[i + 1] && order[0] != order[i + 1];
        assert RowOk(db, rest[i]);
      }
      MoveBackKeeps(d, source, now, rest);
    }
  }

  lemma RedriveKeeps(db: Db, dlq: string, source: string, maximum: nat, nowMs: nat)
    requires Inv(db)
    ensures Inv(RedriveDeadLetters(db, dlq, source, maximum, nowMs).db)
  {
    if RedriveDeadLetters(db, dlq, source, maximum, nowMs).reply.Moved? {
      var now := Ms(nowMs);
      ExpireKeeps(db, dlq, now);
      ExpireKeeps(ExpireMessages(db, dlq, now), source, now);
      var expired := ExpireMessages(ExpireMessages(db, dlq, now), source, now);
      var order := RedriveOrder(expired, dlq, source, now, maximum);
      RedriveOrderRows(expired, dlq, source, now, maximum);
      MoveBackKeeps(expired, source, now, order);
    }
  }

  lemma RedriveOrderRows(db: Db, dlq: string, source: string, now: nat, maximum: nat)
    ensures var order := RedriveOrder(db, dlq, source, now, maximum);
            Distinct(order) && forall i :: 0 <= i < |order| ==> order[i] in Movable(db, dlq, source, now)
  {
  }
}
