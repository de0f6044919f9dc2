/** What holds of every reachable database, and why each statement keeps it. */
module Invariants {
  import opened Identifiers
  import opened Tables
  import opened Operations

  /** An id is the one made for this row's sequence or an earlier one (a dead letter keeps its id). */
  ghost predicate IdOk(id: string, s: nat) {
    exists k: nat :: 1 <= k <= s && id == MessageId(k)
  }

  ghost predicate RowOk(db: Db, s: nat)
    requires s in db.messages
  {
    var r := db.messages[s];
    && 1 <= s < db.nextSequence
    && r.queue in db.queues
    && IdOk(r.id, s)
    && (r.count == 0 ==> r.handle.None? && r.invisibleUntil.None?)
    && (r.count > 0 ==> r.handle.Some? && HandleOf(r.handle.value, s, r.count) && r.firstReceived.Some? && r.invisibleUntil.Some?)
    && r.count <= r.total
    && (db.queues[r.queue].kind == Fifo ==> r.group.Some?)
  }

  /** Message ids are unique over all queues. */
  ghost predicate IdsUnique(db: Db) {
    forall s, t :: s in db.messages && t in db.messages && s != t ==> db.messages[s].id != db.messages[t].id
  }

  ghost predicate TableOk(db: Db) {
    && db.nextSequence >= 1
    && (forall s {:trigger RowOk(db, s)} :: s in db.messages ==> RowOk(db, s))
    && IdsUnique(db)
  }

  lemma BelowNext(db: Db)
    requires TableOk(db)
    ensures forall t :: t in db.messages ==> t < db.nextSequence
  {
    forall t | t in db.messages ensures t < db.nextSequence { assert RowOk(db, t); }
  }

  ghost predicate SameGroup(db: Db, e: nat, s: nat)
    requires e in db.messages && s in db.messages
  {
    db.messages[e].queue == db.messages[s].queue && db.messages[e].group == db.messages[s].group
  }

  /** On a FIFO queue the received rows of a group are a prefix of the group. */
  ghost predicate PrefixOk(db: Db) {
    forall e, s | e in db.messages && s in db.messages && e < s && SameGroup(db, e, s) ::
      Kind(db, db.messages[s].queue) == Fifo && db.messages[s].count > 0 ==> db.messages[e].count > 0
  }

  /** Every policy names another existing queue of the same type. */
  ghost predicate GraphOk(db: Db) {
    forall q :: q in db.policies ==>
      var p := db.policies[q];
      && q in db.queues && p.deadLetterQueue in db.queues && p.deadLetterQueue != q
      && Kind(db, p.deadLetterQueue) == Kind(db, q) && 1 <= p.maxReceiveCount <= 1000
  }

  ghost predicate OriginsOk(db: Db) {
    forall s :: s in db.origins ==> s in db.messages && db.origins[s] in db.queues
  }

  ghost predicate KeysOk(db: Db) {
    && (forall k :: k in db.keys ==> k.queue in db.queues && k.group != "")
    && (forall j, k :: j in db.keys && k in db.keys && j.queue == k.queue && j.dedup == k.dedup && j.group == k.group ==> j == k)
  }

  /** A cached message is what reading its row again would give. */
  ghost predicate Shown(db: Db, q: string, m: Received) {
    exists s :: s in db.messages && db.messages[s].queue == q && db.messages[s].handle == Some(m.handle) && m == ViewRow(db, s)
  }

  ghost predicate AttemptOk(db: Db, k: AttemptKey)
    requires k in db.attempts
  {
    var a := db.attempts[k];
    && k.0 in db.queues
    && a.members == ResponseHandles(a.response) && |a.response| <= a.maximum
    && (a.valid ==> forall m :: m in a.response ==> Shown(db, k.0, m))
  }

  ghost predicate AttemptsOk(db: Db) {
    forall k {:trigger AttemptOk(db, k)} :: k in db.attempts ==> AttemptOk(db, k)
  }

  ghost predicate Inv(db: Db) {
    TableOk(db) && PrefixOk(db) && GraphOk(db) && OriginsOk(db) && KeysOk(db) && AttemptsOk(db)
  }

  // ----- the rows under each kind of change

  lemma DeleteRowsTable(db: Db, S: set<nat>)
    requires TableOk(db)
    ensures TableOk(DeleteRows(db, S))
  {
    var d := DeleteRows(db, S);
    forall s | s in d.messages ensures RowOk(d, s) { assert RowOk(db, s); }
  }

  lemma DeleteRowsPrefix(db: Db, S: set<nat>)
    requires PrefixOk(db)
    ensures PrefixOk(DeleteRows(db, S))
  {
  }

  ghost predicate Insertable(db: Db, r: Row) {
    && r.queue in db.queues
    && IdOk(r.id, db.nextSequence)
    && (forall s :: s in db.messages ==> db.messages[s].id != r.id)
    && r.count == 0 && r.handle.None? && r.invisibleUntil.None?
    && (db.queues[r.queue].kind == Fifo ==> r.group.Some?)
  }

  lemma InsertRowTable(db: Db, r: Row)
    requires TableOk(db) && Insertable(db, r)
    ensures TableOk(InsertRow(db, r))
  {
    var d := InsertRow(db, r);
    forall s | s in d.messages ensures RowOk(d, s) { if s != db.nextSequence { assert RowOk(db, s); } }
    forall s, t | s in d.messages && t in d.messages && s != t
      ensures d.messages[s].id != d.messages[t].id
    {
      if s != db.nextSequence && t != db.nextSequence { assert db.messages[s].id != db.messages[t].id; }
    }
  }

  lemma InsertRowPrefix(db: Db, r: Row)
    requires TableOk(db) && PrefixOk(db) && Insertable(db, r)
    ensures PrefixOk(InsertRow(db, r))
  {
    var d := InsertRow(db, r);
    forall e, s | e in d.messages && s in d.messages && e < s && SameGroup(d, e, s)
      ensures Kind(d, d.messages[s].queue) == Fifo && d.messages[s].count > 0 ==> d.messages[e].count > 0
    {
      if s != db.nextSequence {
        assert RowOk(db, s);
        assert SameGroup(db, e, s);
      }
    }
  }

  lemma DeliverTable(db: Db, s: nat, visibility: nat, now: nat)
    requires TableOk(db) && s in db.messages
    ensures TableOk(Deliver(db, s, visibility, now))
  {
    var d := Deliver(db, s, visibility, now);
    assert HandleOf(d.messages[s].handle.value, s, d.messages[s].count);
    forall t | t in d.messages ensures RowOk(d, t) { assert RowOk(db, t); }
    forall t, u | t in d.messages && u in d.messages && t != u
      ensures d.messages[t].id != d.messages[u].id
    {
      assert db.messages[t].id != db.messages[u].id;
    }
  }

  ghost predicate OlderReceived(db: Db, s: nat)
    requires s in db.messages
  {
    forall e | e in db.messages && e < s && SameGroup(db, e, s) :: db.messages[e].count > 0
  }

  lemma DeliverPrefix(db: Db, s: nat, visibility: nat, now: nat)
    requires PrefixOk(db) && s in db.messages
    requires Kind(db, db.messages[s].queue) == Fifo ==> OlderReceived(db, s)
    ensures PrefixOk(Deliver(db, s, visibility, now))
  {
  }

  // ----- the attempts under each kind of change

  /** An attempt stays coherent when its members' rows still read the same. */
  lemma AttemptStays(db: Db, d: Db, k: AttemptKey)
    requires k in db.attempts && AttemptOk(db, k) && k in d.attempts && k.0 in d.queues
    requires d.attempts[k] == db.attempts[k].(valid := d.attempts[k].valid)
    requires d.attempts[k].valid ==> db.attempts[k].valid
    requires d.attempts[k].valid ==>
               forall s :: s in db.messages && db.messages[s].handle.Some? && db.messages[s].handle.value in db.attempts[k].members
                 ==> s in d.messages && d.messages[s].queue == db.messages[s].queue
                     && d.messages[s].handle == db.messages[s].handle && ViewRow(d, s) == ViewRow(db, s)
    ensures AttemptOk(d, k)
  {
  }

  /** The trigger: whatever happens to the rows of S, attempts that stay valid had no member there. */
  lemma TriggerProtects(db: Db, d: Db, S: set<nat>)
    requires AttemptsOk(db) && d.attempts == Invalidate(db.attempts, HandlesOf(db.messages, S))
    requires forall k :: k in d.attempts ==> k.0 in d.queues
    requires forall s :: s in db.messages && s !in S ==>
               s in d.messages && d.messages[s].queue == db.messages[s].queue
               && d.messages[s].handle == db.messages[s].handle && ViewRow(d, s) == ViewRow(db, s)
    ensures AttemptsOk(d)
  {
    forall k | k in d.attempts ensures AttemptOk(d, k) {
      assert AttemptOk(db, k);
      var members := db.attempts[k].members;
      if d.attempts[k].valid {
        forall s | s in db.messages && db.messages[s].handle.Some? && db.messages[s].handle.value in members
          ensures s !in S
        {
          var h := db.messages[s].handle.value;
          assert h in HandlesOf(db.messages, S) ==> h in members * HandlesOf(db.messages, S);
        }
      }
      AttemptStays(db, d, k);
    }
  }

  // ----- statements keep the whole invariant

  lemma DeleteRowsKeeps(db: Db, S: set<nat>)
    requires Inv(db)
    ensures Inv(DeleteRows(db, S))
  {
    DeleteRowsTable(db, S);
    DeleteRowsPrefix(db, S);
    DeleteRowsRest(db, S);
    DeleteRowsAttempts(db, S);
  }

  lemma DeleteRowsRest(db: Db, S: set<nat>)
    requires GraphOk(db) && OriginsOk(db) && KeysOk(db)
    ensures var d := DeleteRows(db, S); GraphOk(d) && OriginsOk(d) && KeysOk(d)
  {
  }

  lemma DeleteRowsAttempts(db: Db, S: set<nat>)
    requires AttemptsOk(db)
    ensures AttemptsOk(DeleteRows(db, S))
  {
    AttemptQueues(db);
    TriggerProtects(db, DeleteRows(db, S), S);
  }

  lemma InsertRowKeeps(db: Db, r: Row)
    requires Inv(db) && Insertable(db, r)
    ensures Inv(InsertRow(db, r))
  {
    var d := InsertRow(db, r);
    InsertRowTable(db, r);
    InsertRowPrefix(db, r);
    assert forall s :: s in db.messages ==> RowOk(db, s);
    InsertRowAttempts(db, r);
  }

  lemma InsertRowAttempts(db: Db, r: Row)
    requires AttemptsOk(db) && db.nextSequence !in db.messages
    ensures AttemptsOk(InsertRow(db, r))
  {
    AttemptQueues(db);
    AttemptsFrame(db, InsertRow(db, r));
  }

  /** A number never used before makes an id no row has. */
  lemma FreshId(db: Db)
    requires TableOk(db)
    ensures IdOk(MessageId(db.nextSequence), db.nextSequence)
    ensures forall s :: s in db.messages ==> db.messages[s].id != MessageId(db.nextSequence)
  {
    MessageIdRoundTrip(db.nextSequence);
    forall s | s in db.messages ensures db.messages[s].id != MessageId(db.nextSequence) {
      assert RowOk(db, s);
      var k: nat :| 1 <= k <= s && db.messages[s].id == MessageId(k);
      MessageIdRoundTrip(k);
    }
  }

  lemma MovedRowInsertable(db: Db, s: nat, destination: string, now: nat, reset: bool, renew: bool)
    requires TableOk(db) && s in db.messages && destination in db.queues
    requires Kind(db, destination) == Kind(db, db.messages[s].queue)
    ensures Insertable(DeleteRows(db, {s}),
              MovedRow(db.messages[s], db.nextSequence, destination, now, DelayOf(db, destination), reset, renew))
  {
    var r := db.messages[s];
    assert RowOk(db, s);
    FreshId(db);
    if !renew {
      var k: nat :| 1 <= k <= s && r.id == MessageId(k);
      assert IdOk(r.id, db.nextSequence);
    }
  }

  /** Either kind of move keeps everything: the id is unique again, the row unreceived. */
  lemma MoveMessageKeeps(db: Db, s: nat, destination: string, now: nat, reset: bool, renew: bool)
    requires Inv(db) && s in db.messages && destination in db.queues
    requires Kind(db, destination) == Kind(db, db.messages[s].queue)
    ensures Inv(MoveMessage(db, s, destination, now, reset, renew))
  {
    DeleteRowsKeeps(db, {s});
    MovedRowInsertable(db, s, destination, now, reset, renew);
    InsertRowKeeps(DeleteRows(db, {s}),
      MovedRow(db.messages[s], db.nextSequence, destination, now, DelayOf(db, destination), reset, renew));
  }

  /** Attempts only lose validity, and every row with a handle reads the same. */
  lemma AttemptsFrame(db: Db, d: Db)
    requires AttemptsOk(db)
    requires forall k :: k in d.attempts ==>
               k in db.attempts && k.0 in d.queues
               && d.attempts[k] == db.attempts[k].(valid := d.attempts[k].valid) && (d.attempts[k].valid ==> db.attempts[k].valid)
    requires forall s :: s in db.messages && db.messages[s].handle.Some? ==>
               s in d.messages && d.messages[s].queue == db.messages[s].queue
               && d.messages[s].handle == db.messages[s].handle && ViewRow(d, s) == ViewRow(db, s)
    ensures AttemptsOk(d)
  {
    forall k | k in d.attempts ensures AttemptOk(d, k) {
      assert AttemptOk(db, k);
      AttemptStays(db, d, k);
    }
  }

  lemma TableFrame(db: Db, d: Db)
    requires TableOk(db) && d.messages == db.messages && d.nextSequence == db.nextSequence
    requires forall q :: q in db.queues ==> q in d.queues && d.queues[q].kind == db.queues[q].kind
    ensures TableOk(d)
  {
    forall t | t in d.messages ensures RowOk(d, t) { assert RowOk(db, t); }
    assert forall s, t :: s in db.messages && t in db.messages && s != t ==> d.messages[s].id == db.messages[s].id;
  }

  /** Recording the origin of an unreceived row changes no cached view. */
  lemma SetOriginKeeps(db: Db, s: nat, q: string)
    requires Inv(db) && s in db.messages && db.messages[s].handle.None? && q in db.queues
    ensures Inv(db.(origins := db.origins[s := q]))
  {
    var d := db.(origins := db.origins[s := q]);
    TableFrame(db, d);
    PrefixFrame(db, d);
    SetOriginAttempts(db, s, q);
    assert GraphOk(d) && OriginsOk(d) && KeysOk(d);
  }

  lemma SetOriginAttempts(db: Db, s: nat, q: string)
    requires AttemptsOk(db) && s in db.messages && db.messages[s].handle.None?
    ensures AttemptsOk(db.(origins := db.origins[s := q]))
  {
    AttemptQueues(db);
    AttemptsFrame(db, db.(origins := db.origins[s := q]));
  }

  lemma AttemptQueues(db: Db)
    requires AttemptsOk(db)
    ensures forall k :: k in db.attempts ==> k.0 in db.queues
  {
    forall k | k in db.attempts ensures k.0 in db.queues { assert AttemptOk(db, k); }
  }

  lemma PrefixFrame(db: Db, d: Db)
    requires PrefixOk(db) && d.messages.Keys <= db.messages.Keys
    requires forall s :: s in d.messages ==>
               d.messages[s].queue == db.messages[s].queue && d.messages[s].group == db.messages[s].group
               && d.messages[s].count == db.messages[s].count && Kind(d, d.messages[s].queue) == Kind(db, d.messages[s].queue)
    ensures PrefixOk(d)
  {
  }

  lemma DeadLetterKeeps(db: Db, s: nat, q: string, policy: Policy, now: nat)
    requires Inv(db) && s in db.messages && db.messages[s].queue == q && q in db.queues
    requires policy.deadLetterQueue in db.queues && Kind(db, policy.deadLetterQueue) == Kind(db, q)
    ensures Inv(DeadLetter(db, s, q, policy, now))
  {
    MoveMessageKeeps(db, s, policy.deadLetterQueue, now, Kind(db, q) == Fifo, false);
    SetOriginKeeps(MoveMessage(db, s, policy.deadLetterQueue, now, Kind(db, q) == Fifo, false), db.nextSequence, q);
  }

  lemma DeliverKeeps(db: Db, s: nat, visibility: nat, now: nat)
    requires Inv(db) && s in db.messages
    requires Kind(db, db.messages[s].queue) == Fifo ==> OlderReceived(db, s)
    ensures Inv(Deliver(db, s, visibility, now))
  {
    var d := Deliver(db, s, visibility, now);
    DeliverTable(db, s, visibility, now);
    DeliverPrefix(db, s, visibility, now);
    DeliverAttempts(db, s, visibility, now);
  }

  lemma DeliverAttempts(db: Db, s: nat, visibility: nat, now: nat)
    requires AttemptsOk(db) && s in db.messages
    ensures AttemptsOk(Deliver(db, s, visibility, now))
  {
    AttemptQueues(db);
    TriggerProtects(db, Deliver(db, s, visibility, now), {s});
  }

  // ----- columns no view shows

  /** r differs from o at most in deadline, revision and availability, and not in being unreceived. */
  predicate SameShownColumns(r: Row, o: Row) {
    && r == o.(invisibleUntil := r.invisibleUntil, revision := r.revision, availableAt := r.availableAt)
    && (if o.count == 0 then r.invisibleUntil == o.invisibleUntil else o.invisibleUntil.Some? ==> r.invisibleUntil.Some?)
  }

  /** Only such columns change; attempts may go or become invalid. */
  ghost predicate SameViews(db: Db, d: Db) {
    && d == db.(messages := d.messages, attempts := d.attempts)
    && d.messages.Keys == db.messages.Keys
    && (forall s :: s in db.messages ==> SameShownColumns(d.messages[s], db.messages[s]))
    && d.attempts.Keys <= db.attempts.Keys
    && (forall k :: k in d.attempts ==>
          d.attempts[k] == db.attempts[k].(valid := d.attempts[k].valid) && (d.attempts[k].valid ==> db.attempts[k].valid))
  }

  lemma SameViewsTable(db: Db, d: Db)
    requires TableOk(db) && SameViews(db, d)
    ensures TableOk(d)
  {
    forall s | s in d.messages ensures RowOk(d, s) {
      assert RowOk(db, s) && SameShownColumns(d.messages[s], db.messages[s]);
    }
    forall t, u | t in d.messages && u in d.messages && t != u
      ensures d.messages[t].id != d.messages[u].id
    {
      assert SameShownColumns(d.messages[t], db.messages[t]) && SameShownColumns(d.messages[u], db.messages[u]);
    }
  }

  lemma SameViewsKeep(db: Db, d: Db)
    requires Inv(db) && SameViews(db, d)
    ensures Inv(d)
  {
    SameViewsTable(db, d);
    SameViewsPrefix(db, d);
    SameViewsAttempts(db, d);
  }

  lemma SameViewsPrefix(db: Db, d: Db)
    requires PrefixOk(db) && SameViews(db, d)
    ensures PrefixOk(d)
  {
  }

  lemma SameViewsAttempts(db: Db, d: Db)
    requires AttemptsOk(db) && SameViews(db, d)
    ensures AttemptsOk(d)
  {
    AttemptQueues(db);
    forall s | s in db.messages
      ensures d.messages[s].handle == db.messages[s].handle && ViewRow(d, s) == ViewRow(db, s)
    {
      assert SameShownColumns(d.messages[s], db.messages[s]);
    }
    AttemptsFrame(db, d);
  }
}
