/** What a manual redrive answers and leaves behind, said from the request and the tables. */
module RedriveCalls {
  import opened Identifiers
  import opened Ordering
  import opened Tables
  import opened Terms
  import opened Operations
  import opened Invariants
  import opened Preservation
  import opened Runs
  import opened Conservation

  /** A message of the dead-letter queue that came from the source and can be seen now. */
  predicate CanReturn(db: Db, dlq: string, source: string, s: nat, nowMs: nat) {
    && Present(db, dlq, s, nowMs) && s in db.origins && db.origins[s] == source && Visible(db.messages[s], nowMs)
  }

  /** On a FIFO queue a message returns only behind older ones of its group that can return too. */
  predicate MayReturn(db: Db, dlq: string, source: string, s: nat, nowMs: nat)
    requires source in db.queues
  {
    && CanReturn(db, dlq, source, s, nowMs)
    && (db.queues[source].kind == Fifo ==>
          forall e | e in db.messages && e < s && Present(db, dlq, e, nowMs) && db.messages[e].group == db.messages[s].group ::
            CanReturn(db, dlq, source, e, nowMs))
  }

  function Eligible(db: Db, dlq: string, source: string, nowMs: nat): set<nat>
    requires source in db.queues
  {
    set s | s in db.messages && MayReturn(db, dlq, source, s, nowMs)
  }

  function Cleaned(db: Db, dlq: string, source: string, nowMs: nat): Db {
    ExpireMessages(ExpireMessages(db, dlq, Ms(nowMs)), source, Ms(nowMs))
  }

  lemma CleanedDrops(db: Db, dlq: string, source: string, nowMs: nat)
    ensures var e := Cleaned(db, dlq, source, nowMs);
            && e.queues == db.queues && e.nextSequence == db.nextSequence
            && (forall s :: s in e.messages <==> s in db.messages && !(db.messages[s].queue in {dlq, source} && TooOld(db, s, nowMs)))
            && (forall s :: s in e.messages ==> e.messages[s] == db.messages[s] && Origin(e, s) == Origin(db, s))
  {
  }

  lemma MovableIsEligible(db: Db, dlq: string, source: string, nowMs: nat)
    requires source in db.queues
    ensures Movable(Cleaned(db, dlq, source, nowMs), dlq, source, Ms(nowMs)) == Eligible(db, dlq, source, nowMs)
  {
    CleanedDrops(db, dlq, source, nowMs);
  }

  /** r is row s of db sent again to the source: a new message with the same content. */
  predicate SentAgain(db: Db, source: string, s: nat, n: nat, r: Row, nowMs: nat)
    requires source in db.queues
  {
    && s in db.messages
    && (var o := db.messages[s];
        r == Row(MessageId(n), source, o.body, o.group, o.attributes, None, None, 0, 0, 0,
                 Capped(nowMs), After(nowMs, db.queues[source].settings.delay), None, o.dedup))
  }

  ghost predicate AllSentAgain(db: Db, d: Db, source: string, order: seq<nat>, nowMs: nat)
    requires source in db.queues
  {
    && d.nextSequence == db.nextSequence + |order|
    && (forall i :: 0 <= i < |order| ==> order[i] !in d.messages)
    && (forall t :: db.nextSequence <= t < d.nextSequence ==>
          t in d.messages && SentAgain(db, source, order[t - db.nextSequence], t, d.messages[t], nowMs))
  }

  /** Every other row is as it was, or was too old and is gone. */
  ghost predicate OthersRemain(db: Db, d: Db, queues: set<string>, order: seq<nat>, nowMs: nat) {
    && (forall s :: s in db.messages && s !in order ==>
          if db.messages[s].queue in queues && TooOld(db, s, nowMs) then s !in d.messages else Untouched(db, d, s))
    && (forall t :: t in d.messages ==> t in db.messages || db.nextSequence <= t < d.nextSequence)
  }

  /** A redrive between queues that do not fit is refused and changes nothing. */
  lemma RedriveRefused(db: Db, op: Op)
    requires op.OpRedrive?
    ensures var r := Perform(db, op);
            if op.source !in db.queues || op.dlq !in db.queues then r == Result(db, Failed(QueueNotFound))
            else if db.queues[op.dlq].kind != db.queues[op.source].kind || op.dlq == op.source then r == Result(db, Failed(InvalidRedrivePolicy))
            else r.reply.Moved?
  {
  }

  lemma RedriveCounts(db: Db, op: Op)
    requires op.OpRedrive? && Perform(db, op).reply.Moved?
    ensures var order := First(Ascending(Movable(Cleaned(db, op.dlq, op.source, op.nowMs), op.dlq, op.source, Ms(op.nowMs))), op.maximum);
            Perform(db, op).reply == Moved(|order|)
  {
    PerformRedrive(db, op);
  }

  lemma RedriveMovesBack(db: Db, op: Op, order: seq<nat>)
    requires Inv(db) && op.OpRedrive? && Perform(db, op).reply.Moved?
    requires order == First(Ascending(Movable(Cleaned(db, op.dlq, op.source, op.nowMs), op.dlq, op.source, Ms(op.nowMs))), op.maximum)
    ensures MovedBack(Cleaned(db, op.dlq, op.source, op.nowMs), Step(db, op), op.source, Ms(op.nowMs), order)
  {
    PerformRedrive(db, op);
    RedriveConserves(db, op.dlq, op.source, op.maximum, op.nowMs);
  }

  /** A redrive sends again the oldest eligible messages, at most `maximum` of them, and says how many. */
  lemma RedriveMoves(db: Db, op: Op)
    requires Inv(db) && op.OpRedrive? && Perform(db, op).reply.Moved?
    ensures op.source in db.queues
    ensures var d, eligible := Step(db, op), Eligible(db, op.dlq, op.source, op.nowMs);
            var order := First(Ascending(eligible), op.maximum);
            && Perform(db, op).reply == Moved(if op.maximum < |eligible| then op.maximum else |eligible|)
            && AllSentAgain(db, d, op.source, order, op.nowMs) && OthersRemain(db, d, {op.dlq, op.source}, order, op.nowMs)
  {
    var e, order := Cleaned(db, op.dlq, op.source, op.nowMs), First(Ascending(Eligible(db, op.dlq, op.source, op.nowMs)), op.maximum);
    RedriveRefused(db, op);
    RedriveCounts(db, op);
    CleanedDrops(db, op.dlq, op.source, op.nowMs);
    MovableIsEligible(db, op.dlq, op.source, op.nowMs);
    RedriveMovesBack(db, op, order);
    RebornIsSentAgain(db, e, Step(db, op), op.source, order, op.nowMs);
    RestRemains(db, e, Step(db, op), op.dlq, op.source, order, op.nowMs);
  }

  lemma RebornIsSentAgain(db: Db, e: Db, d: Db, source: string, order: seq<nat>, nowMs: nat)
    requires source in db.queues && Reborn(e, d, source, Ms(nowMs), order) && e.queues == db.queues && e.nextSequence == db.nextSequence
    requires forall s :: s in e.messages ==> s in db.messages && e.messages[s] == db.messages[s]
    ensures AllSentAgain(db, d, source, order, nowMs)
  {
    TimesAreCapped(nowMs, db.queues[source].settings.delay);
  }

  lemma RestRemains(db: Db, e: Db, d: Db, dlq: string, source: string, order: seq<nat>, nowMs: nat)
    requires Inv(db) && e == Cleaned(db, dlq, source, nowMs) && RestStayed(e, d, order)
    ensures OthersRemain(db, d, {dlq, source}, order, nowMs)
  {
    CleanedDrops(db, dlq, source, nowMs);
    BelowNext(db);
    forall s | s in e.messages && s !in order ensures Untouched(db, d, s) { assert Untouched(e, d, s); }
  }
}
