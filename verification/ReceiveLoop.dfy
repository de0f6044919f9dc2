/** The state of the receive loop between two passes. */
module ReceiveLoop {
  import opened Identifiers
  import opened Ordering
  import opened Tables
  import opened ReceivePlan
  import opened PlanFacts
  import opened Operations
  import opened Invariants
  import opened Preservation
  import opened Queries

  /** What is fixed while the loop runs; `rows` is the table it started from. */
  datatype Loop = Loop(rows: map<nat, Row>, kind: QueueType, q: string, policy: Option<Policy>, visibility: nat, now: nat, limit: nat)

  function Prepend(front: seq<Received>, c: Collected): Collected {
    Collected(c.db, front + c.received)
  }

  /** `candidate_action` finds the candidate among the messages of this response. */
  predicate AlreadyReceived(received: seq<Received>, id: string) {
    exists i | 0 <= i < |received| :: received[i].id == id
  }

  /** What handling the rest of the plan comes to. */
  ghost function Yet(run: Loop, db: Db, rest: seq<nat>, left: nat): Collected {
    if Distinct(rest) && (forall i :: 0 <= i < |rest| ==> rest[i] in db.messages)
    then Collect(db, run.q, run.policy, run.visibility, run.now, rest, left) else Collected(db, [])
  }

  /** The rows the query ranks. */
  function Pool(run: Loop, db: Db, selected: seq<nat>): set<nat> {
    if run.kind == Fifo then Unclaimed(db, run.q, selected) else Receivables(db, run.q, run.now)
  }

  /** A standard receive whose delivery is still visible can only meet it again. */
  predicate Stuck(run: Loop, received: seq<Received>) {
    run.kind == Standard && !Hides(run.visibility, run.now) && received != []
  }

  /** The message with this id is live, and the query does not rank it. */
  ghost predicate Outside(run: Loop, db: Db, selected: seq<nat>, id: string) {
    exists s :: s in db.messages && db.messages[s].id == id && s !in Pool(run, db, selected)
  }

  ghost predicate DeliveredOutsidePool(run: Loop, db: Db, selected: seq<nat>, received: seq<Received>) {
    forall i :: 0 <= i < |received| ==> Outside(run, db, selected, received[i].id)
  }

  ghost predicate RestIsRemaining(run: Loop, db: Db, selected: seq<nat>, preferred: Option<string>, rest: seq<nat>) {
    var pool := Pool(run, db, selected);
    if run.kind == Fifo
    then pool <= run.rows.Keys && Agree(run.rows, db, pool) && rest == PlanFrom(run.rows, pool, run.now, run.policy, preferred)
    else rest == Ascending(pool)
  }

  ghost predicate LoopInv(run: Loop, db: Db, selected: seq<nat>, preferred: Option<string>,
                          received: seq<Received>, rest: seq<nat>, left: nat) {
    && Inv(db) && run.kind == Kind(db, run.q) && Collectable(db, run.q, run.policy, rest)
    && left + |received| == Cap(run.kind, run.visibility, run.now, run.limit)
    && (if Stuck(run, received)
        then var c := NextReceivable(db, run.q, run.kind, run.now, selected, preferred);
             |received| == 1 && c.Some? && db.messages[c.value].id == received[0].id
        else DeliveredOutsidePool(run, db, selected, received) && RestIsRemaining(run, db, selected, preferred, rest))
  }

  lemma OrderAtStart(db: Db, q: string, now: nat)
    ensures ReceiveOrder(db, q, now) == Plan(db.messages, Rows(db, q), Kind(db, q), now, PolicyOf(db, q))
  {
  }

  lemma LoopStarts(db: Db, run: Loop)
    requires Inv(db) && run.q in db.queues
    requires run.rows == db.messages && run.kind == Kind(db, run.q) && run.policy == PolicyOf(db, run.q)
    ensures LoopInv(run, db, [], None, [], ReceiveOrder(db, run.q, run.now), Cap(run.kind, run.visibility, run.now, run.limit))
  {
    ReceiveOrderCollectable(db, run.q, run.now);
    OrderAtStart(db, run.q, run.now);
    if run.kind == Fifo { FifoAtStart(db, run); } else { StandardAtStart(db, run); }
  }

  lemma AllIsYetToCome(db: Db, run: Loop)
    requires run.kind == Kind(db, run.q) && run.policy == PolicyOf(db, run.q)
    ensures Prepend([], Yet(run, db, ReceiveOrder(db, run.q, run.now), Cap(run.kind, run.visibility, run.now, run.limit)))
         == Operations.CollectReceived(db, run.q, run.limit, run.visibility, run.now)
  {
  }

  lemma YetPass(run: Loop, db: Db, rest: seq<nat>, left: nat)
    requires Distinct(rest) && rest != [] && left != 0
    requires forall i :: 0 <= i < |rest| ==> rest[i] in db.messages && rest[i] < db.nextSequence
    requires var d := Handle(db, run.q, run.policy, run.visibility, run.now, rest[0]);
             Distinct(rest[1..]) && forall i :: 0 <= i < |rest[1..]| ==> rest[1..][i] in d.messages
    ensures var d := Handle(db, run.q, run.policy, run.visibility, run.now, rest[0]);
            Yet(run, db, rest, left)
            == Prepend(Front(db, d, rest[0]), Yet(run, d, rest[1..], if Over(db.messages[rest[0]], run.policy) then left else left - 1))
  {
  }

  lemma FifoAtStart(db: Db, run: Loop)
    requires TableOk(db) && run.q in db.queues && run.rows == db.messages && run.kind == Kind(db, run.q) == Fifo
    ensures RestIsRemaining(run, db, [], None, FifoPlan(db.messages, Rows(db, run.q), run.now, run.policy))
  {
    assert Pool(run, db, []) == Rows(db, run.q);
    QueueAgrees(db, run.q);
  }

  lemma StandardAtStart(db: Db, run: Loop)
    requires run.rows == db.messages && run.kind == Standard
    ensures RestIsRemaining(run, db, [], None, StandardPlan(db.messages, Rows(db, run.q), run.now))
  {
    assert Pool(run, db, []) == ReceivableIn(db.messages, Rows(db, run.q), run.now);
  }

  lemma QueueAgrees(db: Db, q: string)
    requires TableOk(db) && q in db.queues && Kind(db, q) == Fifo
    ensures Agree(db.messages, db, Rows(db, q))
  {
    forall s | s in Rows(db, q) ensures db.messages[s].group.Some? { assert RowOk(db, s); }
  }

  /** The candidate is the next row of what remains. */
  lemma CandidateIsNext(run: Loop, db: Db, selected: seq<nat>, preferred: Option<string>, rest: seq<nat>)
    requires RestIsRemaining(run, db, selected, preferred, rest)
    ensures var c := NextReceivable(db, run.q, run.kind, run.now, selected, preferred);
            if c.None? then rest == [] else rest != [] && rest[0] == c.value && c.value in Pool(run, db, selected)
  {
    var pool := Pool(run, db, selected);
    if run.kind == Fifo {
      FifoQueryIsCandidate(run.rows, db, run.q, run.now, selected, preferred);
      PlanStep(run.rows, pool, run.now, run.policy, preferred);
    }
  }

  lemma LoopEnds(run: Loop, db: Db, selected: seq<nat>, preferred: Option<string>, received: seq<Received>, rest: seq<nat>, left: nat)
    requires LoopInv(run, db, selected, preferred, received, rest, left)
    requires NextReceivable(db, run.q, run.kind, run.now, selected, preferred).None? || left == 0 || |received| >= run.limit
    ensures Yet(run, db, rest, left) == Collected(db, [])
  {
    if !Stuck(run, received) { CandidateIsNext(run, db, selected, preferred, rest); }
  }

  /** The duplicate check fires only where nothing more is wanted. */
  lemma LoopStops(run: Loop, db: Db, selected: seq<nat>, preferred: Option<string>, received: seq<Received>, rest: seq<nat>, left: nat)
    requires LoopInv(run, db, selected, preferred, received, rest, left)
    requires var c := NextReceivable(db, run.q, run.kind, run.now, selected, preferred);
             c.Some? && AlreadyReceived(received, db.messages[c.value].id)
    ensures Stuck(run, received) && left == 0
  {
  }

  function Claimed(run: Loop, d: Db, s: nat, selected: seq<nat>): seq<nat> {
    if run.kind == Fifo && s in d.messages then selected + [s] else selected
  }

  function NowServing(run: Loop, db: Db, d: Db, s: nat, preferred: Option<string>): Option<string>
    requires s in db.messages
  {
    if run.kind == Fifo && s in d.messages then db.messages[s].group else preferred
  }

  lemma PoolAfter(run: Loop, db: Db, d: Db, selected: seq<nat>, s: nat)
    requires TouchesOne(db, d, s, run.policy) && s in Pool(run, db, selected)
    requires run.policy.Some? ==> run.policy.value.deadLetterQueue != run.q
    requires s in d.messages ==> d.messages[s].queue == run.q
    requires run.kind == Standard && s in d.messages ==> !Receivable(d.messages[s], run.now)
    ensures Pool(run, d, Claimed(run, d, s, selected)) == Pool(run, db, selected) - {s}
  {
  }

  lemma RemainingAfter(run: Loop, db: Db, d: Db, selected: seq<nat>, preferred: Option<string>, rest: seq<nat>, s: nat)
    requires RestIsRemaining(run, db, selected, preferred, rest) && rest != [] && s == rest[0]
    requires NextReceivable(db, run.q, run.kind, run.now, selected, preferred) == Some(s)
    requires TouchesOne(db, d, s, run.policy) && s in Pool(run, db, selected)
    requires s in d.messages <==> !Over(db.messages[s], run.policy)
    requires Pool(run, d, Claimed(run, d, s, selected)) == Pool(run, db, selected) - {s}
    ensures RestIsRemaining(run, d, Claimed(run, d, s, selected), NowServing(run, db, d, s, preferred), rest[1..])
  {
    var pool := Pool(run, db, selected);
    if run.kind == Fifo {
      FifoQueryIsCandidate(run.rows, db, run.q, run.now, selected, preferred);
      PlanStep(run.rows, pool, run.now, run.policy, preferred);
      forall t | t in pool - {s} ensures t in d.messages && d.messages[t] == run.rows[t] {
        assert Untouched(db, d, t);
      }
    }
  }

  lemma OutsideAfter(run: Loop, db: Db, d: Db, selected: seq<nat>, received: seq<Received>, s: nat)
    requires DeliveredOutsidePool(run, db, selected, received) && TouchesOne(db, d, s, run.policy) && s in Pool(run, db, selected)
    requires s in db.messages && (s in d.messages ==> d.messages[s].id == db.messages[s].id)
    requires Pool(run, d, Claimed(run, d, s, selected)) == Pool(run, db, selected) - {s}
    ensures DeliveredOutsidePool(run, d, Claimed(run, d, s, selected), received + Front(db, d, s))
  {
  }

  /** Delivered without hiding, a standard row is the next candidate again. */
  lemma StuckAfter(run: Loop, db: Db, d: Db, selected: seq<nat>, preferred: Option<string>, s: nat)
    requires TouchesOne(db, d, s, run.policy) && run.kind == Standard
    requires NextReceivable(db, run.q, run.kind, run.now, selected, preferred) == Some(s)
    requires s in d.messages && Receivable(d.messages[s], run.now) && d.messages[s].queue == run.q
    requires run.policy.Some? ==> run.policy.value.deadLetterQueue != run.q
    ensures NextReceivable(d, run.q, run.kind, run.now, selected, preferred) == Some(s)
  {
    forall t | t in Receivables(d, run.q, run.now) ensures t in Receivables(db, run.q, run.now) {
      if t != s && t in db.messages { assert Untouched(db, d, t); }
    }
    assert s in Receivables(d, run.q, run.now);
  }

  /** One pass on the candidate, the next row of what remains, keeps the loop's invariant. */
  lemma LoopStep(run: Loop, db: Db, d: Db, selected: seq<nat>, preferred: Option<string>, received: seq<Received>,
                 rest: seq<nat>, left: nat, s: nat)
    requires LoopInv(run, db, selected, preferred, received, rest, left) && !Stuck(run, received)
    requires NextReceivable(db, run.q, run.kind, run.now, selected, preferred) == Some(s)
    requires rest != [] && rest[0] == s && s in Pool(run, db, selected) && left > 0
    requires Inv(d) && TouchesOne(db, d, s, run.policy) && Collectable(d, run.q, run.policy, rest[1..])
    requires s in d.messages <==> !Over(db.messages[s], run.policy)
    requires s in d.messages ==> d.messages[s] == DeliveredRow(db.messages[s], s, run.visibility, run.now)
    ensures LoopInv(run, d, Claimed(run, d, s, selected), NowServing(run, db, d, s, preferred), received + Front(db, d, s), rest[1..],
                    if s in d.messages then left - 1 else left)
  {
    if s in d.messages && run.kind == Standard && !Hides(run.visibility, run.now) {
      StuckAfter(run, db, d, selected, preferred, s);
    } else {
      PoolAfter(run, db, d, selected, s);
      RemainingAfter(run, db, d, selected, preferred, rest, s);
      OutsideAfter(run, db, d, selected, received, s);
    }
  }

  lemma NextIsFirst(run: Loop, db: Db, selected: seq<nat>, preferred: Option<string>, received: seq<Received>, rest: seq<nat>, left: nat, s: nat)
    requires LoopInv(run, db, selected, preferred, received, rest, left) && |received| < run.limit
    requires NextReceivable(db, run.q, run.kind, run.now, selected, preferred) == Some(s)
    requires !AlreadyReceived(received, db.messages[s].id)
    ensures !Stuck(run, received) && rest != [] && rest[0] == s && s in Pool(run, db, selected) && left > 0
  {
    assert !Stuck(run, received);
    CandidateIsNext(run, db, selected, preferred, rest);
  }

  /** Handling the candidate is handling the next row of the plan. */
  lemma LoopPass(run: Loop, db: Db, selected: seq<nat>, preferred: Option<string>, received: seq<Received>, rest: seq<nat>, left: nat, s: nat)
      returns (d: Db, more: nat)
    requires LoopInv(run, db, selected, preferred, received, rest, left) && |received| < run.limit
    requires NextReceivable(db, run.q, run.kind, run.now, selected, preferred) == Some(s)
    requires !AlreadyReceived(received, db.messages[s].id)
    ensures d == Handle(db, run.q, run.policy, run.visibility, run.now, s)
    ensures rest != [] && left > 0 && more == if Over(db.messages[s], run.policy) then left else left - 1
    ensures s in d.messages <==> !Over(db.messages[s], run.policy)
    ensures LoopInv(run, d, Claimed(run, d, s, selected), NowServing(run, db, d, s, preferred), received + Front(db, d, s), rest[1..], more)
    ensures Yet(run, db, rest, left) == Prepend(Front(db, d, s), Yet(run, d, rest[1..], more))
    ensures s < db.nextSequence
  {
    NextIsFirst(run, db, selected, preferred, received, rest, left, s);
    HandleStep(db, run.q, run.policy, run.visibility, run.now, rest);
    d := Handle(db, run.q, run.policy, run.visibility, run.now, s);
    more := if Over(db.messages[s], run.policy) then left else left - 1;
    assert forall t :: t in db.messages ==> RowOk(db, t);
    HandledShape(db, run.q, run.policy, run.visibility, run.now, s);
    YetPass(run, db, rest, left);
    LoopStep(run, db, d, selected, preferred, received, rest, left, s);
  }

  lemma HandledShape(db: Db, q: string, policy: Option<Policy>, visibility: nat, now: nat, s: nat)
    requires s in db.messages && s < db.nextSequence
    ensures var d := Handle(db, q, policy, visibility, now, s);
            && (s in d.messages <==> !Over(db.messages[s], policy))
            && (s in d.messages ==> d.messages[s] == DeliveredRow(db.messages[s], s, visibility, now))
  {
  }
}
