/**
 * The repository object.  Its one field is the connection, here the committed
 * database; a transaction works on a copy that commit writes back and rollback drops.
 */
module Engine {
  import opened Identifiers
  import opened Ordering
  import opened Tables
  import opened Operations
  import opened Invariants
  import opened Preservation
  import opened Receiving
  import opened Handles
  import opened Queries
  import opened ReceiveLoop

  datatype ReplayOutcome = NoRecord | Replay(messages: seq<Received>) | Refuse(error: Error)

  // ----- statements repeated in a loop add up

  lemma ExtendNothing(db: Db, q: string, until: nat)
    ensures ExtendHidden(db, q, {}, until) == db
  {
  }

  lemma ExtendOneMore(db: Db, q: string, handles: set<string>, handle: string, until: nat)
    ensures ExtendHidden(ExtendHidden(db, q, handles, until), q, {handle}, until) == ExtendHidden(db, q, handles + {handle}, until)
  {
  }

  lemma HandlesOfNone(messages: seq<Received>)
    ensures ResponseHandles(messages[..0]) == {}
  {
  }

  lemma HandlesOfPrefix(messages: seq<Received>, i: nat)
    requires i < |messages|
    ensures ResponseHandles(messages[..i + 1]) == ResponseHandles(messages[..i]) + {messages[i].handle}
  {
  }

  /** One pass of the redrive loop is the first row of the order. */
  lemma RedrivePass(db: Db, dlq: string, source: string, now: nat, wanted: nat)
    requires TableOk(db) && dlq != source && dlq in db.queues && Kind(db, dlq) == Kind(db, source) && wanted > 0
    ensures var c := NextReturnable(db, dlq, source, now);
            var order := RedriveOrder(db, dlq, source, now, wanted);
            if c.None? then order == []
            else && c.value in Movable(db, dlq, source, now)
                 && order == [c.value] + RedriveOrder(MoveMessage(db, c.value, source, now, true, true), dlq, source, now, wanted - 1)
  {
    forall s | s in db.messages ensures s < db.nextSequence && (db.messages[s].queue == dlq && Kind(db, dlq) == Fifo ==> db.messages[s].group.Some?) {
      assert RowOk(db, s);
    }
    ReturnableIsFirstMovable(db, dlq, source, now);
    var T := Movable(db, dlq, source, now);
    if T != {} {
      MovableAfter(db, dlq, source, now, Min(T));
      OrderAfter(db, MoveMessage(db, Min(T), source, now, true, true), dlq, source, now, wanted, T);
    }
  }

  lemma OrderAfter(db: Db, d: Db, dlq: string, source: string, now: nat, wanted: nat, T: set<nat>)
    requires T == Movable(db, dlq, source, now) && T != {} && wanted > 0
    requires Movable(d, dlq, source, now) == T - {Min(T)}
    ensures RedriveOrder(db, dlq, source, now, wanted) == [Min(T)] + RedriveOrder(d, dlq, source, now, wanted - 1)
  {
    FirstOfMore(Min(T), Ascending(T - {Min(T)}), wanted);
  }

  lemma MovedBackRows(db: Db, s: nat, source: string, now: nat)
    requires TableOk(db) && s in db.messages && source in db.queues && Kind(db, source) == Kind(db, db.messages[s].queue)
    ensures TableOk(Tables.MoveMessage(db, s, source, now, true, true))
  {
    DeleteRowsTable(db, {s});
    MovedRowInsertable(db, s, source, now, true, true);
    InsertRowTable(DeleteRows(db, {s}),
      MovedRow(db.messages[s], db.nextSequence, source, now, DelayOf(db, source), true, true));
  }

  ghost predicate BackReady(db: Db, dlq: string, source: string) {
    TableOk(db) && dlq != source && dlq in db.queues && source in db.queues && Kind(db, dlq) == Kind(db, source)
  }

  /** The query finds row s of a, and moving it back gives b. */
  ghost predicate Pass(a: Db, b: Db, dlq: string, source: string, now: nat, s: nat) {
    && s in a.messages && BelowNextSequence(a)
    && NextReturnable(a, dlq, source, now) == Some(s) && b == Tables.MoveMessage(a, s, source, now, true, true)
  }

  /** The databases that moving the rows of `rest` goes through. */
  ghost predicate Passes(path: seq<Db>, dlq: string, source: string, now: nat, rest: seq<nat>) {
    |path| == |rest| + 1 && forall i :: 0 <= i < |rest| ==> Pass(path[i], path[i + 1], dlq, source, now, rest[i])
  }

  /** The order fixed at the start is the order in which the query, asked again each time, finds the rows. */
  lemma {:induction false} RedrivePath(db: Db, dlq: string, source: string, now: nat, wanted: nat) returns (path: seq<Db>, rest: seq<nat>)
    requires BackReady(db, dlq, source)
    ensures Passes(path, dlq, source, now, rest) && path[0] == db && |rest| <= wanted
    ensures |rest| < wanted ==> NextReturnable(path[|rest|], dlq, source, now).None?
    ensures rest == RedriveOrder(db, dlq, source, now, wanted) && path[|rest|] == MoveBack(db, source, now, rest)
    decreases wanted
  {
    rest, path := [], [db];
    if wanted == 0 || NextReturnable(db, dlq, source, now).None? {
      NothingToMove(db, dlq, source, now, wanted);
    } else {
      var s, d := FirstMove(db, dlq, source, now, wanted);
      var later, others := RedrivePath(d, dlq, source, now, wanted - 1);
      path, rest := [db] + later, [s] + others;
      PathGrows(db, d, later, dlq, source, now, s, others);
      MoveBackFirst(db, d, source, now, s, others);
    }
  }

  lemma NothingToMove(db: Db, dlq: string, source: string, now: nat, wanted: nat)
    requires BackReady(db, dlq, source) && (wanted == 0 || NextReturnable(db, dlq, source, now).None?)
    ensures RedriveOrder(db, dlq, source, now, wanted) == []
  {
    if wanted > 0 { RedrivePass(db, dlq, source, now, wanted); }
  }

  lemma FirstMove(db: Db, dlq: string, source: string, now: nat, wanted: nat) returns (s: nat, d: Db)
    requires BackReady(db, dlq, source) && wanted > 0 && NextReturnable(db, dlq, source, now).Some?
    ensures Pass(db, d, dlq, source, now, s) && BackReady(d, dlq, source)
    ensures RedriveOrder(db, dlq, source, now, wanted) == [s] + RedriveOrder(d, dlq, source, now, wanted - 1)
  {
    RedrivePass(db, dlq, source, now, wanted);
    s := NextReturnable(db, dlq, source, now).value;
    d := Tables.MoveMessage(db, s, source, now, true, true);
    MovedBackRows(db, s, source, now);
    BelowNext(db);
  }

  lemma MoveBackFirst(db: Db, d: Db, source: string, now: nat, s: nat, others: seq<nat>)
    requires s in db.messages && d == Tables.MoveMessage(db, s, source, now, true, true)
    ensures MoveBack(db, source, now, [s] + others) == MoveBack(d, source, now, others)
  {
    assert ([s] + others)[1..] == others;
  }

  lemma PathGrows(db: Db, d: Db, later: seq<Db>, dlq: string, source: string, now: nat, s: nat, others: seq<nat>)
    requires Passes(later, dlq, source, now, others) && later[0] == d && Pass(db, d, dlq, source, now, s)
    ensures Passes([db] + later, dlq, source, now, [s] + others)
  {
    var path, rest := [db] + later, [s] + others;
    forall i | 0 <= i < |rest| ensures Pass(path[i], path[i + 1], dlq, source, now, rest[i]) {
      if i > 0 { assert Pass(later[i - 1], later[i], dlq, source, now, others[i - 1]); }
    }
  }

  lemma PrependTwice(a: seq<Received>, b: seq<Received>, c: Collected)
    ensures Prepend(a, Prepend(b, c)) == Prepend(a + b, c)
  {
  }

  // ----- the passes of the receive loop

  /** The loop's variables between two passes. */
  datatype Moment = Moment(db: Db, selected: seq<nat>, preferred: Option<string>, received: seq<Received>)

  function NextOf(run: Loop, a: Moment): (c: Option<nat>)
    ensures c.Some? ==> c.value in a.db.messages && a.db.messages[c.value].queue == run.q
  {
    NextReceivable(a.db, run.q, run.kind, run.now, a.selected, a.preferred)
  }

  /** The query's candidate for a is handled, which leads to b. */
  ghost predicate Takes(run: Loop, a: Moment, b: Moment) {
    && |a.received| < run.limit && TableOk(a.db) && run.kind == Kind(a.db, run.q)
    && NextOf(run, a).Some?
    && (var s := NextOf(run, a).value;
        && !AlreadyReceived(a.received, a.db.messages[s].id)
        && b.db == Handle(a.db, run.q, run.policy, run.visibility, run.now, s)
        && b.selected == Claimed(run, b.db, s, a.selected)
        && b.preferred == NowServing(run, a.db, b.db, s, a.preferred)
        && b.received == a.received + Front(a.db, b.db, s))
  }

  /** Enough was received, or the query finds nothing, or only what is already in the response. */
  ghost predicate Stops(run: Loop, a: Moment) {
    || |a.received| >= run.limit || NextOf(run, a).None?
    || AlreadyReceived(a.received, a.db.messages[NextOf(run, a).value].id)
  }

  ghost predicate Path(run: Loop, path: seq<Moment>) {
    && path != [] && Stops(run, LastOf(path))
    && forall i :: 0 <= i < |path| - 1 ==> Takes(run, path[i], path[i + 1])
  }

  function LastOf(path: seq<Moment>): Moment
    requires path != []
  {
    path[|path| - 1]
  }

  lemma PathExtends(run: Loop, a: Moment, later: seq<Moment>)
    requires Path(run, later) && Takes(run, a, later[0])
    ensures Path(run, [a] + later) && LastOf([a] + later) == LastOf(later)
  {
    var path := [a] + later;
    forall i | 0 <= i < |path| - 1 ensures Takes(run, path[i], path[i + 1]) {
      if i > 0 { assert Takes(run, later[i - 1], later[i]); }
    }
  }

  /** From any moment of the loop the passes lead to what is yet to come of the plan. */
  lemma {:induction false} PassesCarryOutPlan(run: Loop, a: Moment, rest: seq<nat>, left: nat, goal: Collected) returns (path: seq<Moment>)
    requires LoopInv(run, a.db, a.selected, a.preferred, a.received, rest, left)
    requires goal == Prepend(a.received, Yet(run, a.db, rest, left))
    ensures Path(run, path) && path[0] == a && Collected(LastOf(path).db, LastOf(path).received) == goal
    decreases |rest|
  {
    if Stops(run, a) {
      StopsAtTheEnd(run, a, rest, left);
      path := [a];
    } else {
      var b, more := OnePass(run, a, rest, left);
      var later := PassesCarryOutPlan(run, b, rest[1..], more, goal);
      PathExtends(run, a, later);
      path := [a] + later;
    }
  }

  lemma StopsAtTheEnd(run: Loop, a: Moment, rest: seq<nat>, left: nat)
    requires LoopInv(run, a.db, a.selected, a.preferred, a.received, rest, left) && Stops(run, a)
    ensures Collected(a.db, a.received) == Prepend(a.received, Yet(run, a.db, rest, left))
  {
    if |a.received| < run.limit && NextOf(run, a).Some? {
      LoopStops(run, a.db, a.selected, a.preferred, a.received, rest, left);
    }
    LoopEnds(run, a.db, a.selected, a.preferred, a.received, rest, left);
    assert a.received + [] == a.received;
  }

  lemma OnePass(run: Loop, a: Moment, rest: seq<nat>, left: nat) returns (b: Moment, more: nat)
    requires LoopInv(run, a.db, a.selected, a.preferred, a.received, rest, left) && !Stops(run, a)
    ensures Takes(run, a, b) && rest != []
    ensures LoopInv(run, b.db, b.selected, b.preferred, b.received, rest[1..], more)
    ensures Prepend(a.received, Yet(run, a.db, rest, left)) == Prepend(b.received, Yet(run, b.db, rest[1..], more))
  {
    var s := NextOf(run, a).value;
    var d: Db;
    d, more := LoopPass(run, a.db, a.selected, a.preferred, a.received, rest, left, s);
    PrependTwice(a.received, Front(a.db, d, s), Yet(run, d, rest[1..], more));
    b := Moment(d, Claimed(run, d, s, a.selected), NowServing(run, a.db, d, s, a.preferred), a.received + Front(a.db, d, s));
  }

  lemma ReceivePath(db: Db, run: Loop) returns (path: seq<Moment>)
    requires Inv(db) && run.q in db.queues
    requires run.rows == db.messages && run.kind == Kind(db, run.q) && run.policy == PolicyOf(db, run.q)
    ensures Path(run, path) && path[0] == Moment(db, [], None, [])
    ensures Collected(LastOf(path).db, LastOf(path).received) == Operations.CollectReceived(db, run.q, run.limit, run.visibility, run.now)
  {
    LoopStarts(db, run);
    AllIsYetToCome(db, run);
    path := PassesCarryOutPlan(run, Moment(db, [], None, []), ReceiveOrder(db, run.q, run.now),
                               Cap(run.kind, run.visibility, run.now, run.limit),
                               Operations.CollectReceived(db, run.q, run.limit, run.visibility, run.now));
  }

  // ----- one row at a time

  /** The columns that the receive query selects. */
  datatype Candidate = Candidate(sequence: nat, id: string, body: string, group: Option<string>, count: nat)

  function Select(db: Db, s: nat): Candidate
    requires s in db.messages
  {
    var row := db.messages[s];
    Candidate(s, row.id, row.body, row.group, row.count)
  }

  /** AUTOINCREMENT: the next row number is larger than every one in use. */
  ghost predicate BelowNextSequence(db: Db) {
    forall t :: t in db.messages ==> t < db.nextSequence
  }

  /** Row s is gone, its message is the newest row, never received there, and every other row is as it was. */
  ghost predicate Relocated(db: Db, d: Db, s: nat, destination: string, newIdentity: bool) {
    && s in db.messages && d.messages.Keys == db.messages.Keys - {s} + {db.nextSequence} && d.nextSequence == db.nextSequence + 1
    && (forall t :: t in db.messages && t != s ==> Untouched(db, d, t))
    && (var row, moved := db.messages[s], d.messages[db.nextSequence];
        && moved.queue == destination && moved.body == row.body && moved.group == row.group
        && moved.attributes == row.attributes && moved.dedup == row.dedup
        && moved.count == 0 && moved.handle.None? && moved.invisibleUntil.None?
        && (if newIdentity then moved.id == MessageId(db.nextSequence) && moved.total == 0 && moved.firstReceived.None?
            else moved.id == row.id && moved.total == row.total && moved.firstReceived == row.firstReceived))
  }

  lemma MovedIsRelocated(db: Db, s: nat, destination: string, now: nat, reset: bool, newIdentity: bool)
    requires s in db.messages && BelowNextSequence(db)
    ensures Relocated(db, Tables.MoveMessage(db, s, destination, now, reset, newIdentity), s, destination, newIdentity)
  {
  }

  /** Naming the row after its number is known is inserting it under that name. */
  lemma NamedAfterwards(db: Db, row: Row, id: string)
    ensures SetMessageId(InsertRow(db, row), db.nextSequence, id) == InsertRow(db, row.(id := id))
  {
  }

  class Transaction {
    var db: Db

    constructor (committed: Db)
      ensures db == committed
    {
      db := committed;
    }

    /** Delete and reinsert: the row becomes the newest of its destination. */
    method MoveMessage(sequence: nat, destination: string, now: nat, resetTimestamp: bool, newIdentity: bool) returns (moved: nat)
      requires sequence in db.messages && BelowNextSequence(db)
      modifies this
      ensures moved == old(db.nextSequence) && Relocated(old(db), db, sequence, destination, newIdentity)
      ensures db == Tables.MoveMessage(old(db), sequence, destination, now, resetTimestamp, newIdentity)
    {
      MovedIsRelocated(db, sequence, destination, now, resetTimestamp, newIdentity);
      var stored := db.messages[sequence];
      db := DeleteRows(db, {sequence});
      var delay := 0;
      if newIdentity {
        delay := DelayOf(db, destination);
      }
      moved := db.nextSequence;
      var row := Row(
        if newIdentity then "" else stored.id, destination, stored.body, stored.group, stored.attributes, None, None, 0,
        if newIdentity then 0 else stored.total, 0, if resetTimestamp then now else stored.createdAt,
        SaturatingAdd(now, Ms(delay)), if newIdentity then None else stored.firstReceived, stored.dedup);
      NamedAfterwards(db, row, MessageId(moved));
      db := InsertRow(db, row);
      if newIdentity {
        db := SetMessageId(db, moved, MessageId(moved));
      }
    }

    method RedriveCandidate(q: string, sequence: nat, policy: Policy, now: nat)
      requires sequence in db.messages && BelowNextSequence(db)
      modifies this
      ensures OneMoved(old(db), db, q, policy, now, sequence)
      ensures db == DeadLetter(old(db), sequence, q, policy, now)
    {
      DeadLetterMovesOne(db, q, policy, now, sequence);
      var fifo := Kind(db, q) == Fifo;
      var moved := MoveMessage(sequence, policy.deadLetterQueue, now, fifo, false);
      db := db.(origins := db.origins[moved := q]);
    }

    /**
      * The response is put together from the candidate as it was selected and the metadata as they are after the
      * update, and still is what reading the delivered row gives.
      */
    method DeliverCandidate(kind: QueueType, candidate: Candidate, visibility: nat, now: nat) returns (message: Received)
      requires candidate.sequence in db.messages && candidate == Select(db, candidate.sequence)
      requires kind == Kind(db, db.messages[candidate.sequence].queue)
      modifies this
      ensures TouchesOne(old(db), db, candidate.sequence, None) && db.messages.Keys == old(db.messages.Keys)
      ensures db == Deliver(old(db), candidate.sequence, visibility, now)
      ensures message == ViewRow(db, candidate.sequence)
    {
      DeliverTouchesOne(db, visibility, now, candidate.sequence, None);
      var receiveCount := candidate.count + 1;
      var handle := ReceiptHandle(candidate.sequence, receiveCount, now);
      db := SetDelivery(db, candidate.sequence, handle, SaturatingAdd(now, Ms(visibility)), receiveCount, now);
      var m := ReadMetadata(db, candidate.sequence, kind);
      message := Received(
        candidate.id, handle, candidate.body, candidate.group, receiveCount % 0x1_0000_0000, m.attributes, m.sent,
        m.firstReceived, m.total, m.sequenceNumber, m.dedup, m.deadLetterSource);
    }

    /** The match on `candidate_action`: move the row away, or deliver it and claim it. */
    method TakeCandidate(run: Loop, candidate: Candidate, selected: seq<nat>, preferred: Option<string>, received: seq<Received>)
        returns (claimed: seq<nat>, serving: Option<string>, collected: seq<Received>)
      requires TableOk(db) && candidate.sequence in db.messages && candidate == Select(db, candidate.sequence)
      requires db.messages[candidate.sequence].queue == run.q && run.kind == Kind(db, run.q)
      modifies this
      ensures db == Handle(old(db), run.q, run.policy, run.visibility, run.now, candidate.sequence)
      ensures claimed == Claimed(run, db, candidate.sequence, selected)
      ensures serving == NowServing(run, old(db), db, candidate.sequence, preferred)
      ensures collected == received + Front(old(db), db, candidate.sequence)
    {
      claimed, serving, collected := selected, preferred, received;
      BelowNext(db);
      HandledShape(db, run.q, run.policy, run.visibility, run.now, candidate.sequence);
      if run.policy.Some? && candidate.count >= run.policy.value.maxReceiveCount {
        RedriveCandidate(run.q, candidate.sequence, run.policy.value, run.now);
      } else {
        var message := DeliverCandidate(run.kind, candidate, run.visibility, run.now);
        if run.kind == Fifo {
          claimed := claimed + [candidate.sequence];
          serving := candidate.group;
        }
        collected := collected + [message];
      }
    }

    /** The select-deliver-or-move loop carries out the plan fixed by the state it started in. */
    method CollectReceived(q: string, limit: nat, visibility: nat, now: nat) returns (received: seq<Received>)
      requires Inv(db) && q in db.queues
      modifies this
      ensures Collected(db, received) == Operations.CollectReceived(old(db), q, limit, visibility, now)
    {
      received := [];
      var selected: seq<nat> := [];
      var preferred: Option<string> := None;
      var policy := PolicyOf(db, q);
      var kind := Kind(db, q);
      var run := Loop(db.messages, kind, q, policy, visibility, now, limit);
      ghost var path := ReceivePath(db, run);
      ghost var k := 0;
      while |received| < limit
        invariant k < |path| && path[k] == Moment(db, selected, preferred, received)
        decreases |path| - k
      {
        assert k + 1 < |path| ==> Takes(run, path[k], path[k + 1]);
        var candidate := NextReceivable(db, q, kind, now, selected, preferred);
        if candidate.None? {
          break;
        }
        var selection := Select(db, candidate.value);
        if AlreadyReceived(received, selection.id) {
          break;
        }
        selected, preferred, received := TakeCandidate(run, selection, selected, preferred, received);
        k := k + 1;
      }
      assert k + 1 < |path| ==> Takes(run, path[k], path[k + 1]);
    }

    method ReplayAttempt(q: string, o: ReceiveOptions, maximum: nat, now: nat) returns (r: ReplayOutcome)
      requires q in db.queues
      modifies this
      ensures match Operations.ReplayAttempt(old(db), q, o, maximum, now)
              case Fresh(d) => db == d && r == NoRecord
              case Replayed(d, messages) => db == d && r == Replay(messages)
              case ReplayFailed(error) => r == Refuse(error)
    {
      db := PruneAttempts(db, q, now);
      if o.attemptId.None? || (q, o.attemptId.value) !in db.attempts {
        return NoRecord;
      }
      var a := db.attempts[(q, o.attemptId.value)];
      if !a.valid || a.maximum != maximum || a.requested != o.visibility {
        return Refuse(InvalidDeliveryOptions);
      }
      var extra := |Extra(db, q, a.members, now)|;
      if a.visibility > 0 && extra > 0 && CountInFlight(db, q, now) + extra > db.queues[q].settings.maxInFlight {
        return Refuse(OverLimit);
      }
      ghost var pruned := db;
      var until := SaturatingAdd(now, Ms(a.visibility));
      ExtendNothing(db, q, until);
      for i := 0 to |a.response|
        invariant db == ExtendHidden(pruned, q, ResponseHandles(a.response[..i]), until)
      {
        ExtendOneMore(pruned, q, ResponseHandles(a.response[..i]), a.response[i].handle, until);
        HandlesOfPrefix(a.response, i);
        db := ExtendHidden(db, q, {a.response[i].handle}, until);
      }
      assert a.response[..|a.response|] == a.response;
      return Replay(a.response);
    }

    method SaveAttempt(q: string, o: ReceiveOptions, maximum: nat, visibility: nat, now: nat, messages: seq<Received>)
      modifies this
      ensures db == Operations.SaveAttempt(old(db), q, o, maximum, visibility, now, messages)
    {
      if o.attemptId.None? {
        return;
      }
      var key := (q, o.attemptId.value);
      ghost var before := db;
      HandlesOfNone(messages);
      var record := Attempt(now, maximum, o.visibility, Ms(visibility), messages, {}, true);
      db := db.(attempts := db.attempts[key := record]);
      for i := 0 to |messages|
        invariant db == before.(attempts := before.attempts[key := record.(members := ResponseHandles(messages[..i]))])
      {
        HandlesOfPrefix(messages, i);
        db := db.(attempts := db.attempts[key := db.attempts[key].(members := db.attempts[key].members + {messages[i].handle})]);
      }
      assert messages[..|messages|] == messages;
    }

    /** Moves rows back one at a time while there is one at the head of its group. */
    method MoveDeadLetters(dlq: string, source: string, maximum: nat, now: nat) returns (moved: nat)
      requires BackReady(db, dlq, source)
      modifies this
      ensures db == MoveBack(old(db), source, now, RedriveOrder(old(db), dlq, source, now, maximum))
      ensures moved == |RedriveOrder(old(db), dlq, source, now, maximum)|
    {
      moved := 0;
      ghost var path, rest := RedrivePath(db, dlq, source, now, maximum);
      while moved < maximum
        invariant moved <= |rest| && db == path[moved]
        decreases |rest| - moved
      {
        var candidate := NextReturnable(db, dlq, source, now);
        if candidate.None? {
          assert moved < |rest| ==> Pass(path[moved], path[moved + 1], dlq, source, now, rest[moved]);
          return;
        }
        assert moved < |rest|;
        assert Pass(path[moved], path[moved + 1], dlq, source, now, rest[moved]);
        var _ := MoveMessage(candidate.value, source, now, true, true);
        moved := moved + 1;
      }
    }
  }

  class Lqs {
    var connection: Db

    ghost predicate Valid()
      reads this
    {
      Inv(connection)
    }

    constructor ()
      ensures Valid() && connection == EMPTY
    {
      connection := EMPTY;
    }

    method CreateQueue(name: string, kind: QueueType, settings: Settings, policy: Option<Policy>, nowMs: nat) returns (r: Reply)
      requires Valid()
      modifies this
      ensures Valid() && Result(connection, r) == Operations.CreateQueue(old(connection), name, kind, settings, policy, nowMs)
    {
      CreateQueueKeeps(connection, name, kind, settings, policy, nowMs);
      if kind == Fifo && !IsFifoName(name) { return Failed(InvalidFifoName); }
      if kind == Standard && IsFifoName(name) { return Failed(InvalidStandardName); }
      var invalid := SettingsError(kind, settings);
      if invalid.Some? { return Failed(invalid.value); }
      var tx := new Transaction(connection);
      if name in tx.db.deleted && Ms(nowMs) < SaturatingAdd(tx.db.deleted[name], COOLDOWN) {
        return Failed(QueueDeletedRecently);
      }
      tx.db := tx.db.(deleted := tx.db.deleted - {name});
      if name in tx.db.queues { return Failed(QueueAlreadyExists); }
      tx.db := tx.db.(queues := tx.db.queues[name := Queue(kind, settings, None)]);
      var written := WritePolicy(tx.db, name, policy);
      if written.None? { return Failed(InvalidRedrivePolicy); }
      connection := written.value;
      return Done;
    }

    method Send(q: string, request: SendRequest, nowMs: nat) returns (r: Reply)
      requires Valid()
      modifies this
      ensures Valid() && Result(connection, r) == Operations.Send(old(connection), q, request, nowMs)
    {
      SendKeeps(connection, q, request, nowMs);
      var tx := new Transaction(connection);
      if q !in tx.db.queues { return Failed(QueueNotFound); }
      var queue := tx.db.queues[q];
      var prepared := PrepareSend(request, queue);
      if prepared.Refused? { return Failed(prepared.error); }
      tx.db := ExpireMessages(tx.db, q, Ms(nowMs));
      if prepared.dedup.Some? {
        tx.db := PruneKeys(tx.db, q, nowMs);
        var matching := MatchingKeys(tx.db, q, prepared.dedup.value, queue.settings.scope, request.group);
        if matching != {} {
          connection := tx.db;
          return Sent(OldestId(matching), true);
        }
      }
      var id := MessageId(tx.db.nextSequence);
      tx.db := InsertMessage(tx.db, q, prepared, Ms(nowMs));
      connection := tx.db;
      return Sent(id, false);
    }

    method ReceivePage(q: string, maximum: nat, o: ReceiveOptions, nowMs: nat, cacheEmpty: bool) returns (r: Reply)
      requires Valid()
      modifies this
      ensures Valid() && Result(connection, r) == Operations.ReceivePage(old(connection), q, maximum, o, nowMs, cacheEmpty)
    {
      ReceivePageKeeps(connection, q, maximum, o, nowMs, cacheEmpty);
      if !(1 <= maximum <= 10) { return Failed(InvalidReceiveOptions); }
      var now := Ms(nowMs);
      var tx := new Transaction(connection);
      if q !in tx.db.queues { return Failed(QueueNotFound); }
      var queue := tx.db.queues[q];
      var invalid := OptionsError(o, queue.kind);
      if invalid.Some? { return Failed(invalid.value); }
      var visibility := o.visibility.GetOr(queue.settings.visibility);
      ExpireKeeps(tx.db, q, now);
      tx.db := ExpireMessages(tx.db, q, now);
      ReplayKeeps(tx.db, q, o, maximum, now);
      var outcome := tx.ReplayAttempt(q, o, maximum, now);
      match outcome {
        case Refuse(error) =>
          return Failed(error);
        case Replay(messages) =>
          connection := tx.db;
          return Page(messages, true);
        case NoRecord =>
      }
      var inFlight := CountInFlight(tx.db, q, now);
      if inFlight >= queue.settings.maxInFlight && queue.kind == Standard {
        connection := tx.db;
        return Failed(OverLimit);
      }
      var limit := Limit(tx.db, q, maximum, now);
      var received := tx.CollectReceived(q, limit, visibility, now);
      var complete := received != [] || cacheEmpty;
      if complete {
        tx.SaveAttempt(q, o, maximum, visibility, now, received);
      }
      connection := tx.db;
      return Page(received, complete);
    }

    method Delete(q: string, handle: string) returns (r: Reply)
      requires Valid()
      modifies this
      ensures Valid() && Result(connection, r) == DeleteMessage(old(connection), q, handle)
      ensures r == Done <==> old(q in connection.queues) && exists s :: HeldBy(old(connection), q, handle, s)
    {
      DeleteAnswersExactly(connection, q, handle);
      DeleteMessageKeeps(connection, q, handle);
      if q !in connection.queues { return Failed(QueueNotFound); }
      var held := Holding(connection, q, handle);
      connection := DeleteRows(connection, held);
      return if |held| == 1 then Done else Failed(InvalidReceiptHandle);
    }

    method ChangeVisibility(q: string, handle: string, timeoutMs: nat, nowMs: nat) returns (r: Reply)
      requires Valid()
      modifies this
      ensures Valid() && Result(connection, r) == Operations.ChangeVisibility(old(connection), q, handle, timeoutMs, nowMs)
      ensures timeoutMs <= 43_200_000 && old(q in connection.queues) ==>
                (r == Done <==> exists s :: HeldBy(old(connection), q, handle, s) && InFlight(old(connection), s, nowMs))
    {
      if q in connection.queues && timeoutMs <= 43_200_000 {
        ChangeVisibilityAnswersExactly(connection, q, handle, timeoutMs, nowMs);
      }
      ChangeVisibilityKeeps(connection, q, handle, timeoutMs, nowMs);
      if timeoutMs > 43_200_000 { return Failed(InvalidDeliveryOptions); }
      if q !in connection.queues { return Failed(QueueNotFound); }
      var now := Ms(nowMs);
      var inFlight := InFlightHolding(connection, q, handle, now);
      var held := Holding(connection, q, handle) != {};
      connection := ReviseHidden(connection, inFlight, SaturatingAdd(now, Ms(timeoutMs)));
      return if |inFlight| == 1 then Done else if held then Failed(MessageNotInflight) else Failed(InvalidReceiptHandle);
    }

    method RedriveDeadLetters(dlq: string, source: string, maximum: nat, nowMs: nat) returns (r: Reply)
      requires Valid()
      modifies this
      ensures Valid() && Result(connection, r) == Operations.RedriveDeadLetters(old(connection), dlq, source, maximum, nowMs)
    {
      RedriveKeeps(connection, dlq, source, maximum, nowMs);
      var tx := new Transaction(connection);
      if source !in tx.db.queues || dlq !in tx.db.queues { return Failed(QueueNotFound); }
      if Kind(tx.db, dlq) != Kind(tx.db, source) || dlq == source { return Failed(InvalidRedrivePolicy); }
      ExpireKeeps(tx.db, dlq, Ms(nowMs));
      tx.db := ExpireMessages(tx.db, dlq, Ms(nowMs));
      ExpireKeeps(tx.db, source, Ms(nowMs));
      tx.db := ExpireMessages(tx.db, source, Ms(nowMs));
      var moved := tx.MoveDeadLetters(dlq, source, maximum, Ms(nowMs));
      connection := tx.db;
      return Moved(moved);
    }

    method SetQueueAttributes(q: string, u: Update, nowMs: nat) returns (r: Reply)
      requires Valid()
      modifies this
      ensures Valid() && Result(connection, r) == Operations.SetQueueAttributes(old(connection), q, u, nowMs)
    {
      SetQueueAttributesKeeps(connection, q, u, nowMs);
      var tx := new Transaction(connection);
      if q !in tx.db.queues { return Failed(QueueNotFound); }
      var current := tx.db.queues[q];
      var invalid := UpdateError(current.kind, current.settings, u);
      if invalid.Some? { return Failed(invalid.value); }
      var settings := Resolve(current.settings, u);
      if u.policy.Some? {
        var written := WritePolicy(tx.db, q, u.policy.value);
        if written.None? { return Failed(InvalidRedrivePolicy); }
        tx.db := written.value;
      }
      tx.db := tx.db.(queues := tx.db.queues[q := current.(settings := settings)]);
      if current.kind == Fifo && settings.delay != current.settings.delay {
        tx.db := DelayUnreceived(tx.db, q, settings.delay);
      }
      tx.db := ExpireMessages(tx.db, q, Ms(nowMs));
      connection := tx.db;
      return Done;
    }

    method PurgeQueue(q: string, nowMs: nat) returns (r: Reply)
      requires Valid()
      modifies this
      ensures Valid() && Result(connection, r) == Operations.PurgeQueue(old(connection), q, nowMs)
    {
      PurgeQueueKeeps(connection, q, nowMs);
      var tx := new Transaction(connection);
      if q !in tx.db.queues { return Failed(QueueNotFound); }
      var queue := tx.db.queues[q];
      if queue.lastPurge.Some? && Ms(nowMs) < SaturatingAdd(queue.lastPurge.value, COOLDOWN) {
        return Failed(PurgeQueueInProgress);
      }
      tx.db := DeleteRows(tx.db, Rows(tx.db, q));
      tx.db := InvalidateQueue(tx.db, q);
      tx.db := tx.db.(queues := tx.db.queues[q := queue.(lastPurge := Some(Ms(nowMs)))]);
      connection := tx.db;
      return Done;
    }

    method DeleteQueue(q: string, nowMs: nat) returns (r: Reply)
      requires Valid()
      modifies this
      ensures Valid() && Result(connection, r) == Operations.DeleteQueue(old(connection), q, nowMs)
    {
      DeleteQueueKeeps(connection, q, nowMs);
      var tx := new Transaction(connection);
      if q !in tx.db.queues { return Failed(QueueNotFound); }
      tx.db := DetachPolicies(tx.db, q);
      tx.db := DetachOrigins(tx.db, q);
      tx.db := DropQueue(tx.db, q);
      tx.db := tx.db.(deleted := tx.db.deleted[q := Ms(nowMs)]);
      connection := tx.db;
      return Done;
    }
  }
}
