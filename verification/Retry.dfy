/** A receive that is retried with its attempt id is answered from the record. */
module Retry {
  import opened Identifiers
  import opened Tables
  import opened Terms
  import opened Operations
  import opened Invariants
  import opened Preservation
  import opened Runs
  import opened ReceiveCalls
  import opened Cooldowns
  import opened Records

  /** The rows that hold the handles of a response. */
  function ShownRows(d: Db, q: string, response: seq<Received>): set<nat> {
    set s | s in d.messages && d.messages[s].queue == q && d.messages[s].handle.Some?
            && d.messages[s].handle.value in ResponseHandles(response)
  }

  /** Everything the response showed is still within its retention. */
  ghost predicate StillKept(d: Db, q: string, response: seq<Received>, nowMs: nat) {
    forall s :: s in ShownRows(d, q, response) ==> !TooOld(d, s, nowMs)
  }

  /** The messages of the response that became visible again. */
  function Back(d: Db, q: string, response: seq<Received>, nowMs: nat): set<nat> {
    set s | s in ShownRows(d, q, response) && d.messages[s].invisibleUntil.Some? && d.messages[s].invisibleUntil.value <= Capped(nowMs)
  }

  /** Hiding them again would exceed the quota. */
  predicate NoRoom(d: Db, q: string, response: seq<Received>, timeout: nat, nowMs: nat)
    requires q in d.queues
  {
    var back := Back(d, q, response, nowMs);
    timeout > 0 && back != {} && d.queues[q].settings.maxInFlight < |InFlightRows(d, q, nowMs)| + |back|
  }

  /** Exactly the rows of the response were hidden again, for the timeout from now; nothing else about them or any other row changed. */
  ghost predicate HiddenAgain(d: Db, e: Db, q: string, response: seq<Received>, timeout: nat, nowMs: nat) {
    && e.nextSequence == d.nextSequence && e.messages.Keys <= d.messages.Keys
    && forall s :: s in d.messages ==>
         if s in ShownRows(d, q, response)
         then s in e.messages && e.messages[s] == d.messages[s].(invisibleUntil := Some(After(nowMs, timeout))) && Origin(e, s) == Origin(d, s)
         else if d.messages[s].queue == q && TooOld(d, s, nowMs) then s !in e.messages
         else Untouched(d, e, s)
  }

  function KeyOf(op: Op): AttemptKey
    requires op.OpReceive? && op.options.attemptId.Some?
  {
    (op.queue, op.options.attemptId.value)
  }

  /** The record answers this request: valid, of the same parameters, and nothing it showed is too old. */
  ghost predicate Answers(d: Db, a: Attempt, op: Op, nowMs: nat)
    requires op.OpReceive?
  {
    a.valid && a.maximum == op.maximum && a.requested == op.options.visibility && StillKept(d, op.queue, a.response, nowMs)
  }

  // ----- recording

  /** A complete fresh receive leaves its record. */
  lemma FreshReceiveRecords(db: Db, op: Op) returns (a: Attempt)
    requires Inv(db) && op.OpReceive? && op.options.attemptId.Some? && !Remembered(db, op)
    requires Perform(db, op).reply.Page? && Perform(db, op).reply.complete
    ensures Acceptable(db, op) && KeyOf(op) in Step(db, op).attempts && a == Step(db, op).attempts[KeyOf(op)]
    ensures var messages := Perform(db, op).reply.messages;
            a == Attempt(Capped(op.nowMs), op.maximum, op.options.visibility, Capped(Timeout(db, op)), messages, ResponseHandles(messages), true)
  {
    if !Acceptable(db, op) {
      ReceiveRefused(db, op);
    } else {
      FreshCollects(db, op);
    }
    a := Step(db, op).attempts[KeyOf(op)];
  }

  /** An incomplete page is not recorded: asking again looks for messages again. */
  lemma IncompleteIsForgotten(db: Db, op: Op)
    requires Inv(db) && op.OpReceive? && op.options.attemptId.Some? && !Remembered(db, op)
    requires Perform(db, op).reply.Page? && !Perform(db, op).reply.complete
    ensures KeyOf(op) !in Step(db, op).attempts
  {
    if !Acceptable(db, op) {
      ReceiveRefused(db, op);
    } else {
      var e := ReadyFor(db, op.queue, op.nowMs);
      FreshCollects(db, op);
      CollectReceivedKeeps(e, op.queue, Limit(e, op.queue, op.maximum, Ms(op.nowMs)), Timeout(db, op), Ms(op.nowMs));
      assert KeyOf(op) !in e.attempts;
    }
  }

  // ----- answering

  /** Clearing old rows and records leaves a young record, invalid if one of its rows went. */
  lemma YoungRecordStays(d: Db, op: Op, a: Attempt, nowMs: nat)
    requires op.OpReceive? && op.options.attemptId.Some? && KeyOf(op) in d.attempts && d.attempts[KeyOf(op)] == a
    requires a.members == ResponseHandles(a.response) && Capped(nowMs) < a.createdAt + 300_000
    ensures var e := ReadyFor(d, op.queue, nowMs);
            && KeyOf(op) in e.attempts
            && e.attempts[KeyOf(op)] == a.(valid := a.valid && StillKept(d, op.queue, a.response, nowMs))
  {
    var q := op.queue;
    var gone := HandlesOf(d.messages, ExpiredRows(d, q, Ms(nowMs)));
    TimesAreCapped(nowMs, 0);
    if StillKept(d, q, a.response, nowMs) {
      assert a.members * gone == {} by {
        forall s | s in ExpiredRows(d, q, Ms(nowMs)) ensures s !in ShownRows(d, q, a.response) {}
      }
    } else {
      var s :| s in ShownRows(d, q, a.response) && TooOld(d, s, nowMs);
      assert s in ExpiredRows(d, q, Ms(nowMs));
      assert d.messages[s].handle.value in a.members * gone;
    }
  }

  /** The rows that are visible again are the ones the replay counts. */
  lemma BackIsExtra(d: Db, q: string, a: Attempt, nowMs: nat)
    requires a.members == ResponseHandles(a.response) && StillKept(d, q, a.response, nowMs)
    ensures Extra(ReadyFor(d, q, nowMs), q, a.members, Ms(nowMs)) == Back(d, q, a.response, nowMs)
  {
    ReadyForDrops(d, q, nowMs);
  }

  lemma ExtendsShown(d: Db, q: string, response: seq<Received>, timeout: nat, nowMs: nat)
    requires StillKept(d, q, response, nowMs)
    ensures HiddenAgain(d, ExtendHidden(ReadyFor(d, q, nowMs), q, ResponseHandles(response), After(nowMs, timeout)), q, response, timeout, nowMs)
  {
    ReadyForDrops(d, q, nowMs);
  }

  /** What the replay decides, for a record that is there. */
  lemma ReplayDecides(expired: Db, q: string, o: ReceiveOptions, maximum: nat, now: nat)
    requires q in expired.queues && o.attemptId.Some? && (q, o.attemptId.value) in PruneAttempts(expired, q, now).attempts
    ensures var e := PruneAttempts(expired, q, now);
            var a := e.attempts[(q, o.attemptId.value)];
            var extra := Extra(e, q, a.members, now);
            ReplayAttempt(expired, q, o, maximum, now)
            == if !a.valid || a.maximum != maximum || a.requested != o.visibility then ReplayFailed(InvalidDeliveryOptions)
               else if a.visibility > 0 && extra != {} && CountInFlight(e, q, now) + |extra| > e.queues[q].settings.maxInFlight
               then ReplayFailed(OverLimit)
               else Replayed(ExtendHidden(e, q, ResponseHandles(a.response), SaturatingAdd(now, Ms(a.visibility))), a.response)
  {
  }

  /** What a receive makes of its replay. */
  lemma ReplayCarries(d: Db, op: Op)
    requires op.OpReceive? && Acceptable(d, op)
    ensures var r := ReplayAttempt(ExpireMessages(d, op.queue, Ms(op.nowMs)), op.queue, op.options, op.maximum, Ms(op.nowMs));
            && (r.ReplayFailed? ==> Perform(d, op) == Result(d, Failed(r.error)))
            && (r.Replayed? ==> Perform(d, op) == Result(r.db, Page(r.messages, true)))
  {
    AcceptableIsValid(d, op);
  }

  /**
    * A receive whose attempt is remembered: refused without a change when the record is invalid, was made with other
    * parameters or showed something too old by now, or when there is no room for what became visible again.
    * Otherwise it gets the recorded response, and exactly the rows of that response are hidden again.
    */
  lemma RememberedAnswers(d: Db, op: Op)
    requires Inv(d) && op.OpReceive? && Acceptable(d, op) && Remembered(d, op)
    ensures var a, q, again := d.attempts[KeyOf(op)], op.queue, Perform(d, op);
            if !Answers(d, a, op, op.nowMs) then again == Result(d, Failed(InvalidDeliveryOptions))
            else if NoRoom(d, q, a.response, a.visibility, op.nowMs) then again == Result(d, Failed(OverLimit))
            else again.reply == Page(a.response, true) && HiddenAgain(d, again.db, q, a.response, a.visibility, op.nowMs)
  {
    var a, q := d.attempts[KeyOf(op)], op.queue;
    assert AttemptOk(d, KeyOf(op));
    YoungRecordStays(d, op, a, op.nowMs);
    ReplayCarries(d, op);
    ReplayDecides(ExpireMessages(d, q, Ms(op.nowMs)), q, op.options, op.maximum, Ms(op.nowMs));
    if Answers(d, a, op, op.nowMs) {
      ReadyForDrops(d, q, op.nowMs);
      InFlightCounted(d, q, op.nowMs);
      TimesAreCapped(op.nowMs, a.visibility);
      BackIsExtra(d, q, a, op.nowMs);
      ExtendsShown(d, q, a.response, a.visibility, op.nowMs);
    }
  }

  // ----- retrying later

  lemma {:induction false} KindOverRuns(db: Db, ops: seq<Op>, q: string)
    requires Inv(db) && q in db.queues
    requires forall i :: 0 <= i < |ops| ==> !(ops[i].OpDeleteQueue? && ops[i].name == q)
    ensures q in Run(db, ops).queues && Run(db, ops).queues[q].kind == db.queues[q].kind
    decreases |ops|
  {
    if ops != [] {
      KindStays(db, ops[0], q);
      StepKeeps(db, ops[0]);
      assert forall i :: 0 <= i < |ops[1..]| ==> ops[1..][i] == ops[i + 1];
      KindOverRuns(Step(db, ops[0]), ops[1..], q);
    }
  }

  /** The timeout as recorded hides for as long as the timeout itself. */
  lemma CappedTimeout(d: Db, e: Db, q: string, response: seq<Received>, timeout: nat, nowMs: nat)
    requires q in d.queues
    ensures HiddenAgain(d, e, q, response, Capped(timeout), nowMs) <==> HiddenAgain(d, e, q, response, timeout, nowMs)
    ensures NoRoom(d, q, response, Capped(timeout), nowMs) <==> NoRoom(d, q, response, timeout, nowMs)
  {
    assert After(nowMs, Capped(timeout)) == After(nowMs, timeout);
  }

  /**
    * What asking again gives. If every row of the response is as the first receive left it in d, apart from its
    * deadline, and within retention, then the same response, and exactly those rows are hidden again for the timeout;
    * only when the in-flight quota leaves no room for the messages that became visible again is the retry refused,
    * without a change. If not, it is refused as no longer replayable and changes nothing.
    */
  ghost predicate Again(d: Db, f: Db, again: Op, response: seq<Received>, timeout: nat)
    requires again.OpReceive?
  {
    && again.queue in f.queues
    && (if Intact(d, f, ResponseHandles(response)) && StillKept(f, again.queue, response, again.nowMs)
        then if NoRoom(f, again.queue, response, timeout, again.nowMs) then Perform(f, again) == Result(f, Failed(OverLimit))
             else && Perform(f, again).reply == Page(response, true)
                  && HiddenAgain(f, Step(f, again), again.queue, response, timeout, again.nowMs)
        else Perform(f, again) == Result(f, Failed(InvalidDeliveryOptions)))
  }

  /**
    * A complete receive is repeated with its attempt id and parameters within five minutes, after any operations
    * that neither purge nor delete its queue or a queue its response shows as a source.
    */
  lemma RetryReplays(db: Db, op: Op, between: seq<Op>, again: Op)
    requires Inv(db) && op.OpReceive? && op.options.attemptId.Some? && !Remembered(db, op)
    requires Perform(db, op).reply.Page? && Perform(db, op).reply.complete
    requires AllCalm(between, op.queue, Perform(db, op).reply.messages, Capped(op.nowMs) + 300_000)
    requires again.OpReceive? && again == op.(nowMs := again.nowMs, cacheEmpty := again.cacheEmpty) && Capped(again.nowMs) < Capped(op.nowMs) + 300_000
    ensures Acceptable(db, op)
    ensures Again(Step(db, op), Run(Step(db, op), between), again, Perform(db, op).reply.messages, Timeout(db, op))
  {
    var d, q := Step(db, op), op.queue;
    var f := Run(d, between);
    var a := FreshReceiveRecords(db, op);
    StepKeeps(db, op);
    ReceiveKeepsQueues(db, op);
    RecordOverRuns(d, between, KeyOf(op));
    forall i | 0 <= i < |between| ensures !(between[i].OpDeleteQueue? && between[i].name == q) {
      assert Calm(between[i], q, a.response, Capped(op.nowMs) + 300_000);
    }
    KindOverRuns(d, between, q);
    RunKeeps(d, between);
    RememberedAnswers(f, again);
    CappedTimeout(f, Step(f, again), q, a.response, Timeout(db, op), again.nowMs);
  }
}
