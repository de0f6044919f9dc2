/** What creating a queue and changing its attributes answer and leave behind, said from the request and the tables. */
module QueueCalls {
  import opened Identifiers
  import opened Tables
  import opened Terms
  import opened Operations
  import opened Invariants
  import opened Runs
  import opened History

  ghost predicate EndsInFifo(name: string) {
    exists stem: string :: name == stem + ".fifo"
  }

  lemma FifoNames(name: string)
    ensures IsFifoName(name) <==> EndsInFifo(name)
  {
    if IsFifoName(name) { assert name == name[..|name| - 5] + ".fifo"; }
  }

  /** The settings a queue of this type may have. */
  predicate InRange(kind: QueueType, s: Settings) {
    && s.visibility <= 43_200_000 && s.delay <= 900_000 && 60_000 <= s.retention <= 1_209_600_000 && 1 <= s.maxInFlight <= 120_000
    && (kind == Standard ==> !s.contentDedup && s.scope == QueueScope)
  }

  /** Which of them is reported first. */
  function RangeError(s: Settings): Error {
    if s.visibility > 43_200_000 then InvalidVisibilityTimeout
    else if s.delay <= 900_000 && 60_000 <= s.retention <= 1_209_600_000 && !(1 <= s.maxInFlight <= 120_000) then InvalidReceiveOptions
    else InvalidDeliveryOptions
  }

  lemma RangesChecked(kind: QueueType, s: Settings)
    ensures SettingsError(kind, s) == if InRange(kind, s) then None else Some(RangeError(s))
  {
  }

  // ----- redrive policies

  /** The policy suits a queue with this name and type. */
  predicate Fits(db: Db, name: string, kind: QueueType, p: Policy) {
    && 1 <= p.maxReceiveCount <= 1000 && p.deadLetterQueue != name
    && p.deadLetterQueue in db.queues && db.queues[p.deadLetterQueue].kind == kind
  }

  /** A policy is written as given exactly when it fits, and removing one always works; no other policy is touched. */
  lemma PolicyWritten(db: Db, source: string, policy: Option<Policy>)
    requires source in db.queues
    ensures var written := WritePolicy(db, source, policy);
            match policy
            case None => written == Some(db.(policies := db.policies - {source}))
            case Some(p) =>
              written == if Fits(db, source, db.queues[source].kind, p) then Some(db.(policies := db.policies[source := p])) else None
  {
  }

  // ----- creation

  /** The name is still reserved by a deletion. */
  predicate Reserved(db: Db, name: string, nowMs: nat) {
    name in db.deleted && Capped(nowMs) < After(db.deleted[name], 60_000)
  }

  /** Creation succeeds exactly when nothing is wrong with the request, and names the first thing that is. */
  lemma CreateAnswers(db: Db, op: Op)
    requires op.OpCreateQueue?
    ensures Perform(db, op).reply
         == (if op.kind == Fifo && !EndsInFifo(op.name) then Failed(InvalidFifoName)
             else if op.kind == Standard && EndsInFifo(op.name) then Failed(InvalidStandardName)
             else if !InRange(op.kind, op.settings) then Failed(RangeError(op.settings))
             else if Reserved(db, op.name, op.nowMs) then Failed(QueueDeletedRecently)
             else if op.name in db.queues then Failed(QueueAlreadyExists)
             else if op.policy.Some? && !Fits(db, op.name, op.kind, op.policy.value) then Failed(InvalidRedrivePolicy)
             else Done)
  {
    FifoNames(op.name);
    RangesChecked(op.kind, op.settings);
  }

  /** A created queue has the type, settings and policy asked for and no messages; nothing else changes, and nothing at all if it is refused. */
  lemma CreateDoes(db: Db, op: Op)
    requires Inv(db) && op.OpCreateQueue?
    ensures var d, name := Step(db, op), op.name;
            if Perform(db, op).reply != Done then d == db
            else && d == db.(queues := db.queues[name := Queue(op.kind, op.settings, None)], deleted := db.deleted - {name},
                             policies := if op.policy.Some? then db.policies[name := op.policy.value] else db.policies)
                 && forall s :: s in d.messages ==> d.messages[s].queue != name
  {
    if Perform(db, op).reply == Done {
      var inserted := db.(deleted := db.deleted - {op.name}, queues := db.queues[op.name := Queue(op.kind, op.settings, None)]);
      PolicyWritten(inserted, op.name, op.policy);
      assert op.name !in db.policies && db.policies - {op.name} == db.policies;
      forall s | s in db.messages ensures db.messages[s].queue != op.name { assert RowOk(db, s); }
    }
  }

  // ----- deletion

  /** A deletion reserves the name and takes the queue's policies, keys and attempts with it, and nothing of other queues. */
  lemma DeletionDoes(db: Db, op: Op)
    requires op.OpDeleteQueue?
    ensures var r, name := Perform(db, op), op.name;
            if name !in db.queues then r == Result(db, Failed(QueueNotFound))
            else && r.reply == Done && r.db.queues == db.queues - {name} && r.db.deleted == db.deleted[name := Capped(op.nowMs)]
                 && r.db.nextSequence == db.nextSequence
                 && r.db.policies == (map s | s in db.policies && s != name && db.policies[s].deadLetterQueue != name :: db.policies[s])
                 && r.db.keys == (set k | k in db.keys && k.queue != name)
                 && (forall k :: k in r.db.attempts <==> k in db.attempts && k.0 != name)
                 && (forall k :: k in r.db.attempts ==> r.db.attempts[k] == db.attempts[k].(valid := r.db.attempts[k].valid))
  {
  }

  // ----- attributes

  /** The value afterwards is the given one, or without one the value before. */
  predicate Takes<T(==)>(after: T, given: Option<T>, before: T) {
    match given
    case Some(value) => after == value
    case None => after == before
  }

  predicate Applies(after: Settings, u: Update, before: Settings) {
    && Takes(after.visibility, u.visibility, before.visibility) && Takes(after.retention, u.retention, before.retention)
    && Takes(after.delay, u.delay, before.delay) && Takes(after.maxInFlight, u.maxInFlight, before.maxInFlight)
    && Takes(after.contentDedup, u.contentDedup, before.contentDedup) && Takes(after.scope, u.scope, before.scope)
  }

  /** An update applies in one way only. */
  lemma ResolveApplies(u: Update, before: Settings)
    ensures forall after :: Applies(after, u, before) <==> after == Resolve(before, u)
  {
  }

  /** The update is one the queue can take. */
  ghost predicate Allowed(db: Db, q: string, u: Update)
    requires q in db.queues
  {
    var queue := db.queues[q];
    && (forall after :: Applies(after, u, queue.settings) ==> InRange(queue.kind, after))
    && (queue.kind == Standard ==> u.contentDedup.None? && u.scope.None?)
  }

  predicate PolicyAllowed(db: Db, q: string, u: Update)
    requires q in db.queues
  {
    u.policy.Some? && u.policy.value.Some? ==> Fits(db, q, db.queues[q].kind, u.policy.value.value)
  }

  /** An update succeeds exactly when the queue is there and can take the settings and the policy; otherwise nothing changes. */
  lemma SettingsAnswer(db: Db, op: Op)
    requires op.OpSetAttributes?
    ensures var q, u, r := op.queue, op.update, Perform(db, op);
            && (r.reply == Done <==> q in db.queues && Allowed(db, q, u) && PolicyAllowed(db, q, u))
            && (r.reply == Failed(QueueNotFound) <==> q !in db.queues)
            && (r.reply == Failed(InvalidRedrivePolicy) <==> q in db.queues && Allowed(db, q, u) && !PolicyAllowed(db, q, u))
            && (r.reply != Done ==> r.reply.Failed? && r.db == db)
  {
    if op.queue in db.queues {
      var queue := db.queues[op.queue];
      ResolveApplies(op.update, queue.settings);
      assert Applies(Resolve(queue.settings, op.update), op.update, queue.settings);
      RangesChecked(queue.kind, Resolve(queue.settings, op.update));
      if op.update.policy.Some? { PolicyWritten(db, op.queue, op.update.policy.value); }
    }
  }

  /** The policies after an update: written as given, removed, or as they were; never another queue's. */
  predicate PoliciesFollow(db: Db, d: Db, q: string, u: Update) {
    match u.policy
    case None => d.policies == db.policies
    case Some(None) => d.policies == db.policies - {q}
    case Some(Some(p)) => d.policies == db.policies[q := p]
  }

  /** A successful update sets each setting to the given value and leaves the others; no other queue's settings or policy change. */
  lemma SettingsApply(db: Db, op: Op)
    requires Inv(db) && op.OpSetAttributes? && Perform(db, op).reply == Done
    ensures var d, q, u := Step(db, op), op.queue, op.update;
            && q in db.queues && q in d.queues
            && Applies(d.queues[q].settings, u, db.queues[q].settings) && InRange(d.queues[q].kind, d.queues[q].settings)
            && d.queues == db.queues[q := db.queues[q].(settings := d.queues[q].settings)]
            && PoliciesFollow(db, d, q, u)
            && d.keys == db.keys && d.nextSequence == db.nextSequence && d.deleted == db.deleted
  {
    SettingsAnswer(db, op);
    var updated, delayed, settings := SettingsSteps(db, op);
    ResolveApplies(op.update, db.queues[op.queue].settings);
    if op.update.policy.Some? { PolicyWritten(db, op.queue, op.update.policy.value); }
  }

  /** When a FIFO queue's delay changes, its messages that were never received become available after the new delay. */
  predicate Retimed(row: Row, db: Db, d: Db, q: string)
    requires q in db.queues && q in d.queues
  {
    row.queue == q && db.queues[q].kind == Fifo && row.count == 0 && d.queues[q].settings.delay != db.queues[q].settings.delay
  }

  lemma DelayRetimes(updated: Db, q: string, delay: nat, s: nat)
    requires s in updated.messages
    ensures var d, row := DelayUnreceived(updated, q, delay), updated.messages[s];
            && d.messages.Keys == updated.messages.Keys && d.queues == updated.queues && d.origins == updated.origins
            && d.messages[s] == if row.queue == q && row.count == 0 then row.(availableAt := After(row.createdAt, delay)) else row
  {
  }

  lemma ExpiryDrops(db: Db, q: string, nowMs: nat, s: nat)
    requires q in db.queues && s in db.messages
    ensures var d, row := ExpireMessages(db, q, Ms(nowMs)), db.messages[s];
            && d.messages.Keys <= db.messages.Keys && d.queues == db.queues
            && (if row.queue == q && row.createdAt + db.queues[q].settings.retention <= Capped(nowMs) then s !in d.messages
                else s in d.messages && d.messages[s] == row && Origin(d, s) == Origin(db, s))
  {
  }

  /** What a successful update does to the rows: the too old ones of the queue go, by its new retention; the re-timed ones get their new time. */
  lemma SettingsRetime(db: Db, op: Op, s: nat)
    requires Inv(db) && op.OpSetAttributes? && Perform(db, op).reply == Done
    requires s in db.messages
    ensures op.queue in db.queues && op.queue in Step(db, op).queues && Step(db, op).messages.Keys <= db.messages.Keys
    ensures var d, row := Step(db, op), db.messages[s];
            if row.queue == op.queue && row.createdAt + d.queues[op.queue].settings.retention <= Capped(op.nowMs) then s !in d.messages
            else && s in d.messages
                 && d.messages[s] == (if Retimed(row, db, d, op.queue)
                                      then row.(availableAt := After(row.createdAt, d.queues[op.queue].settings.delay)) else row)
                 && Origin(d, s) == Origin(db, s)
  {
    var updated, delayed, settings := SettingsSteps(db, op);
    DelayRetimes(updated, op.queue, settings.delay, s);
    ExpiryDrops(delayed, op.queue, op.nowMs, s);
  }
}
