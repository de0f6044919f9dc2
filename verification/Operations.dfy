/**
 * Every operation of the repository as a function from the committed database to
 * the next one and a reply.  An error that rolls the transaction back returns the
 * database it was given.
 */
module Operations {
  import opened Identifiers
  import opened Ordering
  import opened Tables
  import opened ReceivePlan
  import opened PlanFacts

  const WINDOW: nat := 300_000
  const COOLDOWN: nat := 60_000
  const MAX_VISIBILITY: nat := 43_200_000
  const MAX_DELAY: nat := 900_000

  datatype Error =
    | QueueNotFound | QueueAlreadyExists | QueueDeletedRecently | PurgeQueueInProgress
    | InvalidFifoName | InvalidStandardName | InvalidVisibilityTimeout | InvalidDeliveryOptions
    | InvalidReceiveOptions | InvalidRedrivePolicy | InvalidMessageIdentifier
    | FifoRequiresGroupId | EmptyGroupId | DeduplicationIdRequired
    | InvalidReceiptHandle | MessageNotInflight | OverLimit

  datatype Reply =
    | Done
    | Sent(id: string, deduplicated: bool)
    | Page(messages: seq<Received>, complete: bool)
    | Moved(count: nat)
    | Failed(error: Error)

  datatype Result = Result(db: Db, reply: Reply)

  predicate ValidIdentifier(text: string) {
    1 <= |text| <= 128 && forall c :: c in text ==> '!' <= c <= '~'
  }

  // ----- queues and settings

  predicate IsFifoName(name: string) {
    |name| >= 5 && name[|name| - 5..] == ".fifo"
  }

  /** The range checks in the order they are made. */
  function SettingsError(kind: QueueType, s: Settings): Option<Error> {
    if s.visibility > MAX_VISIBILITY then Some(InvalidVisibilityTimeout)
    else if s.delay > MAX_DELAY || !(60_000 <= s.retention <= 1_209_600_000) then Some(InvalidDeliveryOptions)
    else if !(1 <= s.maxInFlight <= 120_000) then Some(InvalidReceiveOptions)
    else if kind == Standard && (s.contentDedup || s.scope != QueueScope) then Some(InvalidDeliveryOptions)
    else None
  }

  /** `write_redrive_policy`; None when it is refused. */
  function WritePolicy(db: Db, source: string, policy: Option<Policy>): Option<Db> {
    if policy.None? then Some(db.(policies := db.policies - {source}))
    else
      var p := policy.value;
      if !(1 <= p.maxReceiveCount <= 1000) || p.deadLetterQueue == source || p.deadLetterQueue !in db.queues
         || Kind(db, p.deadLetterQueue) != Kind(db, source)
      then None
      else Some(db.(policies := db.policies[source := p]))
  }

  function CreateQueue(db: Db, name: string, kind: QueueType, settings: Settings, policy: Option<Policy>, nowMs: nat): Result {
    if kind == Fifo && !IsFifoName(name) then Result(db, Failed(InvalidFifoName))
    else if kind == Standard && IsFifoName(name) then Result(db, Failed(InvalidStandardName))
    else if SettingsError(kind, settings).Some? then Result(db, Failed(SettingsError(kind, settings).value))
    else if name in db.deleted && Ms(nowMs) < SaturatingAdd(db.deleted[name], COOLDOWN)
    then Result(db, Failed(QueueDeletedRecently))
    else if name in db.queues then Result(db, Failed(QueueAlreadyExists))
    else
      var inserted := db.(deleted := db.deleted - {name}, queues := db.queues[name := Queue(kind, settings, None)]);
      var written := WritePolicy(inserted, name, policy);
      if written.None? then Result(db, Failed(InvalidRedrivePolicy)) else Result(written.value, Done)
  }

  /** Partial update: None keeps a setting; a policy of Some(None) removes it. */
  datatype Update = Update(
    visibility: Option<nat>, retention: Option<nat>, delay: Option<nat>, maxInFlight: Option<nat>,
    contentDedup: Option<bool>, scope: Option<Scope>, policy: Option<Option<Policy>>)

  function Resolve(current: Settings, u: Update): Settings {
    Settings(u.visibility.GetOr(current.visibility), u.retention.GetOr(current.retention), u.delay.GetOr(current.delay),
             u.maxInFlight.GetOr(current.maxInFlight), u.contentDedup.GetOr(current.contentDedup), u.scope.GetOr(current.scope))
  }

  function UpdateError(kind: QueueType, current: Settings, u: Update): Option<Error> {
    var range := SettingsError(kind, Resolve(current, u));
    if range.Some? then range
    else if kind == Standard && (u.contentDedup.Some? || u.scope.Some?) then Some(InvalidDeliveryOptions)
    else None
  }

  function SetQueueAttributes(db: Db, q: string, u: Update, nowMs: nat): Result {
    if q !in db.queues then Result(db, Failed(QueueNotFound))
    else
      var queue := db.queues[q];
      var error := UpdateError(queue.kind, queue.settings, u);
      if error.Some? then Result(db, Failed(error.value))
      else
        var written := if u.policy.None? then Some(db) else WritePolicy(db, q, u.policy.value);
        if written.None? then Result(db, Failed(InvalidRedrivePolicy))
        else
          var settings := Resolve(queue.settings, u);
          var updated := written.value.(queues := db.queues[q := queue.(settings := settings)]);
          var delayed := if queue.kind == Fifo && settings.delay != queue.settings.delay
                         then DelayUnreceived(updated, q, settings.delay) else updated;
          Result(ExpireMessages(delayed, q, Ms(nowMs)), Done)
  }

  function PurgeQueue(db: Db, q: string, nowMs: nat): Result {
    if q !in db.queues then Result(db, Failed(QueueNotFound))
    else
      var queue := db.queues[q];
      if queue.lastPurge.Some? && Ms(nowMs) < SaturatingAdd(queue.lastPurge.value, COOLDOWN)
      then Result(db, Failed(PurgeQueueInProgress))
      else
        var emptied := DeleteRows(db, Rows(db, q));
        Result(InvalidateQueue(emptied, q).(queues := db.queues[q := queue.(lastPurge := Some(Ms(nowMs)))]), Done)
  }

  function InvalidateQueue(db: Db, q: string): Db {
    db.(attempts := map k | k in db.attempts ::
        if k.0 == q then db.attempts[k].(valid := false) else db.attempts[k])
  }

  /** Policies that name the queue as source or target. */
  function DetachPolicies(db: Db, q: string): Db {
    db.(policies := map s | s in db.policies && s != q && db.policies[s].deadLetterQueue != q :: db.policies[s])
  }

  /** Rows anywhere whose recorded origin is the queue. */
  function CameFrom(db: Db, q: string): set<nat> {
    set s | s in db.origins && db.origins[s] == q
  }

  /** The explicit invalidation, then the origins go. */
  function DetachOrigins(db: Db, q: string): Db {
    db.(attempts := Invalidate(db.attempts, HandlesOf(db.messages, CameFrom(db, q))),
        origins := map s | s in db.origins && db.origins[s] != q :: db.origins[s])
  }

  /** DELETE FROM queues and its cascades. */
  function DropQueue(db: Db, q: string): Db {
    var emptied := DeleteRows(db, Rows(db, q));
    emptied.(queues := db.queues - {q},
             keys := (set k | k in db.keys && k.queue != q),
             attempts := map k | k in emptied.attempts && k.0 != q :: emptied.attempts[k])
  }

  function DeleteQueue(db: Db, q: string, nowMs: nat): Result {
    if q !in db.queues then Result(db, Failed(QueueNotFound))
    else
      var dropped := DropQueue(DetachOrigins(DetachPolicies(db, q), q), q);
      Result(dropped.(deleted := dropped.deleted[q := Ms(nowMs)]), Done)
  }

  // ----- send

  /** `contentId` stands for the SHA-256 of the body. */
  datatype SendRequest = SendRequest(
    body: string, contentId: string, group: Option<string>, dedup: Option<string>, delay: Option<nat>, attributes: string)

  datatype Prepared = Prepared(request: SendRequest, dedup: Option<string>, delay: nat) | Refused(error: Error)

  /** `prepare_send` after the size and attribute checks. */
  function PrepareSend(r: SendRequest, queue: Queue): Prepared {
    var fifo := queue.kind == Fifo;
    if r.delay.Some? && (fifo || r.delay.value > MAX_DELAY) then Refused(InvalidDeliveryOptions)
    else if fifo && r.group.None? then Refused(FifoRequiresGroupId)
    else if fifo && r.group.value == "" then Refused(EmptyGroupId)
    else if r.group.Some? && !ValidIdentifier(r.group.value) then Refused(InvalidMessageIdentifier)
    else if r.dedup.Some? && !ValidIdentifier(r.dedup.value) then Refused(InvalidMessageIdentifier)
    else if !fifo && r.dedup.Some? then Refused(InvalidDeliveryOptions)
    else if fifo && r.dedup.None? && !queue.settings.contentDedup then Refused(DeduplicationIdRequired)
    else Prepared(r, if fifo then Some(r.dedup.GetOr(r.contentId)) else None, r.delay.GetOr(queue.settings.delay))
  }

  function PruneKeys(db: Db, q: string, nowMs: nat): Db {
    if nowMs >= WINDOW
    then db.(keys := set k | k in db.keys && !(k.queue == q && k.seenAt <= Ms(nowMs - WINDOW)))
    else db
  }

  predicate InScope(scope: Scope, group: Option<string>, keyGroup: string) {
    scope == QueueScope || group == Some(keyGroup) || keyGroup == ""
  }

  function MatchingKeys(db: Db, q: string, dedup: string, scope: Scope, group: Option<string>): set<Key> {
    set k | k in db.keys && k.queue == q && k.dedup == dedup && InScope(scope, group, k.group)
  }

  /** ORDER BY seen_at_ms, message_id. */
  predicate KeyBefore(a: Key, b: Key) {
    a.seenAt < b.seenAt || (a.seenAt == b.seenAt && TextLess(a.id, b.id))
  }

  predicate IsOldest(id: string, K: set<Key>) {
    exists k :: k in K && k.id == id && forall o :: o in K ==> !KeyBefore(o, k)
  }

  lemma OldestExists(K: set<Key>)
    requires K != {}
    ensures exists k :: k in K && forall o :: o in K ==> !KeyBefore(o, k)
  {
    var y :| y in K;
    TextLessTotal(y.id, y.id);
    if K == {y} {
    } else {
      OldestExists(K - {y});
      var m :| m in K - {y} && forall o :: o in K - {y} ==> !KeyBefore(o, m);
      TextLessTotal(y.id, m.id);
      var best := if KeyBefore(y, m) then y else m;
      forall o | o in K ensures !KeyBefore(o, best) {
        if best == y && o != y {
          assert o in K - {y};
          TextLessTotal(o.id, m.id);
          TextLessTotal(o.id, y.id);
          if KeyBefore(o, y) && o.seenAt == y.seenAt == m.seenAt { TextLessTransitive(o.id, y.id, m.id); }
        }
      }
    }
  }

  lemma OldestUnique(K: set<Key>)
    ensures forall a, b :: IsOldest(a, K) && IsOldest(b, K) ==> a == b
  {
    forall a, b | IsOldest(a, K) && IsOldest(b, K) ensures a == b {
      TextLessTotal(a, b);
    }
  }

  function OldestId(K: set<Key>): (id: string)
    requires K != {}
    ensures IsOldest(id, K)
  {
    OldestExists(K);
    OldestUnique(K);
    var ids := set k | k in K :: k.id;
    assert exists id :: id in ids && IsOldest(id, K) by {
      var k :| k in K && forall o :: o in K ==> !KeyBefore(o, k);
      assert k.id in ids && IsOldest(k.id, K);
    }
    var id :| id in ids && IsOldest(id, K);
    id
  }

  function NewRow(q: string, p: Prepared, sequence: nat, now: nat): Row
    requires p.Prepared?
  {
    Row(MessageId(sequence), q, p.request.body, p.request.group, p.request.attributes,
        None, None, 0, 0, 0, now, SaturatingAdd(now, Ms(p.delay)), None, p.dedup)
  }

  function InsertMessage(db: Db, q: string, p: Prepared, now: nat): Db
    requires p.Prepared?
  {
    var inserted := InsertRow(db, NewRow(q, p, db.nextSequence, now));
    if p.dedup.None? then inserted
    else inserted.(keys := inserted.keys + {Key(q, p.dedup.value, p.request.group.GetOr(""), MessageId(db.nextSequence), now)})
  }

  function Send(db: Db, q: string, request: SendRequest, nowMs: nat): Result {
    if q !in db.queues then Result(db, Failed(QueueNotFound))
    else
      var p := PrepareSend(request, db.queues[q]);
      if p.Refused? then Result(db, Failed(p.error))
      else
        var expired := ExpireMessages(db, q, Ms(nowMs));
        var pruned := if p.dedup.Some? then PruneKeys(expired, q, nowMs) else expired;
        var matching := if p.dedup.Some?
          then MatchingKeys(pruned, q, p.dedup.value, db.queues[q].settings.scope, request.group) else {};
        if matching != {} then Result(pruned, Sent(OldestId(matching), true))
        else Result(InsertMessage(pruned, q, p, Ms(nowMs)), Sent(MessageId(db.nextSequence), false))
  }

  // ----- receive

  datatype ReceiveOptions = ReceiveOptions(attemptId: Option<string>, visibility: Option<nat>)

  function OptionsError(o: ReceiveOptions, kind: QueueType): Option<Error> {
    if o.visibility.Some? && o.visibility.value > MAX_VISIBILITY then Some(InvalidDeliveryOptions)
    else if o.attemptId.Some? && kind != Fifo then Some(InvalidDeliveryOptions)
    else if o.attemptId.Some? && !ValidIdentifier(o.attemptId.value) then Some(InvalidMessageIdentifier)
    else None
  }

  datatype Replay = Fresh(db: Db) | Replayed(db: Db, messages: seq<Received>) | ReplayFailed(error: Error)

  function PruneAttempts(db: Db, q: string, now: nat): Db {
    db.(attempts := map k | k in db.attempts && !(k.0 == q && db.attempts[k].createdAt as int <= now as int - WINDOW as int)
        :: db.attempts[k])
  }

  function ResponseHandles(response: seq<Received>): set<string> {
    set m | m in response :: m.handle
  }

  /** Members that have become visible again. */
  function Extra(db: Db, q: string, members: set<string>, now: nat): set<nat> {
    set s | s in db.messages && db.messages[s].queue == q
            && db.messages[s].invisibleUntil.Some? && db.messages[s].invisibleUntil.value <= now
            && db.messages[s].handle.Some? && db.messages[s].handle.value in members
  }

  function ReplayAttempt(db: Db, q: string, o: ReceiveOptions, maximum: nat, now: nat): Replay
    requires q in db.queues
  {
    var pruned := PruneAttempts(db, q, now);
    if o.attemptId.None? || (q, o.attemptId.value) !in pruned.attempts then Fresh(pruned)
    else
      var a := pruned.attempts[(q, o.attemptId.value)];
      if !a.valid || a.maximum != maximum || a.requested != o.visibility then ReplayFailed(InvalidDeliveryOptions)
      else
        var extra := |Extra(pruned, q, a.members, now)|;
        if a.visibility > 0 && extra > 0 && CountInFlight(pruned, q, now) + extra > db.queues[q].settings.maxInFlight
        then ReplayFailed(OverLimit)
        else Replayed(ExtendHidden(pruned, q, ResponseHandles(a.response), SaturatingAdd(now, Ms(a.visibility))), a.response)
  }

  function SaveAttempt(db: Db, q: string, o: ReceiveOptions, maximum: nat, visibility: nat, now: nat, received: seq<Received>): Db {
    if o.attemptId.None? then db
    else db.(attempts := db.attempts[(q, o.attemptId.value) :=
               Attempt(now, maximum, o.visibility, Ms(visibility), received, ResponseHandles(received), true)])
  }

  datatype Collected = Collected(db: Db, received: seq<Received>)

  /** Handle the rows of a plan in order until `limit` of them were delivered. */
  function Collect(db: Db, q: string, policy: Option<Policy>, visibility: nat, now: nat, plan: seq<nat>, limit: nat): Collected
    requires Distinct(plan) && forall i :: 0 <= i < |plan| ==> plan[i] in db.messages
    decreases |plan|
  {
    if limit == 0 || plan == [] then Collected(db, [])
    else if Over(db.messages[plan[0]], policy)
    then Collect(DeadLetter(db, plan[0], q, policy.value, now), q, policy, visibility, now, plan[1..], limit)
    else
      var delivered := Deliver(db, plan[0], visibility, now);
      var rest := Collect(delivered, q, policy, visibility, now, plan[1..], limit - 1);
      Collected(rest.db, [ViewRow(delivered, plan[0])] + rest.received)
  }

  function PolicyOf(db: Db, q: string): Option<Policy> {
    if q in db.policies then Some(db.policies[q]) else None
  }

  /** The deadline a delivery sets is in the future (not with timeout 0, not at the end of time). */
  predicate Hides(visibility: nat, now: nat) {
    SaturatingAdd(now, Ms(visibility)) > now
  }

  /** A standard receive that hides nothing meets its own first delivery again and stops. */
  function Cap(kind: QueueType, visibility: nat, now: nat, limit: nat): nat {
    if kind == Standard && !Hides(visibility, now) && limit > 1 then 1 else limit
  }

  function ReceiveOrder(db: Db, q: string, now: nat): (plan: seq<nat>)
    ensures Distinct(plan) && forall i :: 0 <= i < |plan| ==> plan[i] in db.messages
  {
    var S := Rows(db, q);
    var plan := Plan(db.messages, S, Kind(db, q), now, PolicyOf(db, q));
    FifoPlanMembers(db.messages, S, now, PolicyOf(db, q));
    assert forall i :: 0 <= i < |plan| ==> plan[i] in plan;
    plan
  }

  function CollectReceived(db: Db, q: string, limit: nat, visibility: nat, now: nat): Collected {
    Collect(db, q, PolicyOf(db, q), visibility, now, ReceiveOrder(db, q, now), Cap(Kind(db, q), visibility, now, limit))
  }

  function ReceivePage(db: Db, q: string, maximum: nat, o: ReceiveOptions, nowMs: nat, cacheEmpty: bool): Result {
    if !(1 <= maximum <= 10) then Result(db, Failed(InvalidReceiveOptions))
    else if q !in db.queues then Result(db, Failed(QueueNotFound))
    else
      var queue := db.queues[q];
      if OptionsError(o, queue.kind).Some? then Result(db, Failed(OptionsError(o, queue.kind).value))
      else
        var now := Ms(nowMs);
        var visibility := o.visibility.GetOr(queue.settings.visibility);
        match ReplayAttempt(ExpireMessages(db, q, now), q, o, maximum, now)
        case ReplayFailed(error) => Result(db, Failed(error))
        case Replayed(replayed, messages) => Result(replayed, Page(messages, true))
        case Fresh(ready) => ReceiveFresh(ready, q, maximum, o, visibility, now, cacheEmpty)
  }

  /** The request's maximum, cut down to the room the in-flight quota leaves. */
  function Limit(db: Db, q: string, maximum: nat, now: nat): nat
    requires q in db.queues
  {
    var quota, inFlight := db.queues[q].settings.maxInFlight, CountInFlight(db, q, now);
    var room := if inFlight < quota then quota - inFlight else 0;
    if maximum < room then maximum else room
  }

  function ReceiveFresh(db: Db, q: string, maximum: nat, o: ReceiveOptions, visibility: nat, now: nat, cacheEmpty: bool): Result
    requires q in db.queues
  {
    var queue := db.queues[q];
    var inFlight := CountInFlight(db, q, now);
    if inFlight >= queue.settings.maxInFlight && queue.kind == Standard then Result(db, Failed(OverLimit))
    else
      var c := CollectReceived(db, q, Limit(db, q, maximum, now), visibility, now);
      var complete := c.received != [] || cacheEmpty;
      var saved := if complete then SaveAttempt(c.db, q, o, maximum, visibility, now, c.received) else c.db;
      Result(saved, Page(c.received, complete))
  }

  // ----- delete, visibility, manual redrive

  function Holding(db: Db, q: string, handle: string): set<nat> {
    set s | s in db.messages && db.messages[s].queue == q && db.messages[s].handle == Some(handle)
  }

  function DeleteMessage(db: Db, q: string, handle: string): Result {
    if q !in db.queues then Result(db, Failed(QueueNotFound))
    else Result(DeleteRows(db, Holding(db, q, handle)),
                if |Holding(db, q, handle)| == 1 then Done else Failed(InvalidReceiptHandle))
  }

  /** In-flight, unexpired rows with the handle. */
  function InFlightHolding(db: Db, q: string, handle: string, now: nat): set<nat> {
    set s | s in Holding(db, q, handle) && HiddenAt(db.messages[s], now) && !Expired(db, db.messages[s], now)
  }

  function ChangeVisibility(db: Db, q: string, handle: string, timeoutMs: nat, nowMs: nat): Result {
    if timeoutMs > MAX_VISIBILITY then Result(db, Failed(InvalidDeliveryOptions))
    else if q !in db.queues then Result(db, Failed(QueueNotFound))
    else
      var now := Ms(nowMs);
      var S := InFlightHolding(db, q, handle, now);
      Result(ReviseHidden(db, S, SaturatingAdd(now, Ms(timeoutMs))),
             if |S| == 1 then Done
             else if Holding(db, q, handle) != {} then Failed(MessageNotInflight)
             else Failed(InvalidReceiptHandle))
  }

  predicate Returnable(db: Db, s: nat, source: string, now: nat) {
    s in db.messages && Origin(db, s) == Some(source) && Receivable(db.messages[s], now)
  }

  predicate GroupMayLead(db: Db, dlq: string, s: nat, source: string, now: nat)
    requires s in db.messages
  {
    forall e | e in db.messages && e < s && db.messages[e].queue == dlq && db.messages[e].group == db.messages[s].group ::
      Returnable(db, e, source, now)
  }

  /** Rows that may go back: on a FIFO queue only behind rows that may go back too. */
  function Movable(db: Db, dlq: string, source: string, now: nat): set<nat> {
    set s | s in db.messages && db.messages[s].queue == dlq && Returnable(db, s, source, now)
            && (Kind(db, source) == Standard || GroupMayLead(db, dlq, s, source, now))
  }

  /** Move rows back one after the other. */
  function MoveBack(db: Db, source: string, now: nat, order: seq<nat>): Db
    decreases |order|
  {
    if order == [] || order[0] !in db.messages then db
    else MoveBack(MoveMessage(db, order[0], source, now, true, true), source, now, order[1..])
  }

  function RedriveOrder(db: Db, dlq: string, source: string, now: nat, maximum: nat): seq<nat> {
    First(Ascending(Movable(db, dlq, source, now)), maximum)
  }

  function RedriveDeadLetters(db: Db, dlq: string, source: string, maximum: nat, nowMs: nat): Result {
    if source !in db.queues || dlq !in db.queues then Result(db, Failed(QueueNotFound))
    else if Kind(db, dlq) != Kind(db, source) || dlq == source then Result(db, Failed(InvalidRedrivePolicy))
    else
      var now := Ms(nowMs);
      var expired := ExpireMessages(ExpireMessages(db, dlq, now), source, now);
      var order := RedriveOrder(expired, dlq, source, now, maximum);
      Result(MoveBack(expired, source, now, order), Moved(|order|))
  }
}
