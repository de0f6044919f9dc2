/**
 * The final schema as a value, and the SQL statements the repository issues as
 * functions from one database value to the next.  The two invalidation triggers
 * run inside the statements that fire them.
 */
module Tables {
  import opened Identifiers

  const I64_MAX: nat := 0x7fff_ffff_ffff_ffff

  /** `ms`: a caller's u64 clamped into a signed column. */
  function Ms(value: nat): nat {
    if value < I64_MAX then value else I64_MAX
  }

  /** `i64::saturating_add` on nonnegative operands. */
  function SaturatingAdd(a: nat, b: nat): nat {
    if a + b < I64_MAX then a + b else I64_MAX
  }

  datatype QueueType = Standard | Fifo
  datatype Scope = QueueScope | GroupScope

  datatype Settings = Settings(
    visibility: nat, retention: nat, delay: nat, maxInFlight: nat, contentDedup: bool, scope: Scope)

  datatype Queue = Queue(kind: QueueType, settings: Settings, lastPurge: Option<nat>)

  datatype Policy = Policy(deadLetterQueue: string, maxReceiveCount: nat)

  datatype Row = Row(
    id: string, queue: string, body: string, group: Option<string>, attributes: string,
    handle: Option<string>, invisibleUntil: Option<nat>, count: nat, total: nat, revision: nat,
    createdAt: nat, availableAt: nat, firstReceived: Option<nat>, dedup: Option<string>)

  datatype Key = Key(queue: string, dedup: string, group: string, id: string, seenAt: nat)

  /** What a receiver is given for one message; the JSON of an attempt stores exactly these. */
  datatype Received = Received(
    id: string, handle: string, body: string, group: Option<string>, count: nat, attributes: string,
    sent: nat, firstReceived: nat, total: nat, sequenceNumber: Option<nat>, dedup: Option<string>,
    deadLetterSource: Option<string>)

  /** A row of receive_attempts with its receive_attempt_members. */
  datatype Attempt = Attempt(
    createdAt: nat, maximum: nat, requested: Option<nat>, visibility: nat,
    response: seq<Received>, members: set<string>, valid: bool)

  type AttemptKey = (string, string)

  datatype Db = Db(
    queues: map<string, Queue>,
    messages: map<nat, Row>,
    nextSequence: nat,
    policies: map<string, Policy>,
    origins: map<nat, string>,
    keys: set<Key>,
    attempts: map<AttemptKey, Attempt>,
    deleted: map<string, nat>)

  const EMPTY := Db(map[], map[], 1, map[], map[], {}, map[], map[])

  function Rows(db: Db, q: string): set<nat> {
    set s | s in db.messages && db.messages[s].queue == q
  }

  function Kind(db: Db, q: string): QueueType {
    if q in db.queues then db.queues[q].kind else Standard
  }

  function Origin(db: Db, s: nat): Option<string> {
    if s in db.origins then Some(db.origins[s]) else None
  }

  predicate Receivable(row: Row, now: nat) {
    row.availableAt <= now && (row.invisibleUntil.None? || row.invisibleUntil.value <= now)
  }

  predicate HiddenAt(row: Row, now: nat) {
    row.invisibleUntil.Some? && row.invisibleUntil.value > now
  }

  /** The rows of a queue that are hidden from receivers. */
  function Hidden(db: Db, q: string, now: nat): set<nat> {
    set s | s in db.messages && db.messages[s].queue == q && HiddenAt(db.messages[s], now)
  }

  predicate Expired(db: Db, row: Row, now: nat) {
    row.queue in db.queues && row.createdAt as int <= now as int - db.queues[row.queue].settings.retention as int
  }

  /** `count_in_flight`. */
  function CountInFlight(db: Db, q: string, now: nat): nat {
    |set s | s in Hidden(db, q, now) && !Expired(db, db.messages[s], now)|
  }

  /** Reading a delivered row back: its columns and `read_message_metadata`. */
  function View(row: Row, s: nat, origin: Option<string>, kind: QueueType): Received {
    Received(
      row.id, row.handle.GetOr(""), row.body, row.group, row.count % 0x1_0000_0000, row.attributes,
      row.createdAt, row.firstReceived.GetOr(0), row.total,
      if kind == Fifo then Some(IdNumber(row.id).GetOr(s)) else None,
      if kind == Fifo then row.dedup else None,
      origin)
  }

  function ViewRow(db: Db, s: nat): Received
    requires s in db.messages
  {
    View(db.messages[s], s, Origin(db, s), Kind(db, db.messages[s].queue))
  }

  /** What `read_message_metadata` reads back for a row. */
  datatype Metadata = Metadata(
    attributes: string, sent: nat, firstReceived: nat, total: nat, sequenceNumber: Option<nat>, dedup: Option<string>,
    deadLetterSource: Option<string>)

  function ReadMetadata(db: Db, s: nat, kind: QueueType): Metadata
    requires s in db.messages
  {
    var row := db.messages[s];
    Metadata(row.attributes, row.createdAt, row.firstReceived.GetOr(0), row.total,
             if kind == Fifo then Some(IdNumber(row.id).GetOr(s)) else None,
             if kind == Fifo then row.dedup else None,
             Origin(db, s))
  }

  // ----- statements

  function HandlesOf(messages: map<nat, Row>, S: set<nat>): set<string> {
    set s | s in S && s in messages && messages[s].handle.Some? :: messages[s].handle.value
  }

  /** Body of both triggers: every attempt with a member among the old handles becomes invalid. */
  function Invalidate(attempts: map<AttemptKey, Attempt>, handles: set<string>): map<AttemptKey, Attempt> {
    map k | k in attempts ::
      if attempts[k].members * handles != {} then attempts[k].(valid := false) else attempts[k]
  }

  /** DELETE FROM messages, with the cascade to origins and the delete trigger. */
  function DeleteRows(db: Db, S: set<nat>): Db {
    db.(messages := db.messages - S, origins := db.origins - S,
        attempts := Invalidate(db.attempts, HandlesOf(db.messages, S)))
  }

  function InsertRow(db: Db, row: Row): Db {
    db.(messages := db.messages[db.nextSequence := row], nextSequence := db.nextSequence + 1)
  }

  function ExpiredRows(db: Db, q: string, now: nat): set<nat> {
    set s | s in db.messages && db.messages[s].queue == q && Expired(db, db.messages[s], now)
  }

  function ExpireMessages(db: Db, q: string, now: nat): Db {
    DeleteRows(db, ExpiredRows(db, q, now))
  }

  /** The row as `deliver_candidate` leaves it. */
  function DeliveredRow(row: Row, s: nat, visibility: nat, now: nat): Row {
    row.(handle := Some(ReceiptHandle(s, row.count + 1, now)),
         invisibleUntil := Some(SaturatingAdd(now, Ms(visibility))),
         count := row.count + 1, total := row.total + 1,
         firstReceived := Some(row.firstReceived.GetOr(now)))
  }

  /** UPDATE OF receipt_handle on one row, with the update trigger. */
  function Deliver(db: Db, s: nat, visibility: nat, now: nat): Db
    requires s in db.messages
  {
    db.(messages := db.messages[s := DeliveredRow(db.messages[s], s, visibility, now)],
        attempts := Invalidate(db.attempts, HandlesOf(db.messages, {s})))
  }

  /** The statement itself, with the handle and the count its caller worked out. */
  function SetDelivery(db: Db, s: nat, handle: string, until: nat, count: nat, now: nat): Db
    requires s in db.messages
  {
    var row := db.messages[s];
    db.(messages := db.messages[s := row.(handle := Some(handle), invisibleUntil := Some(until), count := count,
                                          total := row.total + 1, firstReceived := Some(row.firstReceived.GetOr(now)))],
        attempts := Invalidate(db.attempts, HandlesOf(db.messages, {s})))
  }

  /** UPDATE of message_id on a row just inserted. */
  function SetMessageId(db: Db, s: nat, id: string): Db
    requires s in db.messages
  {
    db.(messages := db.messages[s := db.messages[s].(id := id)])
  }

  /** UPDATE of invisible_until_ms alone: no trigger watches that column. */
  function ExtendHidden(db: Db, q: string, handles: set<string>, until: nat): Db {
    db.(messages := map s | s in db.messages ::
        if db.messages[s].queue == q && db.messages[s].handle.Some? && db.messages[s].handle.value in handles
        then db.messages[s].(invisibleUntil := Some(until)) else db.messages[s])
  }

  /** UPDATE of visibility_revision and the deadline, with the update trigger. */
  function ReviseHidden(db: Db, S: set<nat>, until: nat): Db {
    db.(messages := map s | s in db.messages ::
        if s in S
        then db.messages[s].(invisibleUntil := Some(until), revision := db.messages[s].revision + 1)
        else db.messages[s],
        attempts := Invalidate(db.attempts, HandlesOf(db.messages, S)))
  }

  /** New delay for the rows of q that were never received. */
  function DelayUnreceived(db: Db, q: string, delay: nat): Db {
    db.(messages := map s | s in db.messages ::
        if db.messages[s].queue == q && db.messages[s].count == 0
        then var created := db.messages[s].createdAt;
             db.messages[s].(availableAt := (if created <= I64_MAX - Ms(delay) then created else I64_MAX - Ms(delay)) + Ms(delay))
        else db.messages[s])
  }

  /** The row `move_message` inserts in the destination. */
  function MovedRow(row: Row, sequence: nat, destination: string, now: nat, delay: nat,
                    resetTimestamp: bool, newIdentity: bool): Row {
    Row(if newIdentity then MessageId(sequence) else row.id, destination, row.body, row.group, row.attributes,
        None, None, 0, if newIdentity then 0 else row.total, 0,
        if resetTimestamp then now else row.createdAt,
        SaturatingAdd(now, Ms(if newIdentity then delay else 0)),
        if newIdentity then None else row.firstReceived, row.dedup)
  }

  function DelayOf(db: Db, q: string): nat {
    if q in db.queues then db.queues[q].settings.delay else 0
  }

  function MoveMessage(db: Db, s: nat, destination: string, now: nat, resetTimestamp: bool, newIdentity: bool): Db
    requires s in db.messages
  {
    InsertRow(DeleteRows(db, {s}),
              MovedRow(db.messages[s], db.nextSequence, destination, now,
                       DelayOf(db, destination), resetTimestamp, newIdentity))
  }

  /** `redrive_candidate`: move to the dead-letter queue and record where it came from. */
  function DeadLetter(db: Db, s: nat, q: string, policy: Policy, now: nat): Db
    requires s in db.messages
  {
    var moved := MoveMessage(db, s, policy.deadLetterQueue, now, Kind(db, q) == Fifo, false);
    moved.(origins := moved.origins[db.nextSequence := q])
  }
}
