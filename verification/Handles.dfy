/** What a receipt handle still does: it stands for at most one row, and the answers say exactly which case holds. */
module Handles {
  import opened Identifiers
  import opened Tables
  import opened Terms
  import opened Operations
  import opened Invariants
  import opened Preservation

  predicate HeldBy(db: Db, q: string, handle: string, s: nat) {
    s in db.messages && db.messages[s].queue == q && db.messages[s].handle == Some(handle)
  }

  /** Two rows never hold the same handle. */
  lemma OneHolder(db: Db, handle: string, s: nat, t: nat)
    requires Inv(db) && s in db.messages && t in db.messages
    requires db.messages[s].handle == Some(handle) && db.messages[t].handle == Some(handle)
    ensures s == t
  {
    assert RowOk(db, s) && RowOk(db, t);
    HandleDetermines(handle, s, db.messages[s].count, t, db.messages[t].count);
  }

  lemma HolderIsAlone(db: Db, q: string, handle: string, s: nat)
    requires Inv(db) && HeldBy(db, q, handle, s)
    ensures Holding(db, q, handle) == {s}
  {
    forall t | t in Holding(db, q, handle) ensures t == s { OneHolder(db, handle, s, t); }
  }

  /** A handle that a row of the queue holds deletes exactly that row. */
  lemma DeleteTakesTheHolder(db: Db, q: string, handle: string, s: nat)
    requires Inv(db) && q in db.queues && HeldBy(db, q, handle, s)
    ensures var r := DeleteMessage(db, q, handle);
            && r.reply == Done && r.db.messages.Keys == db.messages.Keys - {s}
            && (forall t :: t in db.messages && t != s ==> Untouched(db, r.db, t))
            && r.db.keys == db.keys && r.db.queues == db.queues
  {
    HolderIsAlone(db, q, handle, s);
  }

  lemma NothingDeleted(db: Db)
    ensures DeleteRows(db, {}) == db
  {
  }

  /** Delete succeeds exactly when some row of the queue holds the handle, and otherwise changes nothing. */
  lemma DeleteAnswersExactly(db: Db, q: string, handle: string)
    requires Inv(db)
    ensures var r := DeleteMessage(db, q, handle);
            && (r.reply == Done <==> q in db.queues && exists s :: HeldBy(db, q, handle, s))
            && (r.reply != Done ==> r == Result(db, Failed(if q in db.queues then InvalidReceiptHandle else QueueNotFound)))
  {
    if q !in db.queues {
    } else if s :| HeldBy(db, q, handle, s) {
      DeleteTakesTheHolder(db, q, handle, s);
    } else {
      assert forall s :: s in Holding(db, q, handle) ==> HeldBy(db, q, handle, s);
      assert Holding(db, q, handle) == {};
      NothingDeleted(db);
    }
  }

  /** Hidden and within retention. */
  predicate InFlight(db: Db, s: nat, nowMs: nat)
    requires s in db.messages
  {
    var hiddenUntil := db.messages[s].invisibleUntil;
    hiddenUntil.Some? && Capped(nowMs) < hiddenUntil.value && !TooOld(db, s, nowMs)
  }

  lemma NothingRevised(db: Db, until: nat)
    ensures ReviseHidden(db, {}, until) == db
  {
  }

  /** A held handle moves the deadline of its row if that is in flight, and says so if it is not. */
  lemma HolderAnswersExactly(db: Db, q: string, handle: string, s: nat, timeoutMs: nat, nowMs: nat)
    requires Inv(db) && q in db.queues && timeoutMs <= 43_200_000 && HeldBy(db, q, handle, s)
    ensures var r := ChangeVisibility(db, q, handle, timeoutMs, nowMs);
            if InFlight(db, s, nowMs)
            then && r.reply == Done && r.db.messages.Keys == db.messages.Keys
                 && r.db.messages[s] == db.messages[s].(invisibleUntil := Some(After(nowMs, timeoutMs)),
                                                        revision := db.messages[s].revision + 1)
                 && forall t :: t in db.messages && t != s ==> Untouched(db, r.db, t)
            else r == Result(db, Failed(MessageNotInflight))
  {
    HolderIsAlone(db, q, handle, s);
    TimesAreCapped(nowMs, timeoutMs);
    var now := Ms(nowMs);
    if InFlight(db, s, nowMs) {
      assert InFlightHolding(db, q, handle, now) == {s};
    } else {
      assert InFlightHolding(db, q, handle, now) == {};
      NothingRevised(db, SaturatingAdd(now, Ms(timeoutMs)));
    }
  }

  /** The three answers of a visibility change, each in exactly one case. */
  lemma ChangeVisibilityAnswersExactly(db: Db, q: string, handle: string, timeoutMs: nat, nowMs: nat)
    requires Inv(db) && q in db.queues && timeoutMs <= 43_200_000
    ensures var reply := ChangeVisibility(db, q, handle, timeoutMs, nowMs).reply;
            && (reply == Done <==> exists s :: HeldBy(db, q, handle, s) && InFlight(db, s, nowMs))
            && (reply == Failed(MessageNotInflight) <==> exists s :: HeldBy(db, q, handle, s) && !InFlight(db, s, nowMs))
            && (reply == Failed(InvalidReceiptHandle) <==> forall s :: !HeldBy(db, q, handle, s))
  {
    if s :| HeldBy(db, q, handle, s) {
      HolderAnswersExactly(db, q, handle, s, timeoutMs, nowMs);
      forall t | HeldBy(db, q, handle, t) ensures t == s { OneHolder(db, handle, s, t); }
    } else {
      assert forall s :: s in Holding(db, q, handle) ==> HeldBy(db, q, handle, s);
      assert Holding(db, q, handle) == {} && InFlightHolding(db, q, handle, Ms(nowMs)) == {};
    }
  }

  /** A longer timeout, and an unknown queue, are refused without a change. */
  lemma ChangeVisibilityRefused(db: Db, q: string, handle: string, timeoutMs: nat, nowMs: nat)
    requires timeoutMs > 43_200_000 || q !in db.queues
    ensures ChangeVisibility(db, q, handle, timeoutMs, nowMs)
         == Result(db, Failed(if timeoutMs > 43_200_000 then InvalidDeliveryOptions else QueueNotFound))
  {
  }
}
