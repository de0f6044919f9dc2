/** The words in which single calls are described: times, ages and what a row shows, said without the statements' helpers. */
module Terms {
  import opened Tables

  /** A time as a signed column holds it. */
  function Capped(x: nat): nat {
    if x <= 0x7fff_ffff_ffff_ffff then x else 0x7fff_ffff_ffff_ffff
  }

  /** A time later by a duration. */
  function After(timeMs: nat, duration: nat): nat {
    Capped(Capped(timeMs) + Capped(duration))
  }

  lemma TimesAreCapped(timeMs: nat, duration: nat)
    ensures Ms(timeMs) == Capped(timeMs) && SaturatingAdd(Ms(timeMs), Ms(duration)) == After(timeMs, duration)
  {
  }

  /** 1 to 128 printable ASCII characters without a space. */
  predicate Printable(text: string) {
    1 <= |text| <= 128 && forall i :: 0 <= i < |text| ==> 33 <= text[i] as int <= 126
  }

  /** A row that outlived its queue's retention. */
  predicate TooOld(db: Db, s: nat, nowMs: nat)
    requires s in db.messages
  {
    var row := db.messages[s];
    row.queue in db.queues && row.createdAt + db.queues[row.queue].settings.retention <= Capped(nowMs)
  }

  /** A row of the queue that is still to be kept. */
  predicate Present(db: Db, q: string, s: nat, nowMs: nat) {
    s in db.messages && db.messages[s].queue == q && !TooOld(db, s, nowMs)
  }

  predicate Visible(row: Row, nowMs: nat) {
    row.availableAt <= Capped(nowMs) && (row.invisibleUntil.Some? ==> row.invisibleUntil.value <= Capped(nowMs))
  }

  /** The messages that count against the in-flight quota. */
  function InFlightRows(db: Db, q: string, nowMs: nat): set<nat> {
    set s | s in db.messages && Present(db, q, s, nowMs)
            && db.messages[s].invisibleUntil.Some? && Capped(nowMs) < db.messages[s].invisibleUntil.value
  }

  /** Only rows of q that are too old are gone; the others are as they were, but for one. */
  ghost predicate OnlyTheOldGone(db: Db, d: Db, q: string, nowMs: nat, except: nat) {
    && (forall s :: s in db.messages ==> (s in d.messages <==> !(db.messages[s].queue == q && TooOld(db, s, nowMs))))
    && (forall s :: s in d.messages && s != except ==> s in db.messages && d.messages[s] == db.messages[s])
  }
}
