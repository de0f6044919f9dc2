/** The SELECT behind the receive loop and the one behind the manual redrive loop. */
module Queries {
  import opened Identifiers
  import opened Ordering
  import opened Tables
  import opened ReceivePlan
  import opened Operations
  import opened Preservation

  /** An earlier row of the same group that this call did not claim; a NULL group equals nothing. */
  predicate Blocked(db: Db, q: string, s: nat, selected: seq<nat>)
    requires s in db.messages
  {
    exists e | e in db.messages && e < s ::
      db.messages[e].queue == q && db.messages[e].group.Some? && db.messages[e].group == db.messages[s].group && e !in selected
  }

  function Receivables(db: Db, q: string, now: nat): set<nat> {
    set s | s in db.messages && db.messages[s].queue == q && Receivable(db.messages[s], now)
  }

  function FifoReceivables(db: Db, q: string, now: nat, selected: seq<nat>): set<nat> {
    set s | s in Receivables(db, q, now) && s !in selected && !Blocked(db, q, s, selected)
  }

  function OfGroup(db: Db, S: set<nat>, preferred: Option<string>): set<nat> {
    set s | s in S && s in db.messages && preferred.Some? && db.messages[s].group == preferred
  }

  /** `next_receivable`. */
  function NextReceivable(db: Db, q: string, kind: QueueType, now: nat, selected: seq<nat>, preferred: Option<string>): (r: Option<nat>)
    ensures r.Some? ==> r.value in Receivables(db, q, now)
  {
    var S := if kind == Fifo then FifoReceivables(db, q, now, selected) else Receivables(db, q, now);
    var first := if kind == Fifo then OfGroup(db, S, preferred) else {};
    if first != {} then Some(Min(first)) else if S != {} then Some(Min(S)) else None
  }

  /** The rows a FIFO receive has not handled yet. */
  function Unclaimed(db: Db, q: string, selected: seq<nat>): set<nat> {
    set s | s in Rows(db, q) && s !in selected
  }

  ghost predicate Agree(rows: map<nat, Row>, db: Db, S: set<nat>) {
    forall s :: s in S ==> s in rows && s in db.messages && db.messages[s] == rows[s] && rows[s].group.Some?
  }

  /** Claimed and moved rows do not matter to the query: it ranks the unclaimed ones. */
  lemma FifoQueryIsCandidate(rows: map<nat, Row>, db: Db, q: string, now: nat, selected: seq<nat>, preferred: Option<string>)
    requires Agree(rows, db, Unclaimed(db, q, selected)) && Unclaimed(db, q, selected) <= rows.Keys
    ensures NextReceivable(db, q, Fifo, now, selected, preferred) == Candidate(rows, Unclaimed(db, q, selected), now, preferred)
  {
    var S := Unclaimed(db, q, selected);
    forall s
      ensures s in FifoReceivables(db, q, now, selected) <==> s in Heads(rows, S, now)
    {
      if s in S {
        if Blocked(db, q, s, selected) {
          var e :| e in db.messages && e < s && db.messages[e].queue == q && db.messages[e].group.Some?
                   && db.messages[e].group == db.messages[s].group && e !in selected;
          assert e in S;
        } else {
          forall e | e in S && e < s ensures rows[e].group != rows[s].group { assert e in db.messages && e !in selected; }
        }
      }
    }
    assert FifoReceivables(db, q, now, selected) == Heads(rows, S, now);
    assert OfGroup(db, Heads(rows, S, now), preferred) == PreferredHeads(rows, S, now, preferred);
  }

  // ----- manual redrive

  /** The first row that may go back and is at the head of its group (FIFO). */
  function NextReturnable(db: Db, dlq: string, source: string, now: nat): (r: Option<nat>)
    ensures r.Some? ==> r.value in db.messages
  {
    var S := set s | s in db.messages && db.messages[s].queue == dlq && Returnable(db, s, source, now)
                     && (Kind(db, source) == Standard || !Blocked(db, dlq, s, []));
    if S != {} then Some(Min(S)) else None
  }

  lemma OlderMayLeadToo(db: Db, dlq: string, source: string, now: nat, m: nat, e: nat)
    requires m in Movable(db, dlq, source, now) && Kind(db, source) == Fifo
    requires e in db.messages && e < m && db.messages[e].queue == dlq && db.messages[e].group == db.messages[m].group
    ensures e in Movable(db, dlq, source, now)
  {
  }

  /** The query's row is the first that the declarative set allows, and there is none only when the set is empty. */
  lemma ReturnableIsFirstMovable(db: Db, dlq: string, source: string, now: nat)
    requires Kind(db, source) == Fifo ==> forall s :: s in db.messages && db.messages[s].queue == dlq ==> db.messages[s].group.Some?
    ensures var T := Movable(db, dlq, source, now);
            NextReturnable(db, dlq, source, now) == if T == {} then None else Some(Min(T))
  {
    var T := Movable(db, dlq, source, now);
    var S := set s | s in db.messages && db.messages[s].queue == dlq && Returnable(db, s, source, now)
                     && (Kind(db, source) == Standard || !Blocked(db, dlq, s, []));
    assert S <= T;
    if T != {} {
      var m := Min(T);
      if Kind(db, source) == Fifo && Blocked(db, dlq, m, []) {
        var e :| e in db.messages && e < m && db.messages[e].queue == dlq && db.messages[e].group.Some?
                 && db.messages[e].group == db.messages[m].group && e !in [];
        OlderMayLeadToo(db, dlq, source, now, m, e);
        assert false;
      }
      assert m in S;
    }
  }

  /** Moving one row back takes exactly that row out of the set. */
  lemma MovableAfter(db: Db, dlq: string, source: string, now: nat, s: nat)
    requires dlq != source && s in Movable(db, dlq, source, now) && s == Min(Movable(db, dlq, source, now))
    requires forall t :: t in db.messages ==> t < db.nextSequence
    ensures Movable(MoveMessage(db, s, source, now, true, true), dlq, source, now) == Movable(db, dlq, source, now) - {s}
  {
    var d := MoveMessage(db, s, source, now, true, true);
    forall t | t in db.messages && t != s ensures Untouched(db, d, t) && (Returnable(d, t, source, now) == Returnable(db, t, source, now)) {}
    forall t
      ensures t in Movable(d, dlq, source, now) <==> t in Movable(db, dlq, source, now) - {s}
    {
      if t in db.messages && t != s && db.messages[t].queue == dlq && Kind(db, source) == Fifo {
        if GroupMayLead(d, dlq, t, source, now) {
          forall e | e in db.messages && e < t && db.messages[e].queue == dlq && db.messages[e].group == db.messages[t].group
            ensures Returnable(db, e, source, now)
          {
            if e != s { assert e in d.messages; }
          }
        }
        if GroupMayLead(db, dlq, t, source, now) { assert GroupMayLead(d, dlq, t, source, now); }
      }
    }
  }
}
