/**
 * Which rows a receive call handles and in what order, said without the query,
 * the list of claimed rows or the preferred group.
 */
module ReceivePlan {
  import opened Identifiers
  import opened Ordering
  import opened Tables

  /** At or over the redrive threshold. */
  predicate Over(row: Row, policy: Option<Policy>) {
    policy.Some? && row.count >= policy.value.maxReceiveCount
  }

  function Group(rows: map<nat, Row>, S: set<nat>, g: Option<string>): set<nat>
    requires S <= rows.Keys
  {
    set s | s in S && rows[s].group == g
  }

  /** The longest run of receivable rows at the front of S, oldest first. */
  function ReceivablePrefix(rows: map<nat, Row>, S: set<nat>, now: nat): (r: seq<nat>)
    requires S <= rows.Keys
    ensures forall s :: s in r ==> s in S && Receivable(rows[s], now)
    ensures forall i, j :: 0 <= i < j < |r| ==> r[i] < r[j]
    ensures forall i, e :: 0 <= i < |r| && e in S && e < r[i] ==> e in r[..i]
  {
    if S == {} || !Receivable(rows[Min(S)], now) then []
    else
      var m := Min(S);
      var rest := ReceivablePrefix(rows, S - {m}, now);
      assert forall x :: x in rest ==> x in S - {m} && m < x;
      PrefixBelow(m, rest, S);
      [m] + rest
  }

  lemma PrefixBelow(m: nat, rest: seq<nat>, S: set<nat>)
    requires m in S && forall x :: x in rest ==> m < x
    requires forall i, j :: 0 <= i < j < |rest| ==> rest[i] < rest[j]
    requires forall i, e :: 0 <= i < |rest| && e in S - {m} && e < rest[i] ==> e in rest[..i]
    requires forall x :: x in S ==> m <= x
    ensures var r := [m] + rest;
            && (forall i, j :: 0 <= i < j < |r| ==> r[i] < r[j])
            && (forall i, e :: 0 <= i < |r| && e in S && e < r[i] ==> e in r[..i])
  {
    var r := [m] + rest;
    forall i, j | 0 <= i < j < |r|
      ensures r[i] < r[j]
    {
      assert r[j] == rest[j - 1] && rest[j - 1] in rest;
    }
    forall i, e | 0 <= i < |r| && e in S && e < r[i]
      ensures e in r[..i]
    {
      if i > 0 {
        assert r[..i] == [m] + rest[..i - 1];
        assert e == m || e in S - {m};
      }
    }
  }

  /**
   * FIFO: look at the oldest row.  If it cannot be received its whole group waits.
   * If it is over the threshold it leaves alone.  Otherwise its group is served
   * for as long as the group's rows are receivable.
   */
  function FifoPlan(rows: map<nat, Row>, S: set<nat>, now: nat, policy: Option<Policy>): seq<nat>
    requires S <= rows.Keys
    decreases S
  {
    if S == {} then [] else
      var m := Min(S);
      var g := Group(rows, S, rows[m].group);
      assert m in g && S - g < S;
      if !Receivable(rows[m], now) then FifoPlan(rows, S - g, now, policy)
      else if Over(rows[m], policy) then [m] + FifoPlan(rows, S - {m}, now, policy)
      else ReceivablePrefix(rows, g, now) + FifoPlan(rows, S - g, now, policy)
  }

  /** Standard: the receivable rows in sequence order. */
  function StandardPlan(rows: map<nat, Row>, S: set<nat>, now: nat): seq<nat>
    requires S <= rows.Keys
  {
    Ascending(ReceivableIn(rows, S, now))
  }

  function ReceivableIn(rows: map<nat, Row>, S: set<nat>, now: nat): set<nat>
    requires S <= rows.Keys
  {
    set s | s in S && Receivable(rows[s], now)
  }

  function Plan(rows: map<nat, Row>, S: set<nat>, kind: QueueType, now: nat, policy: Option<Policy>): seq<nat>
    requires S <= rows.Keys
  {
    if kind == Fifo then FifoPlan(rows, S, now, policy) else StandardPlan(rows, S, now)
  }

  // ----- the loop's query agrees with the plan one row at a time

  /** Receivable rows of S with no earlier row of their group in S. */
  function Heads(rows: map<nat, Row>, S: set<nat>, now: nat): set<nat>
    requires S <= rows.Keys
  {
    set s | s in S && Receivable(rows[s], now) && forall e :: e in S && e < s ==> rows[e].group != rows[s].group
  }

  function PreferredHeads(rows: map<nat, Row>, S: set<nat>, now: nat, preferred: Option<string>): set<nat>
    requires S <= rows.Keys
  {
    set s | s in Heads(rows, S, now) && preferred.Some? && rows[s].group == preferred
  }

  /** ORDER BY (preferred group first), sequence LIMIT 1. */
  function Candidate(rows: map<nat, Row>, S: set<nat>, now: nat, preferred: Option<string>): Option<nat>
    requires S <= rows.Keys
  {
    var heads := Heads(rows, S, now);
    var first := PreferredHeads(rows, S, now, preferred);
    if first != {} then Some(Min(first)) else if heads != {} then Some(Min(heads)) else None
  }

  /** What is left of the plan once some rows are handled and a group is being served. */
  function PlanFrom(rows: map<nat, Row>, S: set<nat>, now: nat, policy: Option<Policy>, preferred: Option<string>): seq<nat>
    requires S <= rows.Keys
  {
    if preferred.None? then FifoPlan(rows, S, now, policy)
    else
      var g := Group(rows, S, preferred);
      ReceivablePrefix(rows, g, now) + FifoPlan(rows, S - g, now, policy)
  }

  /** A group whose oldest row cannot be received contributes nothing. */
  lemma {:induction false} WaitingGroup(rows: map<nat, Row>, S: set<nat>, now: nat, policy: Option<Policy>, g: Option<string>)
    requires S <= rows.Keys
    requires Group(rows, S, g) == {} || !Receivable(rows[Min(Group(rows, S, g))], now)
    ensures FifoPlan(rows, S, now, policy) == FifoPlan(rows, S - Group(rows, S, g), now, policy)
    decreases S
  {
    var G := Group(rows, S, g);
    if G == {} {
      assert S - G == S;
    } else {
      var m := Min(S);
      var M := Group(rows, S, rows[m].group);
      if rows[m].group == g {
        assert m in G;
        assert Min(G) == m;
      } else {
        var T := S - G;
        assert m in T;
        assert m == Min(T);
        if !Receivable(rows[m], now) || !Over(rows[m], policy) {
          assert Group(rows, S - M, g) == G;
          assert Group(rows, T, rows[m].group) == M;
          assert T - M == (S - M) - G;
          WaitingGroup(rows, S - M, now, policy, g);
        } else {
          assert Group(rows, S - {m}, g) == G;
          assert T - {m} == (S - {m}) - G;
          WaitingGroup(rows, S - {m}, now, policy, g);
        }
      }
    }
  }

  /** With no group being served the plan starts at the oldest head. */
  lemma {:induction false} FifoPlanStep(rows: map<nat, Row>, S: set<nat>, now: nat, policy: Option<Policy>)
    requires S <= rows.Keys
    ensures Heads(rows, S, now) == {} ==> FifoPlan(rows, S, now, policy) == []
    ensures Heads(rows, S, now) != {} ==>
              var c := Min(Heads(rows, S, now));
              var g := if Over(rows[c], policy) then None else rows[c].group;
              rows[c].group.Some? ==>
                FifoPlan(rows, S, now, policy) == [c] + PlanFrom(rows, S - {c}, now, policy, g)
    decreases S
  {
    if S != {} {
      var m := Min(S);
      var M := Group(rows, S, rows[m].group);
      assert m in M;
      assert Min(M) == m;
      if Receivable(rows[m], now) {
        assert m in Heads(rows, S, now);
        assert Min(Heads(rows, S, now)) == m;
        assert Group(rows, S - {m}, rows[m].group) == M - {m};
        assert (S - {m}) - (M - {m}) == S - M;
      } else {
        var T := S - M;
        FifoPlanStep(rows, T, now, policy);
        HeadsIgnoreWaiting(rows, S, now, rows[m].group);
        if Heads(rows, S, now) != {} {
          var c := Min(Heads(rows, S, now));
          WaitingAfter(rows, S, now, policy, rows[m].group, c);
        }
      }
    }
  }

  lemma HeadsIgnoreWaiting(rows: map<nat, Row>, S: set<nat>, now: nat, g: Option<string>)
    requires S <= rows.Keys
    requires Group(rows, S, g) == {} || !Receivable(rows[Min(Group(rows, S, g))], now)
    ensures Heads(rows, S, now) == Heads(rows, S - Group(rows, S, g), now)
  {
  }

  /** Removing a row of another group leaves a waiting group waiting. */
  lemma WaitingAfter(rows: map<nat, Row>, S: set<nat>, now: nat, policy: Option<Policy>, g: Option<string>, c: nat)
    requires S <= rows.Keys && c in S && rows[c].group != g
    requires Group(rows, S, g) == {} || !Receivable(rows[Min(Group(rows, S, g))], now)
    ensures FifoPlan(rows, S - {c}, now, policy) == FifoPlan(rows, S - Group(rows, S, g) - {c}, now, policy)
    ensures PlanFrom(rows, S - {c}, now, policy, rows[c].group)
         == PlanFrom(rows, S - Group(rows, S, g) - {c}, now, policy, rows[c].group)
  {
    var G := Group(rows, S, g);
    var T := S - {c};
    assert Group(rows, T, g) == G;
    assert T - G == S - G - {c};
    WaitingGroup(rows, T, now, policy, g);
    var C := Group(rows, T, rows[c].group);
    assert C == Group(rows, T - G, rows[c].group);
    var U := T - C;
    assert Group(rows, U, g) == G;
    WaitingGroup(rows, U, now, policy, g);
    assert U - G == T - G - C;
  }

  /** While the served group's oldest row is receivable, it is the candidate. */
  lemma ServingStep(rows: map<nat, Row>, S: set<nat>, now: nat, policy: Option<Policy>, g: Option<string>)
    requires S <= rows.Keys && g.Some?
    requires Group(rows, S, g) != {} && Receivable(rows[Min(Group(rows, S, g))], now)
    ensures var c := Min(Group(rows, S, g));
            && Candidate(rows, S, now, g) == Some(c)
            && PlanFrom(rows, S, now, policy, g) == [c] + PlanFrom(rows, S - {c}, now, policy, g)
  {
    var G := Group(rows, S, g);
    var c := Min(G);
    var first := PreferredHeads(rows, S, now, g);
    assert forall e :: e in S && rows[e].group == g ==> e in G;
    assert first == {c};
    assert Group(rows, S - {c}, g) == G - {c};
    assert (S - {c}) - (G - {c}) == S - G;
  }

  lemma IdleGroup(rows: map<nat, Row>, S: set<nat>, now: nat, policy: Option<Policy>, g: Option<string>)
    requires S <= rows.Keys && g.Some?
    requires Group(rows, S, g) == {} || !Receivable(rows[Min(Group(rows, S, g))], now)
    ensures PlanFrom(rows, S, now, policy, g) == FifoPlan(rows, S, now, policy)
  {
    assert ReceivablePrefix(rows, Group(rows, S, g), now) == [];
    WaitingGroup(rows, S, now, policy, g);
  }

  /** Once it is not, the served group is out of the way. */
  lemma IdleStep(rows: map<nat, Row>, S: set<nat>, now: nat, policy: Option<Policy>, g: Option<string>)
    requires S <= rows.Keys && g.Some?
    requires Group(rows, S, g) == {} || !Receivable(rows[Min(Group(rows, S, g))], now)
    ensures PlanFrom(rows, S, now, policy, g) == FifoPlan(rows, S, now, policy)
    ensures forall s :: s in Heads(rows, S, now) ==> rows[s].group != g
    ensures forall c :: c in S && rows[c].group != g ==>
              PlanFrom(rows, S - {c}, now, policy, g) == FifoPlan(rows, S - {c}, now, policy)
  {
    IdleGroup(rows, S, now, policy, g);
    HeadsIgnoreWaiting(rows, S, now, g);
    forall c | c in S && rows[c].group != g
      ensures PlanFrom(rows, S - {c}, now, policy, g) == FifoPlan(rows, S - {c}, now, policy)
    {
      assert Group(rows, S - {c}, g) == Group(rows, S, g);
      IdleGroup(rows, S - {c}, now, policy, g);
    }
  }

  /** The query's candidate is always the next row of the plan. */
  lemma PlanStep(rows: map<nat, Row>, S: set<nat>, now: nat, policy: Option<Policy>, preferred: Option<string>)
    requires S <= rows.Keys && forall s :: s in S ==> rows[s].group.Some?
    ensures var c := Candidate(rows, S, now, preferred);
            var plan := PlanFrom(rows, S, now, policy, preferred);
            if c.None? then plan == []
            else plan == [c.value] + PlanFrom(rows, S - {c.value}, now, policy,
                                              if Over(rows[c.value], policy) then preferred else rows[c.value].group)
  {
    var G := Group(rows, S, preferred);
    if preferred.Some? && G != {} && Receivable(rows[Min(G)], now) {
      ServingStep(rows, S, now, policy, preferred);
    } else {
      FifoPlanStep(rows, S, now, policy);
      if preferred.Some? { IdleStep(rows, S, now, policy, preferred); }
      assert PreferredHeads(rows, S, now, preferred) == {};
    }
  }
}
