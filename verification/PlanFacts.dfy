/** A sequence that comes in blocks: equal labels are contiguous. */
module Blocks {

  /** The first position with its label. */
  ghost predicate Opens<G(!new)>(labels: seq<G>, i: nat)
    requires i < |labels|
  {
    forall k :: 0 <= k < i ==> labels[k] != labels[i]
  }

  /** Same label as the position before it, and a larger number. */
  ghost predicate Continues<G(!new)>(labels: seq<G>, order: seq<nat>, i: nat)
    requires i < |labels| == |order|
  {
    i > 0 && labels[i - 1] == labels[i] && order[i - 1] < order[i]
  }

  /** Every position opens its label or continues the one before it; blocks open in ascending order. */
  ghost predicate InBlocks<G(!new)>(labels: seq<G>, order: seq<nat>) {
    && |labels| == |order|
    && (forall i :: 0 <= i < |order| ==> Opens(labels, i) || Continues(labels, order, i))
    && (forall i, j :: 0 <= i < j < |order| && Opens(labels, i) && Opens(labels, j) ==> order[i] < order[j])
  }

  /** Read off the blocks: a label is contiguous and its numbers ascend. */
  lemma {:induction false} BlocksAreContiguous<G(!new)>(labels: seq<G>, order: seq<nat>, i: nat, k: nat)
    requires InBlocks(labels, order) && i < k < |order| && labels[i] == labels[k]
    ensures order[i] < order[k]
    ensures forall j :: i <= j <= k ==> labels[j] == labels[i]
    decreases k
  {
    assert !Opens(labels, k);
    assert Continues(labels, order, k);
    if i < k - 1 { BlocksAreContiguous(labels, order, i, k - 1); }
  }

  /** Cutting a sequence of blocks short leaves blocks. */
  lemma BlocksPrefix<G(!new)>(labels: seq<G>, order: seq<nat>, n: nat)
    requires InBlocks(labels, order) && n <= |order|
    ensures InBlocks(labels[..n], order[..n])
  {
    forall i | 0 <= i < n
      ensures Opens(labels[..n], i) == Opens(labels, i) && Continues(labels[..n], order[..n], i) == Continues(labels, order, i)
    {
      if Opens(labels[..n], i) {
        forall k | 0 <= k < i ensures labels[k] != labels[i] { assert labels[..n][k] == labels[k]; }
      }
    }
  }

  function Label<G>(g: G, n: nat, labels: seq<G>): seq<G> {
    seq(n, _ => g) + labels
  }

  lemma OpensShift<G(!new)>(g: G, n: nat, labels: seq<G>, i: nat)
    requires i < |labels| && forall k :: 0 <= k < |labels| ==> labels[k] != g
    ensures Opens(Label(g, n, labels), n + i) == Opens(labels, i)
  {
    var all := Label(g, n, labels);
    assert all[n + i] == labels[i];
    if Opens(labels, i) {
      forall k | 0 <= k < n + i ensures all[k] != all[n + i] {
        if k >= n { assert all[k] == labels[k - n]; }
      }
    }
    if Opens(all, n + i) {
      forall k | 0 <= k < i ensures labels[k] != labels[i] { assert all[n + k] == labels[k]; }
    }
  }

  /** One ascending block in front of blocks with other labels and larger numbers. */
  lemma BlockInFront<G(!new)>(g: G, front: seq<nat>, labels: seq<G>, rest: seq<nat>)
    requires InBlocks(labels, rest)
    requires forall i, j :: 0 <= i < j < |front| ==> front[i] < front[j]
    requires forall k :: 0 <= k < |labels| ==> labels[k] != g
    requires forall i :: 0 <= i < |rest| ==> (front != [] ==> front[0] < rest[i])
    ensures InBlocks(Label(g, |front|, labels), front + rest)
  {
    var n := |front|;
    var allLabels, all := Label(g, n, labels), front + rest;
    forall i | 0 <= i < |all|
      ensures Opens(allLabels, i) || Continues(allLabels, all, i)
    {
      if i >= n {
        OpensShift(g, n, labels, i - n);
        if Continues(labels, rest, i - n) {
          assert allLabels[i - 1] == labels[i - n - 1] && all[i - 1] == rest[i - n - 1];
        }
      }
    }
    forall i, j | 0 <= i < j < |all| && Opens(allLabels, i) && Opens(allLabels, j)
      ensures all[i] < all[j]
    {
      OpenedInFront(g, front, labels, rest, i, j);
    }
  }

  lemma OpenedInFront<G(!new)>(g: G, front: seq<nat>, labels: seq<G>, rest: seq<nat>, i: nat, j: nat)
    requires InBlocks(labels, rest)
    requires forall k :: 0 <= k < |labels| ==> labels[k] != g
    requires forall i :: 0 <= i < |rest| ==> (front != [] ==> front[0] < rest[i])
    requires i < j < |front + rest| && Opens(Label(g, |front|, labels), i) && Opens(Label(g, |front|, labels), j)
    ensures (front + rest)[i] < (front + rest)[j]
  {
    var n := |front|;
    var allLabels := Label(g, n, labels);
    var head, at, last := allLabels[0], allLabels[i], allLabels[j];
    assert (n > 0 ==> head == g) && (i < n ==> at == g) && (j < n ==> last == g);
    assert j >= n;
    OpensShift(g, n, labels, j - n);
    if i >= n {
      OpensShift(g, n, labels, i - n);
    } else {
      assert i == 0;
    }
  }
}

/** What the plans contain and how they are ordered. */
module PlanFacts {
  import opened Blocks
  import opened Identifiers
  import opened Ordering
  import opened Tables
  import opened ReceivePlan

  ghost predicate Distinct(s: seq<nat>) {
    forall i, j :: 0 <= i < j < |s| ==> s[i] != s[j]
  }

  /** Receivable, and so is every older row of the same group. */
  ghost predicate Served(rows: map<nat, Row>, S: set<nat>, now: nat, s: nat)
    requires S <= rows.Keys
  {
    s in S && forall e :: e in S && e <= s && rows[e].group == rows[s].group ==> Receivable(rows[e], now)
  }

  /** Older rows of the same group come first in the plan. */
  ghost predicate GroupClosed(rows: map<nat, Row>, S: set<nat>, plan: seq<nat>)
    requires S <= rows.Keys && forall s :: s in plan ==> s in S
  {
    forall i, e :: 0 <= i < |plan| && e in S && e < plan[i] && rows[e].group == rows[plan[i]].group ==> e in plan[..i]
  }

  lemma ServedWithin(rows: map<nat, Row>, S: set<nat>, now: nat, g: Option<string>)
    requires S <= rows.Keys
    ensures forall s :: Served(rows, S - Group(rows, S, g), now, s) <==> Served(rows, S, now, s) && rows[s].group != g
    ensures forall s :: s in Group(rows, S, g) ==>
              (Served(rows, S, now, s) <==> Served(rows, Group(rows, S, g), now, s))
  {
  }

  lemma {:induction false} PrefixMembers(rows: map<nat, Row>, G: set<nat>, now: nat, g: Option<string>)
    requires G <= rows.Keys && forall s :: s in G ==> rows[s].group == g
    ensures forall s :: s in ReceivablePrefix(rows, G, now) <==> Served(rows, G, now, s)
  {
    if G != {} {
      var m := Min(G);
      if Receivable(rows[m], now) {
        PrefixMembers(rows, G - {m}, now, g);
        forall s
          ensures Served(rows, G, now, s) <==> s == m || Served(rows, G - {m}, now, s)
        {
          if s in G && s != m { assert forall e :: e in G ==> e == m || e in G - {m}; }
        }
      } else {
        assert forall s :: s in G ==> m <= s && rows[m].group == rows[s].group;
      }
    }
  }

  lemma AppendClosed(rows: map<nat, Row>, S: set<nat>, front: seq<nat>, rest: seq<nat>, R: set<nat>)
    requires S <= rows.Keys && R <= S && (forall s :: s in front ==> s in S) && (forall s :: s in rest ==> s in R)
    requires GroupClosed(rows, S, front) && GroupClosed(rows, R, rest)
    requires forall s, e :: s in R && e in S && e < s && rows[e].group == rows[s].group ==> e in R || e in front
    ensures GroupClosed(rows, S, front + rest)
  {
    var plan := front + rest;
    forall i, e | 0 <= i < |plan| && e in S && e < plan[i] && rows[e].group == rows[plan[i]].group
      ensures e in plan[..i]
    {
      if i < |front| {
        assert plan[..i] == front[..i];
      } else {
        var k := i - |front|;
        assert plan[i] == rest[k] && rest[k] in R;
        assert plan[..i] == front + rest[..k];
      }
    }
  }

  lemma ServedWithout(rows: map<nat, Row>, S: set<nat>, now: nat, m: nat)
    requires S <= rows.Keys && m in S && Receivable(rows[m], now)
    requires forall e :: e in S ==> m <= e
    ensures forall s :: Served(rows, S, now, s) <==> s == m || Served(rows, S - {m}, now, s)
  {
  }

  lemma {:induction false} FifoPlanServed(rows: map<nat, Row>, S: set<nat>, now: nat, policy: Option<Policy>)
    requires S <= rows.Keys
    ensures forall s :: s in FifoPlan(rows, S, now, policy) <==> Served(rows, S, now, s)
    decreases S
  {
    if S != {} {
      var m := Min(S);
      var g := rows[m].group;
      var G := Group(rows, S, g);
      assert m in G;
      if Receivable(rows[m], now) && Over(rows[m], policy) {
        FifoPlanServed(rows, S - {m}, now, policy);
        ServedWithout(rows, S, now, m);
      } else {
        FifoPlanServed(rows, S - G, now, policy);
        ServedWithin(rows, S, now, g);
        PrefixMembers(rows, G, now, g);
        if !Receivable(rows[m], now) {
          assert forall s :: s in G ==> m <= s && rows[s].group == rows[m].group;
        }
      }
    }
  }

  lemma DistinctAppend(front: seq<nat>, rest: seq<nat>)
    requires Distinct(front) && Distinct(rest) && forall s :: s in front ==> s !in rest
    ensures Distinct(front + rest)
  {
    var all := front + rest;
    forall i, j | 0 <= i < j < |all| ensures all[i] != all[j] {
      if i < |front| <= j { assert all[i] in front && all[j] in rest; }
    }
  }

  lemma {:induction false} FifoPlanClosed(rows: map<nat, Row>, S: set<nat>, now: nat, policy: Option<Policy>)
    requires S <= rows.Keys
    ensures var plan := FifoPlan(rows, S, now, policy);
            (forall s :: s in plan ==> s in S) && Distinct(plan) && GroupClosed(rows, S, plan)
    decreases S
  {
    FifoPlanServed(rows, S, now, policy);
    if S != {} {
      var m := Min(S);
      var g := rows[m].group;
      var G := Group(rows, S, g);
      assert m in G;
      if Receivable(rows[m], now) && Over(rows[m], policy) {
        FifoPlanClosed(rows, S - {m}, now, policy);
        DistinctAppend([m], FifoPlan(rows, S - {m}, now, policy));
        AppendClosed(rows, S, [m], FifoPlan(rows, S - {m}, now, policy), S - {m});
      } else {
        var front := ReceivablePrefix(rows, G, now);
        var rest := FifoPlan(rows, S - G, now, policy);
        FifoPlanClosed(rows, S - G, now, policy);
        assert forall e :: e in S && rows[e].group == g ==> e in G;
        if !Receivable(rows[m], now) {
          assert Min(G) == m && front == [] && front + rest == rest;
        }
        DistinctAppend(front, rest);
        AppendClosed(rows, S, front, rest, S - G);
      }
    }
  }

  /** The plan holds exactly the served rows, once each, every group oldest first. */
  lemma FifoPlanMembers(rows: map<nat, Row>, S: set<nat>, now: nat, policy: Option<Policy>)
    requires S <= rows.Keys
    ensures var plan := FifoPlan(rows, S, now, policy);
            && Distinct(plan)
            && (forall s :: s in plan <==> Served(rows, S, now, s))
            && GroupClosed(rows, S, plan)
  {
    FifoPlanServed(rows, S, now, policy);
    FifoPlanClosed(rows, S, now, policy);
  }

  predicate OverAt(rows: map<nat, Row>, s: nat, policy: Option<Policy>) {
    s in rows && Over(rows[s], policy)
  }

  function GroupOf(rows: map<nat, Row>, s: nat): Option<string> {
    if s in rows then rows[s].group else None
  }

  /** The group of every row of a sequence. */
  function GroupsOf(rows: map<nat, Row>, order: seq<nat>): seq<Option<string>> {
    seq(|order|, i requires 0 <= i < |order| => GroupOf(rows, order[i]))
  }

  /** Leaving out the rows that move away leaves the deliveries. */
  function Deliveries(rows: map<nat, Row>, plan: seq<nat>, policy: Option<Policy>): seq<nat> {
    if plan == [] then []
    else (if OverAt(rows, plan[0], policy) then [] else [plan[0]]) + Deliveries(rows, plan[1..], policy)
  }

  lemma {:induction false} DeliveriesMembers(rows: map<nat, Row>, plan: seq<nat>, policy: Option<Policy>)
    ensures forall s :: s in Deliveries(rows, plan, policy) <==> s in plan && !OverAt(rows, s, policy)
  {
    if plan != [] {
      DeliveriesMembers(rows, plan[1..], policy);
      assert plan == [plan[0]] + plan[1..];
    }
  }

  lemma {:induction false} DeliveriesAppend(rows: map<nat, Row>, a: seq<nat>, b: seq<nat>, policy: Option<Policy>)
    ensures Deliveries(rows, a + b, policy) == Deliveries(rows, a, policy) + Deliveries(rows, b, policy)
  {
    if a == [] {
      assert a + b == b;
    } else {
      assert (a + b)[0] == a[0] && (a + b)[1..] == a[1..] + b;
      DeliveriesAppend(rows, a[1..], b, policy);
      var first := if OverAt(rows, a[0], policy) then [] else [a[0]];
      assert first + (Deliveries(rows, a[1..], policy) + Deliveries(rows, b, policy))
          == (first + Deliveries(rows, a[1..], policy)) + Deliveries(rows, b, policy);
    }
  }

  ghost predicate IsAscending(order: seq<nat>) {
    forall i, j :: 0 <= i < j < |order| ==> order[i] < order[j]
  }

  lemma AscendingRest(order: seq<nat>)
    requires order != [] && IsAscending(order)
    ensures IsAscending(order[1..]) && forall x :: x in order[1..] ==> order[0] < x
  {
    var rest := order[1..];
    forall i | 0 <= i < |rest| ensures rest[i] == order[i + 1] && order[0] < rest[i] {}
  }

  lemma PrependAscending(x: nat, rest: seq<nat>)
    requires IsAscending(rest) && forall i :: 0 <= i < |rest| ==> x < rest[i]
    ensures IsAscending([x] + rest)
  {
  }

  lemma {:induction false} AscendingDeliveries(rows: map<nat, Row>, plan: seq<nat>, policy: Option<Policy>)
    requires IsAscending(plan)
    ensures IsAscending(Deliveries(rows, plan, policy))
    ensures plan != [] && !OverAt(rows, plan[0], policy) ==> Deliveries(rows, plan, policy) != [] && Deliveries(rows, plan, policy)[0] == plan[0]
  {
    if plan != [] {
      var rest := Deliveries(rows, plan[1..], policy);
      AscendingRest(plan);
      AscendingDeliveries(rows, plan[1..], policy);
      DeliveriesMembers(rows, plan[1..], policy);
      if OverAt(rows, plan[0], policy) {
        assert [] + rest == rest;
      } else {
        forall i | 0 <= i < |rest| ensures plan[0] < rest[i] { assert rest[i] in plan[1..]; }
        PrependAscending(plan[0], rest);
      }
    }
  }

  /** The deliveries of a FIFO plan: nothing from a waiting or moved row, else one ascending block. */
  lemma FifoDeliveriesStep(rows: map<nat, Row>, S: set<nat>, now: nat, policy: Option<Policy>)
      returns (front: seq<nat>, rest: set<nat>)
    requires S != {} && S <= rows.Keys
    ensures rest < S
    ensures Deliveries(rows, FifoPlan(rows, S, now, policy), policy)
         == front + Deliveries(rows, FifoPlan(rows, rest, now, policy), policy)
    ensures var g := rows[Min(S)].group;
            && (forall i, j :: 0 <= i < j < |front| ==> front[i] < front[j])
            && (forall i :: 0 <= i < |front| ==> GroupOf(rows, front[i]) == g)
            && (front != [] ==> front[0] == Min(S) && forall s :: s in rest ==> rows[s].group != g)
  {
    var m := Min(S);
    var g := rows[m].group;
    var G := Group(rows, S, g);
    assert m in G && Min(G) == m;
    if !Receivable(rows[m], now) {
      front, rest := [], S - G;
    } else if Over(rows[m], policy) {
      front, rest := [], S - {m};
      DeliveriesAppend(rows, [m], FifoPlan(rows, rest, now, policy), policy);
      assert Deliveries(rows, [m], policy) == [];
    } else {
      var prefix := ReceivablePrefix(rows, G, now);
      rest := S - G;
      front := Deliveries(rows, prefix, policy);
      assert prefix[0] == m;
      AscendingDeliveries(rows, prefix, policy);
      DeliveriesAppend(rows, prefix, FifoPlan(rows, rest, now, policy), policy);
      DeliveriesMembers(rows, prefix, policy);
      forall i | 0 <= i < |front| ensures GroupOf(rows, front[i]) == g { assert front[i] in prefix; }
    }
  }

  /** The deliveries of a FIFO plan come in blocks, one a group, whatever is moved away. */
  lemma {:induction false} FifoDeliveriesInBlocks(rows: map<nat, Row>, S: set<nat>, now: nat, policy: Option<Policy>)
    requires S <= rows.Keys
    ensures var d := Deliveries(rows, FifoPlan(rows, S, now, policy), policy);
            InBlocks(GroupsOf(rows, d), d)
    decreases S
  {
    if S != {} {
      var front, rest := FifoDeliveriesStep(rows, S, now, policy);
      var e := Deliveries(rows, FifoPlan(rows, rest, now, policy), policy);
      FifoDeliveriesInBlocks(rows, rest, now, policy);
      if front == [] {
        assert front + e == e;
      } else {
        var g := rows[Min(S)].group;
        DeliveredFrom(rows, rest, now, policy);
        assert Label(g, |front|, GroupsOf(rows, e)) == GroupsOf(rows, front + e);
        BlockInFront(g, front, GroupsOf(rows, e), e);
      }
    }
  }

  lemma DeliveredFrom(rows: map<nat, Row>, S: set<nat>, now: nat, policy: Option<Policy>)
    requires S <= rows.Keys
    ensures var d := Deliveries(rows, FifoPlan(rows, S, now, policy), policy);
            forall i :: 0 <= i < |d| ==> d[i] in S && GroupsOf(rows, d)[i] == rows[d[i]].group
  {
    FifoPlanServed(rows, S, now, policy);
    var plan := FifoPlan(rows, S, now, policy);
    DeliveriesMembers(rows, plan, policy);
    var d := Deliveries(rows, plan, policy);
    forall i | 0 <= i < |d|
      ensures d[i] in S && GroupsOf(rows, d)[i] == rows[d[i]].group
    {
      assert d[i] in plan;
    }
  }

  /** Over groups ordered by their oldest row: each group's longest receivable prefix. */
  function GroupsInOrder(rows: map<nat, Row>, S: set<nat>, now: nat): seq<nat>
    requires S <= rows.Keys
    decreases S
  {
    if S == {} then [] else
      var G := Group(rows, S, rows[Min(S)].group);
      assert Min(S) in G && S - G < S;
      ReceivablePrefix(rows, G, now) + GroupsInOrder(rows, S - G, now)
  }

  lemma {:induction false} FifoPlanWithoutPolicy(rows: map<nat, Row>, S: set<nat>, now: nat)
    requires S <= rows.Keys
    ensures FifoPlan(rows, S, now, None) == GroupsInOrder(rows, S, now)
    decreases S
  {
    if S != {} {
      var m := Min(S);
      var G := Group(rows, S, rows[m].group);
      assert m in G && Min(G) == m;
      FifoPlanWithoutPolicy(rows, S - G, now);
      if !Receivable(rows[m], now) { assert ReceivablePrefix(rows, G, now) == []; }
    }
  }
}
