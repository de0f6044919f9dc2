/** The two orders the tables are read in: sequence numbers, and text compared byte by byte. */
module Ordering {

  lemma MinExists(S: set<nat>)
    requires S != {}
    ensures exists m :: m in S && forall x :: x in S ==> m <= x
  {
    var y :| y in S;
    if S == {y} {
    } else {
      MinExists(S - {y});
      var m :| m in S - {y} && forall x :: x in S - {y} ==> m <= x;
      assert S == (S - {y}) + {y};
      var least := if y <= m then y else m;
      assert least in S && forall x :: x in S ==> least <= x;
    }
  }

  function Min(S: set<nat>): (m: nat)
    requires S != {}
    ensures m in S && forall x :: x in S ==> m <= x
  {
    MinExists(S);
    var m :| m in S && forall x :: x in S ==> m <= x;
    m
  }

  /** `ORDER BY sequence`. */
  function Ascending(S: set<nat>): (r: seq<nat>)
    ensures |r| == |S|
    ensures forall x :: x in r <==> x in S
    ensures forall i, j :: 0 <= i < j < |r| ==> r[i] < r[j]
  {
    if S == {} then [] else
      var m := Min(S);
      var rest := Ascending(S - {m});
      assert forall x :: x in rest ==> x in S && m < x;
      [m] + rest
  }

  /** `LIMIT`. */
  function First(order: seq<nat>, limit: nat): seq<nat> {
    if limit < |order| then order[..limit] else order
  }

  lemma FirstOfMore(x: nat, rest: seq<nat>, limit: nat)
    requires limit > 0
    ensures First([x] + rest, limit) == [x] + First(rest, limit - 1)
  {
  }

  /** SQLite's BINARY collation, and the order of a BTreeMap over strings. */
  predicate TextLess(a: string, b: string) {
    if b == "" then false
    else if a == "" then true
    else if a[0] != b[0] then a[0] < b[0]
    else TextLess(a[1..], b[1..])
  }

  lemma {:induction false} TextLessTotal(a: string, b: string)
    ensures TextLess(a, b) || a == b || TextLess(b, a)
    ensures !(TextLess(a, b) && TextLess(b, a))
    ensures !TextLess(a, a)
  {
    if a != "" && b != "" {
      TextLessTotal(a[1..], b[1..]);
      if a[0] == b[0] && a[1..] == b[1..] {
        assert a == [a[0]] + a[1..] == b;
      }
    }
    if a != "" { TextLessTotal(a[1..], a[1..]); }
  }

  lemma {:induction false} TextLessTransitive(a: string, b: string, c: string)
    requires TextLess(a, b) && TextLess(b, c)
    ensures TextLess(a, c)
  {
    if a != "" && a[0] == b[0] == c[0] {
      TextLessTransitive(a[1..], b[1..], c[1..]);
    }
  }

  predicate IsLeast(m: string, S: set<string>) {
    forall x :: x in S ==> x == m || TextLess(m, x)
  }

  lemma LeastExists(S: set<string>)
    requires S != {}
    ensures exists m :: m in S && IsLeast(m, S)
  {
    var y :| y in S;
    if S != {y} {
      LeastExists(S - {y});
      var m :| m in S - {y} && IsLeast(m, S - {y});
      TextLessTotal(y, m);
      var least := if TextLess(y, m) then y else m;
      forall x | x in S
        ensures x == least || TextLess(least, x)
      {
        assert x == y || x in S - {y};
        if least == y && x != y && x != m { TextLessTransitive(y, m, x); }
      }
      assert IsLeast(least, S);
    } else {
      assert IsLeast(y, S);
    }
  }

  function Least(S: set<string>): (m: string)
    requires S != {}
    ensures m in S && IsLeast(m, S)
  {
    LeastExists(S);
    LeastUnique(S);
    var m :| m in S && IsLeast(m, S);
    m
  }

  lemma LeastUnique(S: set<string>)
    ensures forall m, n :: m in S && n in S && IsLeast(m, S) && IsLeast(n, S) ==> m == n
  {
    forall m, n | m in S && n in S && IsLeast(m, S) && IsLeast(n, S)
      ensures m == n
    {
      TextLessTotal(m, n);
    }
  }

  ghost predicate StrictlyIncreasing(names: seq<string>) {
    forall i, j :: 0 <= i < j < |names| ==> TextLess(names[i], names[j])
  }

  /** `ORDER BY name`. */
  function Alphabetical(S: set<string>): (r: seq<string>)
    ensures |r| == |S|
    ensures forall x :: x in r <==> x in S
    ensures StrictlyIncreasing(r)
  {
    if S == {} then [] else
      var m := Least(S);
      [m] + Alphabetical(S - {m})
  }

  lemma CardinalitySubset<T>(a: set<T>, b: set<T>)
    requires a <= b
    ensures |a| <= |b|
  {
    assert |b| == |a| + |b - a| by { assert b == a + (b - a); }
  }
}
