/** The wildcard matcher of access policies. */
module Glob {
  import opened Identifiers

  /** What `?` (one byte) and `*` (any bytes) mean. */
  predicate Matches(p: string, v: string)
    decreases |p| + |v|
  {
    if p == "" then v == ""
    else if p[0] == '*' then Matches(p[1..], v) || (v != "" && Matches(p, v[1..]))
    else v != "" && (p[0] == '?' || p[0] == v[0]) && Matches(p[1..], v[1..])
  }

  /** The matcher's variables; `star` is the last star passed, `retry` where its text was last cut. */
  datatype Scan = Scan(i: nat, j: nat, star: Option<nat>, retry: nat)

  predicate InRange(p: string, v: string, s: Scan) {
    && s.i <= |p| && s.retry <= s.j <= |v|
    && (s.star.Some? ==> s.star.value < s.i)
  }

  /** One pass of the loop; None where it returns false. */
  function Advance(p: string, v: string, s: Scan): (r: Option<Scan>)
    requires InRange(p, v, s) && s.j < |v|
    ensures r.Some? ==> InRange(p, v, r.value)
    ensures r.Some? ==> s.retry <= r.value.retry && (s.retry == r.value.retry ==> s.i < r.value.i)
  {
    if s.i < |p| && (p[s.i] == '?' || p[s.i] == v[s.j]) then Some(s.(i := s.i + 1, j := s.j + 1))
    else if s.i < |p| && p[s.i] == '*' then Some(Scan(s.i + 1, s.j, Some(s.i), s.j))
    else if s.star.Some? then Some(s.(i := s.star.value + 1, j := s.retry + 1, retry := s.retry + 1))
    else None
  }

  predicate AllStars(p: string) {
    forall c :: c in p ==> c == '*'
  }

  lemma StarInFront(p: string)
    requires p != ""
    ensures AllStars(p) <==> p[0] == '*' && AllStars(p[1..])
  {
    assert p == [p[0]] + p[1..];
    if AllStars(p) { assert p[0] in p; forall c | c in p[1..] ensures c == '*' { assert c in p; } }
  }

  function Finish(p: string, v: string, s: Scan): bool
    requires InRange(p, v, s)
    decreases |v| - s.retry, |p| - s.i
  {
    if s.j == |v| then AllStars(p[s.i..])
    else
      var next := Advance(p, v, s);
      next.Some? && Finish(p, v, next.value)
  }

  const START := Scan(0, 0, None, 0)

  /** What the loop decides. */
  function Decide(p: string, v: string): bool {
    Finish(p, v, START)
  }

  /** `glob`, with its loop. */
  method Run(p: string, v: string) returns (matched: bool)
    ensures matched == Decide(p, v)
    ensures '*' !in v ==> matched == Matches(p, v)
  {
    if '*' !in v { DecideIsMatches(p, v); }
    var i: nat, j: nat, star: Option<nat>, retry: nat := 0, 0, None, 0;
    while j < |v|
      invariant InRange(p, v, Scan(i, j, star, retry))
      invariant Decide(p, v) == Finish(p, v, Scan(i, j, star, retry))
      decreases |v| - retry, |p| - i
    {
      if i < |p| && (p[i] == '?' || p[i] == v[j]) {
        i := i + 1;
        j := j + 1;
      } else if i < |p| && p[i] == '*' {
        star := Some(i);
        i := i + 1;
        retry := j;
      } else if star.Some? {
        retry := retry + 1;
        j := retry;
        i := star.value + 1;
      } else {
        return false;
      }
    }
    while i < |p| && p[i] == '*'
      invariant i <= |p|
      invariant AllStars(p[i..]) == Decide(p, v)
    {
      StarInFront(p[i..]);
      i := i + 1;
    }
    if i < |p| { StarInFront(p[i..]); }
    return i == |p|;
  }

  // ----- soundness and completeness

  /** A stretch without stars matching text of the same length, byte by byte. */
  predicate Literal(seg: string, text: string) {
    |seg| == |text| && forall k :: 0 <= k < |seg| ==> seg[k] != '*' && (seg[k] == '?' || seg[k] == text[k])
  }

  /** A star can absorb more: matching a suffix of the text is enough. */
  lemma {:induction false} StarAbsorbs(p: string, v: string, k: nat)
    requires p != "" && p[0] == '*' && k <= |v| && Matches(p, v[k..])
    ensures Matches(p, v)
  {
    if k == 0 {
      assert v[0..] == v;
    } else {
      assert v[1..][k - 1..] == v[k..];
      StarAbsorbs(p, v[1..], k - 1);
    }
  }

  /** A pattern starting with a star matches exactly when its rest matches some suffix. */
  lemma {:induction false} StarSplits(p: string, v: string) returns (k: nat)
    requires p != "" && p[0] == '*' && Matches(p, v)
    ensures k <= |v| && Matches(p[1..], v[k..])
  {
    if Matches(p[1..], v) {
      k := 0;
      assert v[0..] == v;
    } else {
      var m := StarSplits(p, v[1..]);
      k := m + 1;
      assert v[1..][m..] == v[k..];
    }
  }

  /** A stretch without stars consumes exactly its length. */
  lemma {:induction false} SegmentConsumes(seg: string, rest: string, v: string)
    requires '*' !in seg
    ensures Matches(seg + rest, v) <==> |seg| <= |v| && Literal(seg, v[..|seg|]) && Matches(rest, v[|seg|..])
  {
    if seg == "" {
      assert seg + rest == rest && v[0..] == v;
    } else {
      assert (seg + rest)[0] == seg[0] && (seg + rest)[1..] == seg[1..] + rest;
      assert seg[0] in seg;
      forall c | c in seg[1..] ensures c in seg {}
      if v != "" {
        SegmentConsumes(seg[1..], rest, v[1..]);
        if |seg| <= |v| {
          assert v[1..][..|seg| - 1] == v[..|seg|][1..];
          assert v[1..][|seg| - 1..] == v[|seg|..];
          if seg[0] == '?' || seg[0] == v[0] {
            LiteralStep(seg, v[..|seg|]);
          }
        }
      }
    }
  }

  lemma LiteralStep(seg: string, text: string)
    requires seg != "" && |seg| == |text| && seg[0] != '*' && (seg[0] == '?' || seg[0] == text[0])
    ensures Literal(seg, text) <==> Literal(seg[1..], text[1..])
  {
  }

  /** The scan remembers enough: the answer is what the last star and the text after `retry` decide. */
  ghost predicate Remembers(p: string, v: string, s: Scan) {
    && InRange(p, v, s)
    && match s.star
       case None => s.retry == 0 && Matches(p, v) == Matches(p[s.i..], v[s.j..])
       case Some(k) =>
         && p[k] == '*' && Literal(p[k + 1..s.i], v[s.retry..s.j])
         && Matches(p, v) == Matches(p[k..], v[s.retry..])
  }

  /** Passing a new star: only the latest cut matters. */
  lemma NewStar(p: string, v: string, s: Scan)
    requires Remembers(p, v, s) && s.i < |p| && p[s.i] == '*'
    ensures Matches(p, v) == Matches(p[s.i..], v[s.j..])
  {
    if s.star.Some? {
      var k := s.star.value;
      var seg, rest, text := p[k + 1..s.i], p[s.i..], v[s.retry..];
      assert p[k..][1..] == seg + rest;
      assert p[k..][0] == '*' && rest[0] == '*';
      if Matches(rest, v[s.j..]) {
        assert text[..|seg|] == v[s.retry..s.j] && text[|seg|..] == v[s.j..];
        LiteralHasNoStar(seg, v[s.retry..s.j]);
        SegmentConsumes(seg, rest, text);
        assert Matches(p[k..], text);
      }
      if Matches(p[k..], text) {
        var m := StarSplits(p[k..], text);
        LiteralHasNoStar(seg, v[s.retry..s.j]);
        SegmentConsumes(seg, rest, text[m..]);
        assert text[m..][|seg|..] == v[s.j..][m..];
        StarAbsorbs(rest, v[s.j..], m);
      }
    }
  }

  lemma LiteralHasNoStar(seg: string, text: string)
    requires Literal(seg, text)
    ensures '*' !in seg
  {
  }

  /** A mismatch after the last star rules out this cut, so the next one decides. */
  lemma Mismatch(p: string, v: string, s: Scan)
    requires Remembers(p, v, s) && s.j < |v| && s.star.Some?
    requires s.i == |p| || (p[s.i] != '*' && p[s.i] != '?' && p[s.i] != v[s.j])
    ensures Matches(p, v) == Matches(p[s.star.value..], v[s.retry + 1..])
  {
    var k := s.star.value;
    var seg, rest, text := p[k + 1..s.i], p[s.i..], v[s.retry..];
    assert p[k..][1..] == seg + rest;
    LiteralHasNoStar(seg, v[s.retry..s.j]);
    SegmentConsumes(seg, rest, text);
    assert text[|seg|..] == v[s.j..];
    assert !Matches(rest, v[s.j..]);
    assert text[1..] == v[s.retry + 1..];
  }

  lemma LiteralGrows(p: string, v: string, k: nat, retry: nat, i: nat, j: nat)
    requires k < i < |p| && retry <= j < |v| && Literal(p[k + 1..i], v[retry..j])
    requires p[i] != '*' && (p[i] == '?' || p[i] == v[j])
    ensures Literal(p[k + 1..i + 1], v[retry..j + 1])
  {
    assert p[k + 1..i + 1] == p[k + 1..i] + [p[i]];
    assert v[retry..j + 1] == v[retry..j] + [v[j]];
  }

  /** At the end of the text only stars may be left. */
  lemma {:induction false} OnlyStarsMatchNothing(p: string)
    ensures Matches(p, "") == AllStars(p)
  {
    if p != "" {
      OnlyStarsMatchNothing(p[1..]);
      StarInFront(p);
    }
  }

  lemma AtEnd(p: string, v: string, s: Scan)
    requires Remembers(p, v, s) && s.j == |v|
    ensures Matches(p, v) == AllStars(p[s.i..])
  {
    OnlyStarsMatchNothing(p[s.i..]);
    assert v[s.j..] == "";
    if s.star.Some? {
      var k := s.star.value;
      var seg, rest, text := p[k + 1..s.i], p[s.i..], v[s.retry..];
      assert p[k + 1..] == seg + rest && p[k..][1..] == p[k + 1..];
      LiteralHasNoStar(seg, v[s.retry..s.j]);
      if Matches(p[k..], text) {
        var m := StarSplits(p[k..], text);
        SegmentConsumes(seg, rest, text[m..]);
        assert m == 0;
        assert text[m..][|seg|..] == "";
      }
      if Matches(rest, "") {
        assert text[..|seg|] == v[s.retry..s.j] && text[|seg|..] == "";
        SegmentConsumes(seg, rest, text);
      }
    }
  }

  lemma EqualByteRemembers(p: string, v: string, s: Scan)
    requires Remembers(p, v, s) && s.j < |v| && s.i < |p| && (p[s.i] == '?' || p[s.i] == v[s.j]) && v[s.j] != '*'
    ensures Remembers(p, v, s.(i := s.i + 1, j := s.j + 1))
  {
    if s.star.Some? {
      LiteralGrows(p, v, s.star.value, s.retry, s.i, s.j);
    } else {
      assert p[s.i..][1..] == p[s.i + 1..] && v[s.j..][1..] == v[s.j + 1..];
    }
  }

  lemma AdvanceRemembers(p: string, v: string, s: Scan)
    requires Remembers(p, v, s) && s.j < |v| && '*' !in v
    ensures var next := Advance(p, v, s);
            if next.Some? then Remembers(p, v, next.value) else !Matches(p, v)
  {
    assert v[s.j] in v;
    if s.i < |p| && (p[s.i] == '?' || p[s.i] == v[s.j]) {
      EqualByteRemembers(p, v, s);
    } else if s.i < |p| && p[s.i] == '*' {
      NewStar(p, v, s);
    } else if s.star.Some? {
      Mismatch(p, v, s);
    }
  }

  lemma {:induction false} FinishIsMatches(p: string, v: string, s: Scan)
    requires Remembers(p, v, s) && '*' !in v
    ensures Finish(p, v, s) == Matches(p, v)
    decreases |v| - s.retry, |p| - s.i
  {
    if s.j == |v| {
      AtEnd(p, v, s);
    } else {
      AdvanceRemembers(p, v, s);
      var next := Advance(p, v, s);
      if next.Some? { FinishIsMatches(p, v, next.value); }
    }
  }

  /** Backtracking only to the last star loses no match. */
  lemma DecideIsMatches(p: string, v: string)
    requires '*' !in v
    ensures Decide(p, v) == Matches(p, v)
  {
    assert p[0..] == p && v[0..] == v;
    FinishIsMatches(p, v, START);
  }

  // ----- text that contains a star

  /** The matcher takes equal stretches at face value, stars included. */
  lemma {:induction false} TakesLiterally(common: string, p: string, v: string, n: nat)
    requires n <= |common| && common <= p && common <= v
    ensures InRange(p, v, Scan(n, n, None, 0)) && Finish(p, v, Scan(n, n, None, 0)) == Finish(p, v, Scan(|common|, |common|, None, 0))
    decreases |common| - n
  {
    if n < |common| {
      assert p[n] == v[n];
      TakesLiterally(common, p, v, n + 1);
    }
  }

  /** A pattern on which the matcher gets this value wrong. */
  function Misjudged(v: string): string
    requires '*' in v
  {
    var k := FirstStar(v);
    if k + 1 < |v| then v[..k + 1] else v[..k + 1] + "?"
  }

  function FirstStar(v: string): (k: nat)
    requires '*' in v
    ensures k < |v| && v[k] == '*' && '*' !in v[..k]
  {
    if v[0] == '*' then 0
    else
      assert v == [v[0]] + v[1..];
      var k := FirstStar(v[1..]);
      assert v[..k + 1] == [v[0]] + v[1..][..k];
      k + 1
  }

  /** The value matches its own text before the star, then a star, then (if nothing follows) one byte. */
  lemma MisjudgedMatches(v: string)
    requires '*' in v
    ensures Matches(Misjudged(v), v)
  {
    var k := FirstStar(v);
    var tail := Misjudged(v)[k..];
    assert Misjudged(v) == v[..k] + tail;
    SegmentConsumes(v[..k], tail, v);
    var rest := v[k..];
    if k + 1 < |v| {
      assert tail == "*";
      StarMatchesAll(rest);
    } else {
      assert tail == "*?" && rest == "*" && tail[1..] == "?" && "?"[1..] == "" && rest[1..] == "";
      assert Matches("", "");
      assert Matches("?", "*");
    }
  }

  lemma {:induction false} StarMatchesAll(v: string)
    ensures Matches("*", v)
  {
    assert "*"[1..] == "";
    if v != "" { StarMatchesAll(v[1..]); }
  }

  lemma MisjudgedRejected(v: string)
    requires '*' in v
    ensures !Decide(Misjudged(v), v)
  {
    var k := FirstStar(v);
    var p := Misjudged(v);
    TakesLiterally(v[..k + 1], p, v, 0);
    if k + 1 == |v| { assert p[k + 1..] == "?"; assert '?' in p[k + 1..]; }
  }

  /** The matcher agrees with the meaning of wildcards on every pattern exactly for values without a star. */
  lemma GlobIsExact(v: string)
    ensures (forall p: string :: Decide(p, v) == Matches(p, v)) <==> '*' !in v
  {
    if '*' in v {
      MisjudgedMatches(v);
      MisjudgedRejected(v);
    } else {
      forall p: string ensures Decide(p, v) == Matches(p, v) { DecideIsMatches(p, v); }
    }
  }

  /** Without wildcards a pattern matches itself only, whatever the value. */
  lemma PlainPattern(p: string, v: string)
    requires '*' !in p && '?' !in p
    ensures Decide(p, v) <==> p == v
  {
    assert p[0..] == p && v[0..] == v;
    PlainFinish(p, v, 0);
  }

  lemma {:induction false} PlainFinish(p: string, v: string, n: nat)
    requires '*' !in p && '?' !in p && n <= |p| && n <= |v|
    ensures Finish(p, v, Scan(n, n, None, 0)) <==> p[n..] == v[n..]
    decreases |p| - n
  {
    if n < |v| {
      if n < |p| {
        assert p[n] in p;
        assert p[n..] == [p[n]] + p[n + 1..] && v[n..] == [v[n]] + v[n + 1..];
        if p[n] == v[n] { PlainFinish(p, v, n + 1); }
      }
    } else if n < |p| {
      assert p[n] in p[n..] && p[n] in p;
    }
  }
}
