/** The request rate limit of `Admission`, with real arithmetic in place of f64. */
module TokenBucket {

  /** `RateState`. */
  datatype Bucket = Bucket(tokens: real, updatedAt: real)

  /** Tokens after the time since the last call; `duration_since` is zero for a clock that went back. */
  function Level(b: Bucket, rate: nat, now: real): real {
    var earned := if now < b.updatedAt then 0.0 else (now - b.updatedAt) * rate as real;
    if b.tokens + earned < rate as real then b.tokens + earned else rate as real
  }

  predicate Admits(b: Bucket, rate: nat, now: real) {
    Level(b, rate, now) >= 1.0
  }

  function Enter(b: Bucket, rate: nat, now: real): Bucket {
    Bucket(Level(b, rate, now) - (if Admits(b, rate, now) then 1.0 else 0.0), now)
  }

  datatype Entry = Admitted | Busy | RateLimited

  class Admission {
    const rate: nat
    var tokens: real
    var updatedAt: real

    function State(): Bucket
      reads this
    {
      Bucket(tokens, updatedAt)
    }

    constructor (requestsPerSecond: nat, now: real)
      ensures rate == requestsPerSecond && State() == Bucket(requestsPerSecond as real, now)
    {
      rate := requestsPerSecond;
      tokens := requestsPerSecond as real;
      updatedAt := now;
    }

    /** `try_enter`; a request that finds no slot never reaches the bucket. */
    method TryEnter(slotFree: bool, now: real) returns (entry: Entry)
      modifies `tokens, `updatedAt
      ensures State() == if slotFree then Enter(old(State()), rate, now) else old(State())
      ensures entry == if !slotFree then Busy else if old(Admits(State(), rate, now)) then Admitted else RateLimited
    {
      if !slotFree {
        return Busy;
      }
      var elapsed := if now < updatedAt then 0.0 else now - updatedAt;
      var refilled := tokens + elapsed * rate as real;
      tokens := if refilled < rate as real then refilled else rate as real;
      updatedAt := now;
      if tokens < 1.0 {
        return RateLimited;
      }
      tokens := tokens - 1.0;
      return Admitted;
    }
  }

  // ----- runs

  predicate Sane(b: Bucket, rate: nat) {
    0.0 <= b.tokens <= rate as real
  }

  /** Calls in order, none before the given time. */
  predicate InOrder(from: real, times: seq<real>)
    decreases |times|
  {
    times == [] || (from <= times[0] && InOrder(times[0], times[1..]))
  }

  function After(b: Bucket, rate: nat, times: seq<real>): Bucket
    decreases |times|
  {
    if times == [] then b else After(Enter(b, rate, times[0]), rate, times[1..])
  }

  function Decisions(b: Bucket, rate: nat, times: seq<real>): seq<bool>
    decreases |times|
  {
    if times == [] then [] else [Admits(b, rate, times[0])] + Decisions(Enter(b, rate, times[0]), rate, times[1..])
  }

  function Count(decisions: seq<bool>): nat {
    if decisions == [] then 0 else (if decisions[0] then 1 else 0) + Count(decisions[1..])
  }

  lemma EarnedIsPositive(d: real, rate: nat)
    requires d >= 0.0
    ensures d * rate as real >= 0.0
  {
  }

  lemma EnterKeepsSane(b: Bucket, rate: nat, now: real)
    requires Sane(b, rate)
    ensures Sane(Enter(b, rate, now), rate)
  {
    LevelIsSane(b, rate, now);
  }

  /** Tokens stay within the bucket over every run, whatever the clock does. */
  lemma {:induction false} TokensStayInRange(b: Bucket, rate: nat, times: seq<real>)
    requires Sane(b, rate)
    ensures Sane(After(b, rate, times), rate)
    decreases |times|
  {
    if times != [] {
      EnterKeepsSane(b, rate, times[0]);
      TokensStayInRange(Enter(b, rate, times[0]), rate, times[1..]);
    }
  }

  /** Tokens due from time zero on. */
  function Due(t: real, rate: nat): real {
    t * rate as real
  }

  lemma EnterPays(b: Bucket, rate: nat, now: real)
    requires b.updatedAt <= now
    ensures Enter(b, rate, now).tokens + (if Admits(b, rate, now) then 1.0 else 0.0)
            <= b.tokens + (Due(now, rate) - Due(b.updatedAt, rate))
  {
  }

  /** The time a run ends. */
  function End(from: real, times: seq<real>): real {
    if times == [] then from else times[|times| - 1]
  }

  /** What a run admits was in the bucket or was earned while it lasted. */
  lemma {:induction false} AdmittedWasEarned(b: Bucket, rate: nat, times: seq<real>)
    requires Sane(b, rate) && InOrder(b.updatedAt, times)
    ensures After(b, rate, times).tokens + Count(Decisions(b, rate, times)) as real
            <= b.tokens + (Due(End(b.updatedAt, times), rate) - Due(b.updatedAt, rate))
    decreases |times|
  {
    if times != [] {
      var next := Enter(b, rate, times[0]);
      EnterKeepsSane(b, rate, times[0]);
      EnterPays(b, rate, times[0]);
      AdmittedWasEarned(next, rate, times[1..]);
      CountFirst(Admits(b, rate, times[0]), Decisions(next, rate, times[1..]));
    }
  }

  lemma CountFirst(first: bool, rest: seq<bool>)
    ensures Count([first] + rest) == (if first then 1 else 0) + Count(rest)
  {
  }

  /** The first call finds a full bucket at best. */
  lemma WindowPays(b: Bucket, full: Bucket, rate: nat, times: seq<real>)
    requires Sane(b, rate) && InOrder(b.updatedAt, times) && times != []
    requires full == Bucket(Level(b, rate, times[0]), times[0])
    ensures Count(Decisions(b, rate, times)) as real
            <= rate as real + (Due(times[|times| - 1], rate) - Due(times[0], rate))
  {
    LevelIsSane(b, rate, times[0]);
    SameLevel(b, full, rate, times);
    AdmittedWasEarned(full, rate, times);
    TokensStayInRange(full, rate, times);
  }

  lemma DueBetween(from: real, to: real, rate: nat)
    ensures Due(to, rate) - Due(from, rate) == (to - from) * rate as real
  {
  }

  /** The calls admitted in a window of length d number at most rate * d + rate, whatever came before. */
  lemma WindowBound(b: Bucket, rate: nat, times: seq<real>)
    requires Sane(b, rate) && InOrder(b.updatedAt, times) && times != []
    ensures Count(Decisions(b, rate, times)) as real
            <= (times[|times| - 1] - times[0]) * rate as real + rate as real
  {
    WindowPays(b, Bucket(Level(b, rate, times[0]), times[0]), rate, times);
    DueBetween(times[0], times[|times| - 1], rate);
  }

  lemma {:induction false} RunContinues(b: Bucket, rate: nat, before: seq<real>, window: seq<real>)
    requires Sane(b, rate) && InOrder(b.updatedAt, before + window)
    ensures Sane(After(b, rate, before), rate) && InOrder(After(b, rate, before).updatedAt, window)
    ensures Decisions(b, rate, before + window) == Decisions(b, rate, before) + Decisions(After(b, rate, before), rate, window)
    decreases |before|
  {
    if before == [] {
      assert before + window == window;
    } else {
      assert (before + window)[0] == before[0] && (before + window)[1..] == before[1..] + window;
      EnterKeepsSane(b, rate, before[0]);
      RunContinues(Enter(b, rate, before[0]), rate, before[1..], window);
    }
  }

  /** In every run from a full bucket, every window is bounded. */
  lemma EveryWindowIsBounded(rate: nat, start: real, before: seq<real>, window: seq<real>)
    requires InOrder(start, before + window) && window != []
    ensures var all := Decisions(Bucket(rate as real, start), rate, before + window);
            |all| == |before| + |window|
            && Count(all[|before|..]) as real <= (window[|window| - 1] - window[0]) * rate as real + rate as real
  {
    var b := Bucket(rate as real, start);
    RunContinues(b, rate, before, window);
    WindowBound(After(b, rate, before), rate, window);
    OneDecisionEach(b, rate, before);
    OneDecisionEach(After(b, rate, before), rate, window);
    var all := Decisions(b, rate, before + window);
    assert all[|before|..] == Decisions(After(b, rate, before), rate, window);
  }

  lemma {:induction false} OneDecisionEach(b: Bucket, rate: nat, times: seq<real>)
    ensures |Decisions(b, rate, times)| == |times|
    decreases |times|
  {
    if times != [] { OneDecisionEach(Enter(b, rate, times[0]), rate, times[1..]); }
  }

  lemma LevelIsSane(b: Bucket, rate: nat, now: real)
    requires Sane(b, rate)
    ensures 0.0 <= Level(b, rate, now) <= rate as real
  {
    if b.updatedAt <= now { EarnedIsPositive(now - b.updatedAt, rate); }
  }

  /** The first call sees the level only. */
  lemma SameLevel(b: Bucket, full: Bucket, rate: nat, times: seq<real>)
    requires times != [] && full == Bucket(Level(b, rate, times[0]), times[0])
    ensures Decisions(full, rate, times) == Decisions(b, rate, times)
  {
    assert Level(full, rate, times[0]) == full.tokens by { assert (times[0] - times[0]) * rate as real == 0.0; }
    assert Enter(full, rate, times[0]) == Enter(b, rate, times[0]);
  }

  /** Two buckets that fill alike from some time on. */
  predicate Alike(a: Bucket, b: Bucket, rate: nat, from: real) {
    && a.updatedAt <= from && b.updatedAt <= from
    && Level(a, rate, from) == Level(b, rate, from)
  }

  lemma LevelLater(b: Bucket, rate: nat, from: real, now: real)
    requires b.updatedAt <= from <= now
    ensures Level(b, rate, now) == Level(Bucket(Level(b, rate, from), from), rate, now)
  {
  }

  lemma {:induction false} AlikeDecides(a: Bucket, b: Bucket, rate: nat, from: real, times: seq<real>)
    requires Alike(a, b, rate, from) && InOrder(from, times)
    ensures Decisions(a, rate, times) == Decisions(b, rate, times)
  {
    if times != [] {
      LevelLater(a, rate, from, times[0]);
      LevelLater(b, rate, from, times[0]);
    }
  }

  /** A rejected call leaves every later decision as it would have been without it. */
  lemma RejectionLeavesNoTrace(b: Bucket, rate: nat, now: real, later: seq<real>)
    requires b.updatedAt <= now && !Admits(b, rate, now) && InOrder(now, later)
    ensures Decisions(Enter(b, rate, now), rate, later) == Decisions(b, rate, later)
  {
    assert Level(Enter(b, rate, now), rate, now) == Level(b, rate, now);
    AlikeDecides(Enter(b, rate, now), b, rate, now, later);
  }

  /** A client that leaves 1/rate seconds between its calls is never limited. */
  predicate Spaced(last: real, rate: nat, times: seq<real>)
    decreases |times|
  {
    times == [] || (last <= times[0] && (times[0] - last) * rate as real >= 1.0 && Spaced(times[0], rate, times[1..]))
  }

  lemma {:induction false} SpacedCallsAreAdmitted(b: Bucket, rate: nat, times: seq<real>)
    requires Sane(b, rate) && rate >= 1 && Spaced(b.updatedAt, rate, times)
    ensures Count(Decisions(b, rate, times)) == |times|
    decreases |times|
  {
    if times != [] {
      EnterKeepsSane(b, rate, times[0]);
      assert Admits(b, rate, times[0]);
      SpacedCallsAreAdmitted(Enter(b, rate, times[0]), rate, times[1..]);
    }
  }

  /** The same moment, n times. */
  function AtOnce(now: real, n: nat): (times: seq<real>)
    ensures |times| == n
  {
    if n == 0 then [] else [now] + AtOnce(now, n - 1)
  }

  /** No time passes between calls at one moment. */
  lemma LevelAtOnce(b: Bucket, rate: nat, now: real)
    ensures Level(Enter(b, rate, now), rate, now) == Enter(b, rate, now).tokens
  {
    assert (now - now) * rate as real == 0.0;
  }

  /** Of calls at one moment, as many are admitted as there are whole tokens. */
  lemma {:induction false} BurstIsServed(b: Bucket, rate: nat, now: real, n: nat, tokens: nat)
    requires tokens as real <= Level(b, rate, now) < tokens as real + 1.0
    ensures Count(Decisions(b, rate, AtOnce(now, n))) == if n < tokens then n else tokens
    decreases n
  {
    if n > 0 {
      var times := AtOnce(now, n);
      assert times[1..] == AtOnce(now, n - 1);
      LevelAtOnce(b, rate, now);
      if tokens > 0 {
        BurstIsServed(Enter(b, rate, now), rate, now, n - 1, tokens - 1);
      } else {
        BurstIsServed(Enter(b, rate, now), rate, now, n - 1, 0);
      }
    }
  }

  lemma SecondEarnsRate(d: real, rate: nat)
    requires 1.0 <= d
    ensures rate as real <= d * rate as real
  {
  }

  /** A full bucket stays full, and a second fills any. */
  lemma LevelIsFull(b: Bucket, rate: nat, now: real)
    requires Sane(b, rate) && (b.tokens == rate as real || b.updatedAt + 1.0 <= now)
    ensures Level(b, rate, now) == rate as real
  {
    if b.updatedAt <= now {
      EarnedIsPositive(now - b.updatedAt, rate);
      if b.updatedAt + 1.0 <= now { SecondEarnsRate(now - b.updatedAt, rate); }
    }
  }

  /** A full bucket admits exactly `rate` calls at once, and so does any bucket after a second without calls. */
  lemma FullBucketServesRate(b: Bucket, rate: nat, now: real, n: nat)
    requires Sane(b, rate) && (b.tokens == rate as real || b.updatedAt + 1.0 <= now)
    ensures Count(Decisions(b, rate, AtOnce(now, n))) == if n < rate then n else rate
  {
    LevelIsFull(b, rate, now);
    BurstIsServed(b, rate, now, n, rate);
  }
}
