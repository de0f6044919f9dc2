/** Decimal attribute values: digit strings, powers of ten and exact values. */
module Decimals {
  predicate IsDigit(c: char) {
    '0' <= c <= '9'
  }

  predicate AllDigits(s: string) {
    forall i :: 0 <= i < |s| ==> IsDigit(s[i])
  }

  function Digit(c: char): nat
    requires IsDigit(c)
  {
    c as int - '0' as int
  }

  /** The number a digit string denotes. */
  function Number(s: string): nat
    requires AllDigits(s)
  {
    if s == "" then 0 else Number(s[..|s| - 1]) * 10 + Digit(s[|s| - 1])
  }

  /** A value with its decimal point moved: exactly m times ten to the power e. */
  function Shift(m: real, e: int): real
    decreases if e < 0 then -e else e
  {
    if e == 0 then m else if e > 0 then 10.0 * Shift(m, e - 1) else Shift(m, e + 1) / 10.0
  }

  // ----- moving the point

  lemma ShiftStep(m: real, e: int)
    ensures Shift(m, e + 1) == 10.0 * Shift(m, e)
  {
  }

  lemma {:induction false} ShiftTwice(m: real, a: int, b: int)
    ensures Shift(Shift(m, a), b) == Shift(m, a + b)
    decreases if b < 0 then -b else b
  {
    if b > 0 {
      ShiftTwice(m, a, b - 1);
      ShiftStep(m, a + b - 1);
    } else if b < 0 {
      ShiftTwice(m, a, b + 1);
      ShiftStep(m, a + b);
    }
  }

  lemma {:induction false} ShiftAdds(m: real, n: real, e: int)
    ensures Shift(m + n, e) == Shift(m, e) + Shift(n, e)
    decreases if e < 0 then -e else e
  {
    if e > 0 { ShiftAdds(m, n, e - 1); } else if e < 0 { ShiftAdds(m, n, e + 1); }
  }

  lemma {:induction false} ShiftZero(e: int)
    ensures Shift(0.0, e) == 0.0
    decreases if e < 0 then -e else e
  {
    if e > 0 { ShiftZero(e - 1); } else if e < 0 { ShiftZero(e + 1); }
  }

  lemma {:induction false} ShiftKeepsOrder(m: real, n: real, e: int)
    ensures m < n <==> Shift(m, e) < Shift(n, e)
    ensures m == n <==> Shift(m, e) == Shift(n, e)
    decreases if e < 0 then -e else e
  {
    if e > 0 { ShiftKeepsOrder(m, n, e - 1); } else if e < 0 { ShiftKeepsOrder(m, n, e + 1); }
  }

  lemma {:induction false} ShiftGrows(m: real, a: int, b: int)
    requires 0.0 < m && a < b
    ensures Shift(m, a) < Shift(m, b)
    decreases b - a
  {
    ShiftZero(a);
    ShiftKeepsOrder(0.0, m, a);
    if a < b - 1 { ShiftGrows(m, a + 1, b); }
    ShiftStep(m, a);
  }

  /** On the integers, a shift to the left appends zeros. */
  function ShiftUp(n: nat, k: nat): nat {
    if k == 0 then n else 10 * ShiftUp(n, k - 1)
  }

  lemma {:induction false} ShiftUpIsShift(n: nat, k: nat)
    ensures Shift(n as real, k) == ShiftUp(n, k) as real
    ensures n <= ShiftUp(n, k)
  {
    if k > 0 { ShiftUpIsShift(n, k - 1); }
  }

  // ----- digit strings

  lemma {:induction false} NumberAppend(a: string, b: string)
    requires AllDigits(a) && AllDigits(b)
    ensures AllDigits(a + b) && Number(a + b) as real == Shift(Number(a) as real, |b|) + Number(b) as real
  {
    if b == "" {
      assert a + b == a;
    } else {
      var front := b[..|b| - 1];
      assert (a + b)[..|a + b| - 1] == a + front;
      NumberAppend(a, front);
    }
  }

  function Zeros(n: nat): (s: string)
    ensures |s| == n && forall i :: 0 <= i < n ==> s[i] == '0'
  {
    if n == 0 then "" else Zeros(n - 1) + "0"
  }

  lemma {:induction false} NumberOfZeros(s: string)
    requires forall i :: 0 <= i < |s| ==> s[i] == '0'
    ensures AllDigits(s) && Number(s) == 0
  {
    if s != "" { NumberOfZeros(s[..|s| - 1]); }
  }

  /** `trim_start_matches('0')`. */
  function TrimStart(s: string): (r: string)
    ensures |r| <= |s| && (r != "" ==> r[0] != '0')
  {
    if s == "" || s[0] != '0' then s else TrimStart(s[1..])
  }

  /** `trim_end_matches('0')`. */
  function TrimEnd(s: string): (r: string)
    ensures |r| <= |s| && (r != "" ==> r[|r| - 1] != '0')
    ensures s != "" && s[0] != '0' ==> r != "" && r[0] == s[0]
  {
    if s == "" || s[|s| - 1] != '0' then s else TrimEnd(s[..|s| - 1])
  }

  /** Leading zeros do not count. */
  lemma {:induction false} TrimStartNumber(s: string)
    requires AllDigits(s)
    ensures AllDigits(TrimStart(s)) && Number(TrimStart(s)) == Number(s)
  {
    if s != "" && s[0] == '0' {
      TrimStartNumber(s[1..]);
      NumberOfZeros([s[0]]);
      assert s == [s[0]] + s[1..];
      NumberAppend([s[0]], s[1..]);
      ShiftZero(|s| - 1);
    }
  }

  /** Each trailing zero is one place. */
  lemma {:induction false} TrimEndNumber(s: string)
    requires AllDigits(s)
    ensures AllDigits(TrimEnd(s)) && Number(s) as real == Shift(Number(TrimEnd(s)) as real, |s| - |TrimEnd(s)|)
  {
    if s != "" && s[|s| - 1] == '0' {
      TrimEndNumber(s[..|s| - 1]);
    }
  }

  /** Digits without a leading zero are bounded by the powers of ten around their length. */
  lemma {:induction false} NumberBounds(s: string)
    requires AllDigits(s)
    ensures Number(s) < ShiftUp(1, |s|)
    ensures s != "" && s[0] != '0' ==> ShiftUp(1, |s| - 1) <= Number(s)
  {
    if s != "" { NumberBounds(s[..|s| - 1]); }
  }

  /** Without leading zeros a number is written in one way only. */
  lemma {:induction false} NumberInjective(a: string, b: string)
    requires AllDigits(a) && AllDigits(b) && Number(a) == Number(b)
    requires (a != "" ==> a[0] != '0') && (b != "" ==> b[0] != '0')
    ensures a == b
  {
    NumberBounds(a);
    NumberBounds(b);
    if a != "" && b != "" {
      NumberInjective(a[..|a| - 1], b[..|b| - 1]);
      assert a == a[..|a| - 1] + [a[|a| - 1]] && b == b[..|b| - 1] + [b[|b| - 1]];
    }
  }

  // ----- coefficients and scales

  /** What trimming leaves of a nonzero number: no zero at either end. */
  predicate Coefficient(c: string) {
    c != "" && AllDigits(c) && c[0] != '0' && c[|c| - 1] != '0'
  }

  function Amount(c: string, scale: int): real
    requires AllDigits(c)
  {
    Shift(Number(c) as real, scale)
  }

  lemma CoefficientNotTens(c: string)
    requires Coefficient(c)
    ensures Number(c) % 10 != 0
  {
  }

  /** A number scaled up to a larger one is a multiple of ten. */
  lemma Rescale(m: nat, s: int, n: nat, t: int)
    requires s <= t && Shift(m as real, s) == Shift(n as real, t)
    ensures n <= m
    ensures s == t ==> m == n
    ensures s < t ==> m % 10 == 0
  {
    ShiftTwice(n as real, t - s, s);
    ShiftUpIsShift(n, t - s);
    ShiftKeepsOrder(m as real, ShiftUp(n, t - s) as real, s);
  }

  /** The value of a nonzero decimal determines its coefficient and its scale. */
  lemma AmountInjective(a: string, s: int, b: string, t: int)
    requires Coefficient(a) && Coefficient(b) && Amount(a, s) == Amount(b, t)
    ensures a == b && s == t
  {
    CoefficientNotTens(a);
    CoefficientNotTens(b);
    if s <= t {
      Rescale(Number(a), s, Number(b), t);
    } else {
      Rescale(Number(b), t, Number(a), s);
    }
    NumberInjective(a, b);
  }

  /** The first digit's position brackets the value between two powers of ten. */
  lemma AmountBounds(c: string, scale: int)
    requires Coefficient(c)
    ensures 0.0 < Shift(1.0, |c| - 1 + scale) <= Amount(c, scale) < Shift(1.0, |c| + scale)
    ensures Amount(c, scale) == Shift(1.0, |c| - 1 + scale) <==> c == "1"
  {
    NumberBounds(c);
    LeadingOne(c);
    var n, low, high := Number(c) as real, ShiftUp(1, |c| - 1), ShiftUp(1, |c|);
    ShiftUpIsShift(1, |c| - 1);
    ShiftUpIsShift(1, |c|);
    ShiftTwice(1.0, |c| - 1, scale);
    ShiftTwice(1.0, |c|, scale);
    ShiftKeepsOrder(0.0, low as real, scale);
    ShiftZero(scale);
    ShiftKeepsOrder(low as real, n, scale);
    ShiftKeepsOrder(n, high as real, scale);
  }

  /** Only "1" is a power of ten without trailing zeros. */
  lemma LeadingOne(c: string)
    requires Coefficient(c)
    ensures Number(c) == ShiftUp(1, |c| - 1) <==> c == "1"
  {
  }
}
