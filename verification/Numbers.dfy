/** `normalize_number`: exact, canonical and bounded. */
module Numbers {
  import opened Identifiers
  import opened Decimals

  const I32_MAX := 0x7FFF_FFFF
  const PRECISION := 38
  const MIN_MAGNITUDE := -128
  const MAX_MAGNITUDE := 126

  function I32(x: int): Option<int> {
    if -I32_MAX - 1 <= x <= I32_MAX then Some(x) else None
  }

  /** The position of the first of the given characters, or the length. */
  function Find(text: string, stops: set<char>): (k: nat)
    ensures k <= |text| && (k < |text| ==> text[k] in stops)
    ensures forall i :: 0 <= i < k ==> text[i] !in stops
  {
    if text == "" || text[0] in stops then 0 else 1 + Find(text[1..], stops)
  }

  /** `parse::<i32>`: an optional sign and digits, in range. */
  function ParseI32(text: string): Option<int> {
    var signed := text != "" && (text[0] == '-' || text[0] == '+');
    var digits := if signed then text[1..] else text;
    if digits == "" || !AllDigits(digits) then None
    else I32(if text[0] == '-' then -(Number(digits) as int) else Number(digits))
  }

  datatype Parts = Parts(negative: bool, integer: string, fraction: string, exponent: int)

  /** The digits on both sides of the point. */
  function Mantissa(text: string): (r: Option<(string, string)>)
    ensures r.Some? ==> AllDigits(r.value.0) && AllDigits(r.value.1) && |r.value.0| + |r.value.1| <= |text|
  {
    var dot := Find(text, {'.'});
    var integer := text[..dot];
    var fraction := if dot == |text| then "" else text[dot + 1..];
    if |integer| + |fraction| == 0 || !AllDigits(integer) || !AllDigits(fraction) then None else Some((integer, fraction))
  }

  predicate Signed(text: string) {
    text != "" && (text[0] == '-' || text[0] == '+')
  }

  /** What follows the sign. */
  function ParseUnsigned(negative: bool, text: string): (r: Option<Parts>)
    ensures r.Some? ==> AllDigits(r.value.integer) && AllDigits(r.value.fraction)
    ensures r.Some? ==> |r.value.integer| + |r.value.fraction| <= |text|
  {
    var e := Find(text, {'e', 'E'});
    var exponent := if e == |text| then Some(0) else ParseI32(text[e + 1..]);
    var mantissa := Mantissa(text[..e]);
    if exponent.None? || mantissa.None? then None
    else Some(Parts(negative, mantissa.value.0, mantissa.value.1, exponent.value))
  }

  /** A decimal with an optional sign, fraction and exponent. */
  function Parse(text: string): (r: Option<Parts>)
    ensures r.Some? ==> AllDigits(r.value.integer) && AllDigits(r.value.fraction)
    ensures r.Some? ==> |r.value.integer| + |r.value.fraction| <= |text|
  {
    ParseUnsigned(Signed(text) && text[0] == '-', if Signed(text) then text[1..] else text)
  }

  function Negated(negative: bool, x: real): real {
    if negative then -x else x
  }

  /** The exact value a text denotes: its mantissa with the point moved by the exponent. */
  ghost function Value(p: Parts): real
    requires AllDigits(p.integer) && AllDigits(p.fraction)
  {
    Negated(p.negative, Shift(Number(p.integer) as real + Shift(Number(p.fraction) as real, -|p.fraction|), p.exponent))
  }

  /** How a coefficient with a scale is written. */
  function Render(coefficient: string, scale: int): string {
    var point := |coefficient| + scale;
    if point <= 0 then "0." + Zeros(-point) + coefficient
    else if point >= |coefficient| then coefficient + Zeros(point - |coefficient|)
    else coefficient[..point] + "." + coefficient[point..]
  }

  function Sign(negative: bool): string {
    if negative then "-" else ""
  }

  /** The limits and the canonical text of a parsed number. */
  function NormalizeParts(p: Parts): Option<string> {
    var leading := TrimStart(p.integer + p.fraction);
    if leading == "" then Some("0")
    else
      var coefficient := TrimEnd(leading);
      if |coefficient| > PRECISION then None
      else if I32(|p.fraction|).None? || I32(p.exponent - |p.fraction|).None? then None
      else if I32(|leading| - |coefficient|).None? then None
      else
        var scale := p.exponent - |p.fraction| + (|leading| - |coefficient|);
        if I32(scale).None? || !InRange(coefficient, scale) then None
        else Some(Sign(p.negative) + Render(coefficient, scale))
  }

  /** Magnitude 1e-128 to 1e126, the latter only exactly. */
  predicate InRange(coefficient: string, scale: int) {
    var magnitude := |coefficient| - 1 + scale;
    MIN_MAGNITUDE <= magnitude <= MAX_MAGNITUDE && (magnitude == MAX_MAGNITUDE ==> coefficient == "1")
  }

  /** `normalize_number`. */
  function Normalize(text: string): Option<string> {
    var parsed := Parse(text);
    if parsed.None? || parsed.value.exponent < -1000 || 1000 < parsed.value.exponent then None
    else NormalizeParts(parsed.value)
  }

  // ----- the value of a parsed text

  ghost predicate WellFormed(text: string) {
    Parse(text).Some? && -1000 <= Parse(text).value.exponent <= 1000
  }

  function Trimmed(p: Parts): (string, int) {
    var leading := TrimStart(p.integer + p.fraction);
    var coefficient := TrimEnd(leading);
    (coefficient, p.exponent - |p.fraction| + (|leading| - |coefficient|))
  }

  lemma TrimmedIsCoefficient(p: Parts)
    requires AllDigits(p.integer) && AllDigits(p.fraction)
    ensures AllDigits(Trimmed(p).0)
    ensures Trimmed(p).0 != "" ==> Coefficient(Trimmed(p).0)
    ensures Trimmed(p).0 == "" <==> TrimStart(p.integer + p.fraction) == ""
  {
    NumberAppend(p.integer, p.fraction);
    TrimStartNumber(p.integer + p.fraction);
    TrimEndNumber(TrimStart(p.integer + p.fraction));
  }

  lemma TrimmedAmount(digits: string, e: int)
    requires AllDigits(digits)
    ensures var leading := TrimStart(digits);
            var coefficient := TrimEnd(leading);
            AllDigits(coefficient) && Amount(digits, e) == Amount(coefficient, e + (|leading| - |coefficient|))
  {
    var leading := TrimStart(digits);
    TrimStartNumber(digits);
    TrimEndNumber(leading);
    ShiftTwice(Number(TrimEnd(leading)) as real, |leading| - |TrimEnd(leading)|, e);
  }

  /** Trimming and moving the point keep the value. */
  lemma TrimmedValue(p: Parts)
    requires AllDigits(p.integer) && AllDigits(p.fraction)
    ensures AllDigits(Trimmed(p).0) && Value(p) == Negated(p.negative, Amount(Trimmed(p).0, Trimmed(p).1))
  {
    var digits := p.integer + p.fraction;
    JoinedValue(p.integer, p.fraction);
    TrimmedAmount(digits, p.exponent - |p.fraction|);
    ShiftTwice(Number(digits) as real, -|p.fraction|, p.exponent);
  }

  lemma JoinedValue(integer: string, fraction: string)
    requires AllDigits(integer) && AllDigits(fraction)
    ensures AllDigits(integer + fraction)
    ensures Number(integer) as real + Shift(Number(fraction) as real, -|fraction|)
            == Shift(Number(integer + fraction) as real, -|fraction|)
  {
    var n := |fraction|;
    NumberAppend(integer, fraction);
    ShiftAdds(Shift(Number(integer) as real, n), Number(fraction) as real, -n);
    ShiftTwice(Number(integer) as real, n, -n);
  }

  // ----- the rendered text

  predicate Plain(c: char) {
    IsDigit(c) || c == '.'
  }

  /** Digits and points only: no exponent. */
  lemma PlainUnsigned(negative: bool, text: string)
    requires (forall i :: 0 <= i < |text| ==> Plain(text[i])) && Mantissa(text).Some?
    ensures ParseUnsigned(negative, text) == Some(Parts(negative, Mantissa(text).value.0, Mantissa(text).value.1, 0))
  {
    var e := Find(text, {'e', 'E'});
    assert e == |text| || Plain(text[e]);
    assert text[..|text|] == text;
  }

  lemma SignStrips(negative: bool, unsigned: string)
    requires unsigned != "" && IsDigit(unsigned[0])
    ensures Parse(Sign(negative) + unsigned) == ParseUnsigned(negative, unsigned)
  {
    var text := Sign(negative) + unsigned;
    if negative { assert text[1..] == unsigned; } else { assert text == unsigned; }
  }

  lemma PlainMantissa(integer: string, fraction: string)
    requires integer != "" && AllDigits(integer) && AllDigits(fraction)
    ensures Mantissa(integer + "." + fraction) == Some((integer, fraction))
    ensures forall i :: 0 <= i < |integer + "." + fraction| ==> Plain((integer + "." + fraction)[i])
  {
    var whole := integer + "." + fraction;
    forall i | 0 <= i < |whole| ensures Plain(whole[i]) {
      if i < |integer| { assert IsDigit(integer[i]); }
      if i > |integer| { assert IsDigit(fraction[i - |integer| - 1]); }
    }
    assert whole[|integer|] == '.';
    assert Find(whole, {'.'}) == |integer|;
    assert whole[..|integer|] == integer && whole[|integer| + 1..] == fraction;
  }

  /** A plain decimal reads back as its integer and fraction. */
  lemma PlainParse(negative: bool, integer: string, fraction: string)
    requires integer != "" && AllDigits(integer) && AllDigits(fraction)
    ensures Parse(Sign(negative) + (integer + "." + fraction)) == Some(Parts(negative, integer, fraction, 0))
  {
    var whole := integer + "." + fraction;
    PlainMantissa(integer, fraction);
    PlainUnsigned(negative, whole);
    assert whole[0] == integer[0];
    SignStrips(negative, whole);
  }

  lemma WholeParse(negative: bool, integer: string)
    requires integer != "" && AllDigits(integer)
    ensures Parse(Sign(negative) + integer) == Some(Parts(negative, integer, "", 0))
  {
    assert Find(integer, {'.'}) == |integer|;
    assert integer[..|integer|] == integer;
    PlainUnsigned(negative, integer);
    SignStrips(negative, integer);
  }

  /** The value of a plain decimal. */
  lemma PlainValue(negative: bool, integer: string, fraction: string)
    requires AllDigits(integer) && AllDigits(fraction)
    ensures AllDigits(integer + fraction)
    ensures Value(Parts(negative, integer, fraction, 0)) == Negated(negative, Amount(integer + fraction, -|fraction|))
  {
    JoinedValue(integer, fraction);
  }

  /** The rendered text denotes the coefficient at its scale. */
  ghost predicate Denotes(text: string, negative: bool, coefficient: string, scale: int)
    requires AllDigits(coefficient)
  {
    var p := Parse(text);
    p.Some? && p.value.exponent == 0 && Value(p.value) == Negated(negative, Amount(coefficient, scale))
  }

  lemma ZerosInFront(zeros: string, c: string)
    requires AllDigits(zeros) && AllDigits(c) && Number(zeros) == 0
    ensures AllDigits(zeros + c) && Number(zeros + c) == Number(c)
  {
    NumberAppend(zeros, c);
    ShiftZero(|c|);
  }

  /** A plain decimal denotes its digits, leading zeros apart, with the point before the fraction. */
  lemma PlainDenotes(negative: bool, integer: string, fraction: string, coefficient: string, text: string)
    requires integer != "" && AllDigits(integer) && AllDigits(fraction) && AllDigits(coefficient)
    requires AllDigits(integer + fraction) && Number(integer + fraction) == Number(coefficient)
    requires text == integer + "." + fraction
    ensures Denotes(Sign(negative) + text, negative, coefficient, -|fraction|)
  {
    PlainValue(negative, integer, fraction);
    PlainParse(negative, integer, fraction);
  }

  lemma WholeDenotes(negative: bool, coefficient: string, zeros: nat, text: string)
    requires Coefficient(coefficient) && text == coefficient + Zeros(zeros)
    ensures Denotes(Sign(negative) + text, negative, coefficient, zeros)
  {
    NumberOfZeros(Zeros(zeros));
    NumberAppend(coefficient, Zeros(zeros));
    PlainValue(negative, text, "");
    assert text + "" == text;
    WholeParse(negative, text);
  }

  /** A rendered text with a point, split at it. */
  lemma RenderSplits(coefficient: string, scale: int) returns (integer: string, fraction: string)
    requires Coefficient(coefficient) && scale < 0
    ensures integer != "" && AllDigits(integer) && AllDigits(fraction) && |fraction| == -scale
    ensures AllDigits(integer + fraction) && Number(integer + fraction) == Number(coefficient)
    ensures Render(coefficient, scale) == integer + "." + fraction
  {
    var point := |coefficient| + scale;
    if point <= 0 {
      integer, fraction := "0", Zeros(-point) + coefficient;
      NumberOfZeros(Zeros(-point));
      NumberOfZeros("0");
      ZerosInFront(Zeros(-point), coefficient);
      ZerosInFront("0", fraction);
      PointAfterZero(Zeros(-point), coefficient);
    } else {
      integer, fraction := coefficient[..point], coefficient[point..];
      assert integer + fraction == coefficient;
    }
  }

  lemma PointAfterZero(zeros: string, c: string)
    ensures "0." + zeros + c == "0" + "." + (zeros + c)
  {
  }

  lemma RenderDenotes(negative: bool, coefficient: string, scale: int)
    requires Coefficient(coefficient)
    ensures Denotes(Sign(negative) + Render(coefficient, scale), negative, coefficient, scale)
  {
    if scale >= 0 {
      WholeDenotes(negative, coefficient, scale, Render(coefficient, scale));
    } else {
      var integer, fraction := RenderSplits(coefficient, scale);
      PlainDenotes(negative, integer, fraction, coefficient, Render(coefficient, scale));
    }
  }

  // ----- exactness and canonicity

  /** A number without its spelling. */
  datatype Decimal = Zero | Nonzero(negative: bool, coefficient: string, scale: int)

  predicate Reduced(d: Decimal) {
    d.Nonzero? ==> Coefficient(d.coefficient)
  }

  function DecimalValue(d: Decimal): real
    requires Reduced(d)
  {
    if d.Zero? then 0.0 else Negated(d.negative, Amount(d.coefficient, d.scale))
  }

  function Written(d: Decimal): string {
    if d.Zero? then "0" else Sign(d.negative) + Render(d.coefficient, d.scale)
  }

  function Reduce(p: Parts): Decimal {
    var (coefficient, scale) := Trimmed(p);
    if coefficient == "" then Zero else Nonzero(p.negative, coefficient, scale)
  }

  lemma ReduceKeepsValue(p: Parts)
    requires AllDigits(p.integer) && AllDigits(p.fraction)
    ensures Reduced(Reduce(p)) && DecimalValue(Reduce(p)) == Value(p)
  {
    TrimmedIsCoefficient(p);
    TrimmedValue(p);
    ShiftZero(Trimmed(p).1);
  }

  lemma ZeroDenotes()
    ensures Parse("0") == Some(Parts(false, "0", "", 0)) && Value(Parts(false, "0", "", 0)) == 0.0
  {
    WholeParse(false, "0");
    assert Sign(false) + "0" == "0";
    NumberOfZeros("0");
    NumberOfZeros("");
  }

  ghost function ValueOf(text: string): real
    requires Parse(text).Some?
  {
    Value(Parse(text).value)
  }

  lemma WrittenDenotes(d: Decimal, text: string)
    requires Reduced(d) && text == Written(d)
    ensures Parse(text).Some? && Parse(text).value.exponent == 0 && ValueOf(text) == DecimalValue(d)
  {
    if d.Zero? {
      ZeroDenotes();
    } else {
      RenderDenotes(d.negative, d.coefficient, d.scale);
    }
  }

  lemma DecimalInjective(d: Decimal, e: Decimal)
    requires Reduced(d) && Reduced(e) && DecimalValue(d) == DecimalValue(e)
    ensures d == e
  {
    if d.Nonzero? { AmountBounds(d.coefficient, d.scale); }
    if e.Nonzero? { AmountBounds(e.coefficient, e.scale); }
    if d.Nonzero? && e.Nonzero? { AmountInjective(d.coefficient, d.scale, e.coefficient, e.scale); }
  }

  lemma PartsAreWritten(p: Parts)
    requires NormalizeParts(p).Some?
    ensures NormalizeParts(p).value == Written(Reduce(p))
  {
  }

  /** What an accepted text becomes. */
  lemma NormalizeWrites(text: string) returns (d: Decimal, result: string)
    requires Normalize(text).Some?
    ensures WellFormed(text) && Normalize(text) == Some(result)
    ensures Reduced(d) && DecimalValue(d) == ValueOf(text) && result == Written(d)
  {
    var p := Parse(text).value;
    d, result := Reduce(p), Normalize(text).value;
    ReduceKeepsValue(p);
    PartsAreWritten(p);
  }

  /** An accepted number keeps its exact value, and is written without an exponent. */
  lemma NormalizeKeepsValue(text: string)
    requires Normalize(text).Some?
    ensures Parse(text).Some? && Parse(Normalize(text).value).Some?
    ensures ValueOf(Normalize(text).value) == ValueOf(text) && Parse(Normalize(text).value).value.exponent == 0
  {
    var d, result := NormalizeWrites(text);
    WrittenDenotes(d, result);
  }

  /** Two accepted numbers are written alike exactly when they are equal. */
  lemma NormalizeCanonical(a: string, b: string)
    requires Normalize(a).Some? && Normalize(b).Some?
    ensures Parse(a).Some? && Parse(b).Some?
    ensures Normalize(a) == Normalize(b) <==> ValueOf(a) == ValueOf(b)
  {
    var d, written := NormalizeWrites(a);
    var e, other := NormalizeWrites(b);
    WrittenDenotes(d, written);
    WrittenDenotes(e, other);
    if ValueOf(a) == ValueOf(b) { DecimalInjective(d, e); }
  }

  // ----- acceptance

  /** Zero, or at most 38 significant digits between 1e-128 and 1e126. */
  ghost predicate Acceptable(v: real) {
    var size := if v < 0.0 then -v else v;
    v == 0.0 || (Shift(1.0, -128) <= size <= Shift(1.0, 126) && Short(size))
  }

  ghost predicate Short(size: real) {
    exists c: nat, s: int :: c < ShiftUp(1, 38) && size == Whole(c, s)
  }

  ghost function Whole(c: nat, s: int): real {
    Shift(c as real, s)
  }

  /** Few significant digits: the trimmed coefficient is the smallest way to write the value. */
  lemma Precise(coefficient: string, scale: int)
    requires Coefficient(coefficient)
    ensures |coefficient| <= PRECISION <==> Short(Amount(coefficient, scale))
  {
    NumberBounds(coefficient);
    var n := Number(coefficient);
    if |coefficient| <= PRECISION {
      TensGrow(|coefficient|, PRECISION);
      assert Amount(coefficient, scale) == Whole(n, scale);
    } else {
      TensGrow(PRECISION, |coefficient| - 1);
    }
    if Short(Amount(coefficient, scale)) {
      var c: nat, s: int :| c < ShiftUp(1, PRECISION) && Amount(coefficient, scale) == Whole(c, s);
      CoefficientNotTens(coefficient);
      if scale < s {
        Rescale(n, scale, c, s);
      } else {
        Rescale(c, s, n, scale);
      }
    }
  }

  lemma {:induction false} TensGrow(a: nat, b: nat)
    requires a <= b
    ensures ShiftUp(1, a) <= ShiftUp(1, b)
    decreases b - a
  {
    if a < b { TensGrow(a, b - 1); }
  }

  lemma RangeIsByValue(coefficient: string, scale: int)
    requires Coefficient(coefficient)
    ensures InRange(coefficient, scale) <==> Shift(1.0, MIN_MAGNITUDE) <= Amount(coefficient, scale) <= Shift(1.0, MAX_MAGNITUDE)
  {
    var magnitude := |coefficient| - 1 + scale;
    AmountBounds(coefficient, scale);
    PowersGrow(magnitude + 1, MIN_MAGNITUDE);
    PowersGrow(MIN_MAGNITUDE, magnitude);
    PowersGrow(MAX_MAGNITUDE, magnitude);
    PowersGrow(magnitude + 1, MAX_MAGNITUDE);
  }

  lemma PowersGrow(a: int, b: int)
    ensures a <= b ==> Shift(1.0, a) <= Shift(1.0, b)
    ensures a < b ==> Shift(1.0, a) < Shift(1.0, b)
  {
    if a < b { ShiftGrows(1.0, a, b); }
  }

  lemma AcceptableAmount(negative: bool, coefficient: string, scale: int)
    requires Coefficient(coefficient)
    ensures Acceptable(Negated(negative, Amount(coefficient, scale)))
            <==> |coefficient| <= PRECISION && InRange(coefficient, scale)
  {
    AmountBounds(coefficient, scale);
    Precise(coefficient, scale);
    RangeIsByValue(coefficient, scale);
  }

  predicate WithinLimits(p: Parts) {
    var (coefficient, scale) := Trimmed(p);
    coefficient == "" || (|coefficient| <= PRECISION && InRange(coefficient, scale))
  }

  /** Whether the trimmed parts are within the limits is a question about the value. */
  lemma LimitsAreByValue(p: Parts)
    requires AllDigits(p.integer) && AllDigits(p.fraction)
    ensures Acceptable(Value(p)) <==> WithinLimits(p)
  {
    TrimmedValue(p);
    TrimmedIsCoefficient(p);
    var (coefficient, scale) := Trimmed(p);
    if coefficient == "" {
      ShiftZero(scale);
    } else {
      AcceptableAmount(p.negative, coefficient, scale);
    }
  }

  lemma NormalizeLimits(p: Parts)
    requires AllDigits(p.integer) && AllDigits(p.fraction) && -1000 <= p.exponent <= 1000
    ensures NormalizeParts(p).Some? ==> WithinLimits(p)
    ensures |p.integer| + |p.fraction| <= I32_MAX - 1000 && WithinLimits(p) ==> NormalizeParts(p).Some?
  {
  }

  lemma AcceptedIsAcceptable(text: string)
    requires Normalize(text).Some?
    ensures WellFormed(text) && Acceptable(ValueOf(text))
  {
    NormalizeLimits(Parse(text).value);
    LimitsAreByValue(Parse(text).value);
  }

  /** A well-formed text is accepted exactly when its value is acceptable, however it is written. */
  lemma AcceptanceIsByValue(text: string)
    requires |text| <= I32_MAX - 1000
    ensures Normalize(text).Some? <==> WellFormed(text) && Acceptable(ValueOf(text))
  {
    if Normalize(text).Some? {
      AcceptedIsAcceptable(text);
    } else if WellFormed(text) {
      NormalizeLimits(Parse(text).value);
      LimitsAreByValue(Parse(text).value);
    }
  }

  /** The result takes at most 168 bytes. */
  lemma NormalizeIsShort(text: string)
    requires Normalize(text).Some?
    ensures |Normalize(text).value| <= 168
  {
  }

  /** Normalising twice changes nothing. */
  lemma NormalizeIdempotent(text: string)
    requires Normalize(text).Some?
    ensures Normalize(Normalize(text).value) == Normalize(text)
  {
    var once := Normalize(text).value;
    NormalizeIsShort(text);
    NormalizeKeepsValue(text);
    AcceptedIsAcceptable(text);
    AcceptanceIsByValue(once);
    NormalizeCanonical(once, text);
  }
}
