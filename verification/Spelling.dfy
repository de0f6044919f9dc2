/** How decimals are spelled: the grammar that is read, and the layout that is written. */
module Spelling {
  import opened Identifiers
  import opened Decimals
  import opened Numbers

  /** Digits with at most one point among them: integer and fraction, not both empty. */
  predicate SpellsMantissa(text: string, integer: string, fraction: string) {
    && AllDigits(integer) && AllDigits(fraction) && integer + fraction != ""
    && (text == integer + "." + fraction || (text == integer && fraction == ""))
  }

  predicate IsMark(text: string) {
    text == "e" || text == "E"
  }

  predicate IsSign(text: string) {
    text == "" || text == "+" || text == "-"
  }

  /** Nothing, or an exponent mark, an optional sign and digits, within 32 bits. */
  ghost predicate SpellsExponent(text: string, exponent: int) {
    || (text == "" && exponent == 0)
    || exists mark: string, sign: string, digits: string :: IsExponent(text, exponent, mark, sign, digits)
  }

  predicate IsExponent(text: string, exponent: int, mark: string, sign: string, digits: string) {
    && text == mark + sign + digits && IsMark(mark) && IsSign(sign) && digits != "" && AllDigits(digits)
    && exponent == (if sign == "-" then -(Number(digits) as int) else Number(digits))
    && -0x8000_0000 <= exponent <= 0x7fff_ffff
  }

  /** The text is a sign, a mantissa and an exponent with these parts. */
  ghost predicate Spells(text: string, p: Parts) {
    exists sign: string, mantissa: string, tail: string :: IsDecimal(text, p, sign, mantissa, tail)
  }

  ghost predicate IsDecimal(text: string, p: Parts, sign: string, mantissa: string, tail: string) {
    && text == sign + mantissa + tail && IsSign(sign) && (p.negative <==> sign == "-")
    && SpellsMantissa(mantissa, p.integer, p.fraction) && SpellsExponent(tail, p.exponent)
  }

  // ----- the exponent

  lemma ExponentIsRead(sign: string, digits: string)
    requires IsSign(sign) && digits != "" && AllDigits(digits)
    ensures ParseI32(sign + digits) == I32(if sign == "-" then -(Number(digits) as int) else Number(digits))
  {
    var text := sign + digits;
    assert IsDigit(digits[0]);
    if sign == "" { assert text == digits; } else { assert text[1..] == digits; }
  }

  lemma ReadIsExponent(text: string, mark: string)
    requires ParseI32(text).Some? && IsMark(mark)
    ensures SpellsExponent(mark + text, ParseI32(text).value)
  {
    var sign, digits := if Signed(text) then [text[0]] else "", if Signed(text) then text[1..] else text;
    assert text == sign + digits;
    Regroup(mark, sign, digits);
    assert IsExponent(mark + text, ParseI32(text).value, mark, sign, digits);
  }

  // ----- the mantissa

  lemma MantissaIsRead(text: string, integer: string, fraction: string)
    requires SpellsMantissa(text, integer, fraction)
    ensures Mantissa(text) == Some((integer, fraction))
    ensures forall i :: 0 <= i < |text| ==> Plain(text[i])
  {
    if text == integer + "." + fraction {
      forall i | 0 <= i < |text| ensures Plain(text[i]) {
        if i < |integer| { assert IsDigit(integer[i]); } else if i > |integer| { assert IsDigit(fraction[i - |integer| - 1]); }
      }
      assert text[|integer|] == '.' && Find(text, {'.'}) == |integer|;
      assert text[..|integer|] == integer && text[|integer| + 1..] == fraction;
    } else {
      assert Find(text, {'.'}) == |text| && text[..|text|] == text;
    }
  }

  lemma ReadIsMantissa(text: string)
    requires Mantissa(text).Some?
    ensures SpellsMantissa(text, Mantissa(text).value.0, Mantissa(text).value.1)
  {
    var dot := Find(text, {'.'});
    if dot < |text| { assert text == text[..dot] + "." + text[dot + 1..]; }
  }

  // ----- the whole text

  lemma MarkIsFound(mantissa: string, tail: string)
    requires forall i :: 0 <= i < |mantissa| ==> Plain(mantissa[i])
    requires tail == "" || tail[0] in {'e', 'E'}
    ensures Find(mantissa + tail, {'e', 'E'}) == |mantissa|
  {
    var text := mantissa + tail;
    assert forall i :: 0 <= i < |mantissa| ==> text[i] == mantissa[i];
    assert tail != "" ==> text[|mantissa|] == tail[0];
  }

  /** What the reader makes of the two sides of an exponent mark. */
  function FromSides(negative: bool, mantissa: Option<(string, string)>, exponent: Option<int>): Option<Parts> {
    if exponent.None? || mantissa.None? then None else Some(Parts(negative, mantissa.value.0, mantissa.value.1, exponent.value))
  }

  lemma SplitAtMark(negative: bool, text: string, mantissa: string, rest: string)
    requires Find(text, {'e', 'E'}) == |mantissa| < |text|
    requires text[..|mantissa|] == mantissa && text[|mantissa| + 1..] == rest
    ensures ParseUnsigned(negative, text) == FromSides(negative, Mantissa(mantissa), ParseI32(rest))
  {
    var e := Find(text, {'e', 'E'});
    assert text[..e] == mantissa && text[e + 1..] == rest;
    var front, back := Mantissa(text[..e]), ParseI32(text[e + 1..]);
    assert ParseUnsigned(negative, text) == FromSides(negative, front, back);
  }

  lemma NoMark(negative: bool, text: string)
    requires Find(text, {'e', 'E'}) == |text|
    ensures ParseUnsigned(negative, text) == FromSides(negative, Mantissa(text), Some(0))
  {
    assert text[..|text|] == text;
  }

  lemma UnsignedIsRead(negative: bool, mantissa: string, tail: string, p: Parts)
    requires SpellsMantissa(mantissa, p.integer, p.fraction) && SpellsExponent(tail, p.exponent)
    ensures ParseUnsigned(negative, mantissa + tail) == Some(p.(negative := negative))
  {
    MantissaIsRead(mantissa, p.integer, p.fraction);
    if tail == "" {
      MarkIsFound(mantissa, tail);
      assert mantissa + tail == mantissa;
      NoMark(negative, mantissa);
    } else {
      var sign, digits := ExponentSides(tail, p.exponent);
      MarkIsFound(mantissa, tail);
      Sides(mantissa, tail);
      SplitAtMark(negative, mantissa + tail, mantissa, tail[1..]);
      ExponentIsRead(sign, digits);
    }
  }

  lemma Sides(mantissa: string, tail: string)
    requires tail != ""
    ensures (mantissa + tail)[..|mantissa|] == mantissa && (mantissa + tail)[|mantissa| + 1..] == tail[1..]
  {
  }

  lemma ExponentSides(tail: string, exponent: int) returns (sign: string, digits: string)
    requires tail != "" && SpellsExponent(tail, exponent)
    ensures tail[0] in {'e', 'E'} && tail[1..] == sign + digits && IsSign(sign) && digits != "" && AllDigits(digits)
    ensures Some(exponent) == I32(if sign == "-" then -(Number(digits) as int) else Number(digits))
  {
    var mark: string;
    mark, sign, digits :| IsExponent(tail, exponent, mark, sign, digits);
  }

  lemma SignIsStripped(sign: string, unsigned: string)
    requires IsSign(sign) && unsigned != "" && Plain(unsigned[0])
    ensures Parse(sign + unsigned) == ParseUnsigned(sign == "-", unsigned)
  {
    var text := sign + unsigned;
    if sign == "" { assert text == unsigned; } else { assert text[1..] == unsigned; }
  }

  lemma SpelledIsRead(text: string, p: Parts)
    requires Spells(text, p)
    ensures Parse(text) == Some(p)
  {
    var sign, mantissa, tail :| IsDecimal(text, p, sign, mantissa, tail);
    MantissaIsRead(mantissa, p.integer, p.fraction);
    Regroup(sign, mantissa, tail);
    SignIsStripped(sign, mantissa + tail);
    UnsignedIsRead(sign == "-", mantissa, tail, p);
  }

  lemma Regroup(sign: string, mantissa: string, tail: string)
    ensures sign + mantissa + tail == sign + (mantissa + tail)
    ensures mantissa != "" ==> (mantissa + tail)[0] == mantissa[0]
  {
  }

  lemma ReadIsUnsigned(negative: bool, text: string) returns (mantissa: string, tail: string)
    requires ParseUnsigned(negative, text).Some?
    ensures var p := ParseUnsigned(negative, text).value;
            text == mantissa + tail && SpellsMantissa(mantissa, p.integer, p.fraction) && SpellsExponent(tail, p.exponent) && p.negative == negative
  {
    var e := Find(text, {'e', 'E'});
    mantissa, tail := text[..e], text[e..];
    if e == |text| {
      assert mantissa == text;
      NoMark(negative, text);
      ReadIsMantissa(text);
    } else {
      CutAt(text, e);
      SplitAtMark(negative, text, mantissa, text[e + 1..]);
      ReadIsMantissa(mantissa);
      ReadIsExponent(text[e + 1..], [text[e]]);
    }
  }

  lemma CutAt(text: string, e: nat)
    requires e < |text|
    ensures text == text[..e] + text[e..] && text[e..] == [text[e]] + text[e + 1..]
  {
  }

  lemma ReadIsSpelled(text: string)
    requires Parse(text).Some?
    ensures Spells(text, Parse(text).value)
  {
    var sign, unsigned := if Signed(text) then [text[0]] else "", if Signed(text) then text[1..] else text;
    assert text == sign + unsigned;
    var mantissa, tail := ReadIsUnsigned(sign == "-", unsigned);
    Regroup(sign, mantissa, tail);
    assert IsDecimal(text, Parse(text).value, sign, mantissa, tail);
  }

  /** A text is read as a decimal exactly when it is spelled as one, and then as what it spells. */
  lemma ReadsExactly(text: string, p: Parts)
    ensures Parse(text) == Some(p) <==> Spells(text, p)
  {
    if Parse(text) == Some(p) { ReadIsSpelled(text); }
    if Spells(text, p) { SpelledIsRead(text, p); }
  }

  // ----- what the exponent means

  lemma {:induction false} ShiftNegates(x: real, e: int)
    ensures Shift(-x, e) == -Shift(x, e)
  {
    ShiftAdds(x, -x, e);
    ShiftZero(e);
  }

  /** The value of a spelled text is that of its parts. */
  lemma SpelledValue(text: string, p: Parts)
    requires Spells(text, p)
    ensures Parse(text).Some? && AllDigits(p.integer) && AllDigits(p.fraction) && ValueOf(text) == Value(p)
  {
    SpelledIsRead(text, p);
  }

  lemma PartsShift(p: Parts, exponent: int)
    requires AllDigits(p.integer) && AllDigits(p.fraction) && p.exponent == 0
    ensures Value(p.(exponent := exponent)) == Shift(Value(p), exponent)
  {
    ShiftNegates(Number(p.integer) as real + Shift(Number(p.fraction) as real, -|p.fraction|), exponent);
  }

  lemma ExponentAppends(text: string, p: Parts, sign: string, mantissa: string, tail: string, exponent: int)
    requires IsDecimal(text, p, sign, mantissa, "") && p.exponent == 0 && SpellsExponent(tail, exponent)
    ensures Spells(text, p) && Spells(text + tail, p.(exponent := exponent))
  {
    assert text == sign + mantissa;
    assert IsDecimal(text + tail, p.(exponent := exponent), sign, mantissa, tail);
  }

  /** An exponent behind a text without one moves its point: to the right, or behind a minus sign to the left. */
  lemma ExponentMovesPoint(text: string, p: Parts, sign: string, mantissa: string, tail: string, exponent: int)
    requires IsDecimal(text, p, sign, mantissa, "") && p.exponent == 0 && SpellsExponent(tail, exponent)
    ensures Parse(text).Some? && Parse(text + tail).Some? && ValueOf(text + tail) == Shift(ValueOf(text), exponent)
  {
    ExponentAppends(text, p, sign, mantissa, tail, exponent);
    SpelledValue(text, p);
    SpelledValue(text + tail, p.(exponent := exponent));
    PartsShift(p, exponent);
  }

  /** The ten digits, in order, are the numbers below ten. */
  lemma DigitsCount(n: nat)
    requires n < 10
    ensures AllDigits(["0123456789"[n]]) && Number(["0123456789"[n]]) == n
  {
    var s := ["0123456789"[n]];
    assert s[..0] == "";
  }

  // ----- the written text

  /** No spare zero: the integer starts with one only if it is "0", and a fraction, if there is one, does not end with one. */
  predicate Tidy(integer: string, fraction: string) {
    && integer != "" && AllDigits(integer) && AllDigits(fraction)
    && (|integer| > 1 ==> integer[0] != '0') && (fraction != "" ==> fraction[|fraction| - 1] != '0')
  }

  function WithPoint(integer: string, fraction: string): string {
    if fraction == "" then integer else integer + "." + fraction
  }

  lemma RenderedTidily(coefficient: string, scale: int) returns (integer: string, fraction: string)
    requires Coefficient(coefficient)
    ensures Tidy(integer, fraction) && Render(coefficient, scale) == WithPoint(integer, fraction)
  {
    var point := |coefficient| + scale;
    if scale >= 0 {
      integer, fraction := coefficient + Zeros(scale), "";
    } else if point <= 0 {
      integer, fraction := "0", Zeros(-point) + coefficient;
      PointAfterZero(Zeros(-point), coefficient);
    } else {
      integer, fraction := coefficient[..point], coefficient[point..];
    }
  }

  /** An accepted number is written as an integer and a fraction without spare zeros, behind a minus sign exactly when it is negative. */
  lemma NormalizeIsTidy(text: string) returns (integer: string, fraction: string)
    requires Normalize(text).Some?
    ensures Parse(text).Some? && Tidy(integer, fraction)
    ensures Normalize(text).value == (if ValueOf(text) < 0.0 then "-" else "") + WithPoint(integer, fraction)
  {
    var d, result := NormalizeWrites(text);
    if d.Zero? {
      integer, fraction := "0", "";
    } else {
      integer, fraction := RenderedTidily(d.coefficient, d.scale);
      AmountBounds(d.coefficient, d.scale);
    }
  }
}
