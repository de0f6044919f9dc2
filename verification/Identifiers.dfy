/** Message ids and receipt handles: fixed-format text around hexadecimal numbers. */
module Identifiers {

  datatype Option<+T> = None | Some(value: T) {
    function GetOr(default: T): T {
      if Some? then value else default
    }
  }

  function HexDigit(d: nat): char
    requires d < 16
  {
    if d < 10 then ('0' as int + d) as char else ('a' as int + d - 10) as char
  }

  /** Rust's `{:0widthx}`: at least `width` digits, more when the number needs them. */
  function Hex(n: nat, width: nat): string
    decreases n, width
  {
    if n == 0 && width == 0 then ""
    else Hex(n / 16, if width == 0 then 0 else width - 1) + [HexDigit(n % 16)]
  }

  function DigitValue(c: char): (r: Option<nat>)
    ensures r.Some? ==> r.value < 16
  {
    if '0' <= c <= '9' then Some((c - '0') as nat)
    else if 'a' <= c <= 'f' then Some((c - 'a') as nat + 10)
    else if 'A' <= c <= 'F' then Some((c - 'A') as nat + 10)
    else None
  }

  /** `u64::from_str_radix(text, 16)` on a nonempty run of digits. */
  function FromHex(text: string): Option<nat> {
    if text == "" then None
    else
      var last := DigitValue(text[|text| - 1]);
      if last.None? then None
      else if |text| == 1 then last
      else
        var high := FromHex(text[..|text| - 1]);
        if high.None? then None else Some(16 * high.value + last.value)
  }

  lemma {:induction false} HexLength(n: nat, width: nat)
    ensures |Hex(n, width)| >= width
    ensures n > 0 ==> |Hex(n, width)| > 0
    decreases n, width
  {
    if n != 0 || width != 0 { HexLength(n / 16, if width == 0 then 0 else width - 1); }
  }

  /** A nonempty hexadecimal text, split before its last digit. */
  lemma HexSplits(n: nat, width: nat)
    requires n != 0 || width != 0
    ensures var text := Hex(n, width);
            && text != "" && text[..|text| - 1] == Hex(n / 16, if width == 0 then 0 else width - 1)
            && DigitValue(text[|text| - 1]) == Some(n % 16)
  {
  }

  lemma {:induction false} HexRoundTrip(n: nat, width: nat)
    ensures Hex(n, width) != "" ==> FromHex(Hex(n, width)) == Some(n)
    ensures Hex(n, width) == "" ==> n == 0
    decreases n, width
  {
    if n != 0 || width != 0 {
      var w := if width == 0 then 0 else width - 1;
      HexRoundTrip(n / 16, w);
      HexSplits(n, width);
      assert n == 16 * (n / 16) + n % 16;
    }
  }

  lemma {:induction false} HexHasNoDash(n: nat, width: nat)
    ensures '-' !in Hex(n, width)
    decreases n, width
  {
    if n != 0 || width != 0 { HexHasNoDash(n / 16, if width == 0 then 0 else width - 1); }
  }

  const MESSAGE_PREFIX := "msg-"

  function MessageId(sequence: nat): string {
    MESSAGE_PREFIX + Hex(sequence, 16)
  }

  /** The number a message id was made from, as the receive path recovers it. */
  function IdNumber(id: string): Option<nat> {
    if |id| >= 4 && id[..4] == MESSAGE_PREFIX then FromHex(id[4..]) else None
  }

  lemma MessageIdRoundTrip(sequence: nat)
    ensures IdNumber(MessageId(sequence)) == Some(sequence)
  {
    HexRoundTrip(sequence, 16);
    HexLength(sequence, 16);
    assert MessageId(sequence)[..4] == MESSAGE_PREFIX;
    assert MessageId(sequence)[4..] == Hex(sequence, 16);
  }

  function ReceiptHandle(sequence: nat, count: nat, now: nat): string {
    "receipt-" + Hex(sequence, 16) + "-" + Hex(count, 8) + "-" + Hex(now, 16)
  }

  lemma SplitAtDash(a: string, x: string, b: string, y: string)
    requires '-' !in a && '-' !in b
    requires a + "-" + x == b + "-" + y
    ensures a == b && x == y
  {
    var l, r := a + "-" + x, b + "-" + y;
    assert l[|a|] == '-' && r[|b|] == '-';
    assert forall i :: 0 <= i < |a| ==> l[i] == a[i];
    assert forall i :: 0 <= i < |b| ==> r[i] == b[i];
    assert |a| == |b|;
    assert a == l[..|a|] == r[..|b|] == b;
    assert x == l[|a| + 1..] == r[|b| + 1..] == y;
  }

  /** The receipt handle text determines the sequence, the delivery count and the time. */
  lemma ReceiptHandleInjective(s1: nat, c1: nat, t1: nat, s2: nat, c2: nat, t2: nat)
    requires ReceiptHandle(s1, c1, t1) == ReceiptHandle(s2, c2, t2)
    ensures s1 == s2 && c1 == c2 && t1 == t2
  {
    var x1 := Hex(c1, 8) + "-" + Hex(t1, 16);
    var x2 := Hex(c2, 8) + "-" + Hex(t2, 16);
    var y1, y2 := Hex(s1, 16) + "-" + x1, Hex(s2, 16) + "-" + x2;
    assert ReceiptHandle(s1, c1, t1) == "receipt-" + y1;
    assert ReceiptHandle(s2, c2, t2) == "receipt-" + y2;
    assert y1 == ("receipt-" + y1)[8..] == ("receipt-" + y2)[8..] == y2;
    HexHasNoDash(s1, 16); HexHasNoDash(s2, 16); HexHasNoDash(c1, 8); HexHasNoDash(c2, 8);
    SplitAtDash(Hex(s1, 16), x1, Hex(s2, 16), x2);
    SplitAtDash(Hex(c1, 8), Hex(t1, 16), Hex(c2, 8), Hex(t2, 16));
    HexRoundTrip(s1, 16); HexRoundTrip(s2, 16);
    HexRoundTrip(c1, 8); HexRoundTrip(c2, 8);
    HexRoundTrip(t1, 16); HexRoundTrip(t2, 16);
  }

  /** A handle that some delivery number `count` of row `sequence` produced. */
  ghost predicate HandleOf(handle: string, sequence: nat, count: nat) {
    exists now: nat :: handle == ReceiptHandle(sequence, count, now)
  }

  lemma HandleDetermines(handle: string, s1: nat, c1: nat, s2: nat, c2: nat)
    requires HandleOf(handle, s1, c1) && HandleOf(handle, s2, c2)
    ensures s1 == s2 && c1 == c2
  {
    var t1: nat :| handle == ReceiptHandle(s1, c1, t1);
    var t2: nat :| handle == ReceiptHandle(s2, c2, t2);
    ReceiptHandleInjective(s1, c1, t1, s2, c2, t2);
  }
}
