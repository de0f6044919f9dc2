/** The byte stream that `message_attributes_md5` hashes, and why it identifies the attributes. */
module Digest {
  import opened Identifiers
  import opened Ordering

  datatype AttributeValue = Text(text: string) | Binary(bytes: string) {
    function Bytes(): string {
      if Text? then text else bytes
    }
  }

  datatype Attribute = Attribute(dataType: string, value: AttributeValue)

  datatype Entry = Entry(name: string, attribute: Attribute)

  const WORD := 0x1_0000_0000

  // ----- lengths

  /** `(len as u32).to_be_bytes()`, the cast included. */
  function LengthBytes(n: nat): (r: string)
    ensures |r| == 4
  {
    var m := n % WORD;
    [(m / 0x100_0000) as char, (m / 0x1_0000 % 0x100) as char, (m / 0x100 % 0x100) as char, (m % 0x100) as char]
  }

  function ReadLength(s: string): nat
    requires |s| >= 4
  {
    s[0] as nat * 0x100_0000 + s[1] as nat * 0x1_0000 + s[2] as nat * 0x100 + s[3] as nat
  }

  lemma LengthRoundTrip(n: nat, rest: string)
    ensures ReadLength(LengthBytes(n) + rest) == n % 0x1_0000_0000
  {
    var m := n % WORD;
    assert m / 0x1_0000 == m / 0x100_0000 * 0x100 + m / 0x1_0000 % 0x100;
    assert m / 0x100 == m / 0x1_0000 * 0x100 + m / 0x100 % 0x100;
  }

  // ----- the stream

  function Field(bytes: string): string {
    LengthBytes(|bytes|) + bytes
  }

  function Tag(v: AttributeValue): char {
    if v.Text? then 1 as char else 2 as char
  }

  function EncodeEntry(e: Entry): string {
    Field(e.name) + Field(e.attribute.dataType) + [Tag(e.attribute.value)] + Field(e.attribute.value.Bytes())
  }

  function Encode(entries: seq<Entry>): string {
    if entries == [] then "" else EncodeEntry(entries[0]) + Encode(entries[1..])
  }

  /** A BTreeMap in iteration order. */
  function Entries(attributes: map<string, Attribute>): seq<Entry> {
    Listed(Alphabetical(attributes.Keys), attributes)
  }

  function Listed(names: seq<string>, attributes: map<string, Attribute>): (r: seq<Entry>)
    requires forall n :: n in names ==> n in attributes
    ensures |r| == |names| && forall i :: 0 <= i < |names| ==> r[i] == Entry(names[i], attributes[names[i]])
  {
    if names == [] then [] else [Entry(names[0], attributes[names[0]])] + Listed(names[1..], attributes)
  }

  /** What the digest of `message_attributes_md5` consumes; None without attributes. */
  method DigestInput(attributes: map<string, Attribute>) returns (stream: Option<string>)
    ensures stream == if attributes == map[] then None else Some(Encode(Entries(attributes)))
  {
    if attributes == map[] {
      return None;
    }
    var entries := Entries(attributes);
    var digest := "";
    for k := 0 to |entries|
      invariant digest == Encode(entries[..k])
    {
      digest := ConsumeEntry(digest, entries[k]);
      EncodeGrows(entries, k);
    }
    assert entries[..|entries|] == entries;
    return Some(digest);
  }

  lemma {:induction false} EncodeGrows(entries: seq<Entry>, k: nat)
    requires k < |entries|
    ensures Encode(entries[..k + 1]) == Encode(entries[..k]) + EncodeEntry(entries[k])
  {
    if k == 0 {
      assert entries[..1][1..] == [];
    } else {
      EncodeGrows(entries[1..], k - 1);
      assert entries[..k + 1][1..] == entries[1..][..k] && entries[..k][1..] == entries[1..][..k - 1];
      Associate(EncodeEntry(entries[0]), Encode(entries[1..][..k - 1]), EncodeEntry(entries[k]));
    }
  }

  lemma Associate(a: string, b: string, c: string)
    ensures a + (b + c) == (a + b) + c
  {
  }

  /** One attribute: name, type, tag and value, each field after its length. */
  method ConsumeEntry(before: string, e: Entry) returns (digest: string)
    ensures digest == before + EncodeEntry(e)
  {
    digest := before;
    var fields := [e.name, e.attribute.dataType];
    for f := 0 to 2
      invariant digest == before + (if f == 0 then "" else if f == 1 then Field(e.name)
                                    else Field(e.name) + Field(e.attribute.dataType))
    {
      digest := digest + LengthBytes(|fields[f]|);
      digest := digest + fields[f];
    }
    digest := digest + [Tag(e.attribute.value)];
    var bytes := e.attribute.value.Bytes();
    digest := digest + LengthBytes(|bytes|);
    digest := digest + bytes;
  }

  // ----- reading it back

  /** A length, then that many bytes. */
  function ReadField(s: string): (r: Option<(string, string)>)
    ensures r.Some? ==> |r.value.1| < |s|
  {
    if |s| < 4 || |s| < 4 + ReadLength(s) then None
    else Some((s[4..4 + ReadLength(s)], s[4 + ReadLength(s)..]))
  }

  function ReadEntry(s: string): (r: Option<(Entry, string)>)
    ensures r.Some? ==> |r.value.1| < |s|
  {
    var name := ReadField(s);
    if name.None? then None else
      var kind := ReadField(name.value.1);
      if kind.None? || kind.value.1 == "" then None else
        var bytes := ReadField(kind.value.1[1..]);
        if bytes.None? then None
        else if kind.value.1[0] == 1 as char then Some((Entry(name.value.0, Attribute(kind.value.0, Text(bytes.value.0))), bytes.value.1))
        else if kind.value.1[0] == 2 as char then Some((Entry(name.value.0, Attribute(kind.value.0, Binary(bytes.value.0))), bytes.value.1))
        else None
  }

  function Decode(s: string): Option<seq<Entry>>
    decreases |s|
  {
    if s == "" then Some([]) else
      var first := ReadEntry(s);
      if first.None? then None else
        var rest := Decode(first.value.1);
        if rest.None? then None else Some([first.value.0] + rest.value)
  }

  /** Every field fits its 32-bit length. */
  predicate Fits(e: Entry) {
    |e.name| < 0x1_0000_0000 && |e.attribute.dataType| < 0x1_0000_0000 && |e.attribute.value.Bytes()| < 0x1_0000_0000
  }

  lemma FieldRoundTrip(bytes: string, rest: string)
    requires |bytes| < WORD
    ensures ReadField(Field(bytes) + rest) == Some((bytes, rest))
  {
    var s := Field(bytes) + rest;
    assert s == LengthBytes(|bytes|) + (bytes + rest);
    LengthRoundTrip(|bytes|, bytes + rest);
    assert s[4..4 + |bytes|] == bytes && s[4 + |bytes|..] == rest;
  }

  lemma Regroup(a: string, b: string, c: string, d: string, rest: string)
    ensures a + b + c + d + rest == a + (b + (c + (d + rest)))
  {
  }

  lemma PartsRoundTrip(name: string, kind: string, tag: char, bytes: string, rest: string)
    requires |name| < WORD && |kind| < WORD && |bytes| < WORD && (tag == 1 as char || tag == 2 as char)
    ensures ReadEntry(Field(name) + (Field(kind) + ([tag] + (Field(bytes) + rest))))
            == Some((Entry(name, Attribute(kind, if tag == 1 as char then Text(bytes) else Binary(bytes))), rest))
  {
    var tagged := [tag] + (Field(bytes) + rest);
    FieldRoundTrip(name, Field(kind) + tagged);
    FieldRoundTrip(kind, tagged);
    TagStrips(tag, Field(bytes) + rest);
    FieldRoundTrip(bytes, rest);
  }

  lemma EntryFromParts(e: Entry)
    ensures var v := e.attribute.value;
            && (Tag(v) == 1 as char || Tag(v) == 2 as char)
            && e == Entry(e.name, Attribute(e.attribute.dataType, if Tag(v) == 1 as char then Text(v.Bytes()) else Binary(v.Bytes())))
  {
  }

  lemma EntryGroups(e: Entry, rest: string)
    ensures EncodeEntry(e) + rest
         == Field(e.name) + (Field(e.attribute.dataType) + ([Tag(e.attribute.value)] + (Field(e.attribute.value.Bytes()) + rest)))
  {
    Regroup(Field(e.name), Field(e.attribute.dataType), [Tag(e.attribute.value)], Field(e.attribute.value.Bytes()), rest);
  }

  lemma EntryRoundTrip(e: Entry, rest: string)
    requires Fits(e)
    ensures ReadEntry(EncodeEntry(e) + rest) == Some((e, rest))
  {
    EntryFromParts(e);
    EntryGroups(e, rest);
    PartsRoundTrip(e.name, e.attribute.dataType, Tag(e.attribute.value), e.attribute.value.Bytes(), rest);
  }

  lemma TagStrips(tag: char, last: string)
    ensures ([tag] + last)[0] == tag && ([tag] + last)[1..] == last && [tag] + last != ""
  {
  }

  lemma DecodeStep(e: Entry, rest: string)
    requires Fits(e) && Decode(rest).Some?
    ensures Decode(EncodeEntry(e) + rest) == Some([e] + Decode(rest).value)
  {
    EntryRoundTrip(e, rest);
    assert EncodeEntry(e) + rest != "";
  }

  /** The stream can be read back. */
  lemma {:induction false} StreamRoundTrip(entries: seq<Entry>)
    requires forall i :: 0 <= i < |entries| ==> Fits(entries[i])
    ensures Decode(Encode(entries)) == Some(entries)
  {
    if entries != [] {
      var rest := entries[1..];
      forall i | 0 <= i < |rest| ensures Fits(rest[i]) { assert rest[i] == entries[i + 1]; }
      StreamRoundTrip(rest);
      DecodeStep(entries[0], Encode(rest));
      assert [entries[0]] + rest == entries;
    }
  }

  lemma EntriesDetermine(a: map<string, Attribute>, b: map<string, Attribute>)
    requires Entries(a) == Entries(b)
    ensures a == b
  {
    EntriesContain(a, b);
    EntriesContain(b, a);
  }

  lemma EntriesContain(a: map<string, Attribute>, b: map<string, Attribute>)
    requires Entries(a) == Entries(b)
    ensures forall n :: n in a ==> n in b && a[n] == b[n]
  {
    var names, others := Alphabetical(a.Keys), Alphabetical(b.Keys);
    forall n | n in a ensures n in b && a[n] == b[n] {
      assert n in names;
      var i :| 0 <= i < |names| && names[i] == n;
      assert Entries(a)[i] == Entry(n, a[n]) && Entries(b)[i] == Entry(others[i], b[others[i]]);
      assert others[i] in b.Keys;
    }
  }

  ghost predicate AllFit(attributes: map<string, Attribute>) {
    forall n :: n in attributes ==> Fits(Entry(n, attributes[n]))
  }

  /** Different attribute maps are hashed from different streams. */
  lemma StreamIdentifiesAttributes(a: map<string, Attribute>, b: map<string, Attribute>)
    requires AllFit(a) && AllFit(b)
    ensures Encode(Entries(a)) == Encode(Entries(b)) <==> a == b
  {
    if Encode(Entries(a)) == Encode(Entries(b)) {
      EntriesFit(a);
      EntriesFit(b);
      StreamRoundTrip(Entries(a));
      StreamRoundTrip(Entries(b));
      EntriesDetermine(a, b);
    }
  }

  lemma EntriesFit(a: map<string, Attribute>)
    requires AllFit(a)
    ensures forall i :: 0 <= i < |Entries(a)| ==> Fits(Entries(a)[i])
  {
  }
}
