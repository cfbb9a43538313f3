/**
  The exact form of a serialized record: which fields it holds, in which order, under which numbers and
  wire types, and how each varint is spelled. The OPR hash is the hash of these bytes.
 */
module WireForm {
  import opened Common
  import opened Division
  import opened Varint
  import opened Wire
  import opened Content

  /** A field as it stands on the wire: its number, its wire type, the varint behind its tag, and what it says. */
  datatype Tagged = Tagged(number: int, wireType: nat, varint: nat, field: Field)

  /** The varint at the front of s, if there is one. */
  function Leading(s: seq<byte>): nat {
    var r := Decode(s, 0);
    if r.Ok? then r.value.raw else 0
  }

  function Head(s: seq<byte>, i: nat): Tagged
    requires s != [] && ParseField(s, i).Ok?
  {
    var p, tag := ParseField(s, i).value, Decode(s, 0).value;
    Tagged(FieldNum(tag), tag.raw % 8, if tag.size <= p.size then Leading(s[tag.size..p.size]) else 0, p.field)
  }

  /** The fields of s, which starts at index i of the buffer, as they stand there. */
  function TaggedFields(s: seq<byte>, i: nat): Result<seq<Tagged>, WireError> {
    if s == [] then Ok([])
    else match ParseField(s, i)
      case Err(e) => Err(e)
      case Ok(p) =>
        match TaggedFields(s[p.size..], i + p.size)
        case Err(e) => Err(e)
        case Ok(rest) => Ok([Head(s, i)] + rest)
  }

  // ---------- locality ----------

  lemma HeadLocal(s: seq<byte>, t: seq<byte>, i: nat, j: nat)
    requires s != [] && t != [] && ParseField(s, i).Ok?
    requires SamePrefix(s, t, ParseField(s, i).value.size) && j + |t| < TWO63
    ensures ParseField(t, j) == ParseField(s, i) && Head(t, j) == Head(s, i)
  {
    hide ParseField;
    ParseFieldLocal(s, t, i, j);
    var n := ParseField(s, i).value.size;
    TagCovered(s, i);
    ReadLocal(s, t, n);
    var k := Decode(s, 0).value.size;
    assert s[k..n] == s[..n][k..] && t[k..n] == t[..n][k..];
  }

  /** The tag is part of the field. */
  lemma TagCovered(s: seq<byte>, i: nat)
    requires s != [] && ParseField(s, i).Ok?
    ensures Decode(s, 0).Ok? && Decode(s, 0).value.size <= ParseField(s, i).value.size
  {
    hide Decode, Skip, ParseKnown;
    if FieldNum(Decode(s, 0).value) > 5 { SkipCovers(s); }
  }

  lemma {:induction false} TaggedConcat(a: seq<byte>, b: seq<byte>, i: nat, j: nat, k: nat)
    requires TaggedFields(a, i).Ok? && TaggedFields(b, j).Ok? && k + |a + b| < TWO63
    ensures TaggedFields(a + b, k) == Ok(TaggedFields(a, i).value + TaggedFields(b, j).value)
    decreases |a|, |b|
  {
    hide ParseField, Head;
    if a == [] {
      assert a + b == b;
      if b != [] {
        assert SamePrefix(b, b, ParseField(b, j).value.size);
        HeadLocal(b, b, j, k);
        var n := ParseField(b, j).value.size;
        TaggedConcat([], b[n..], 0, j + n, k + n);
        assert [] + b[n..] == b[n..];
        var fb := TaggedFields(b[n..], j + n).value;
        assert TaggedFields(b[n..], k + n) == Ok([] + fb) && [] + fb == fb;
      }
      assert TaggedFields(a, i).value + TaggedFields(b, j).value == TaggedFields(b, j).value;
    } else {
      var n := ParseField(a, i).value.size;
      assert (a + b)[..n] == a[..n] && (a + b)[n..] == a[n..] + b;
      HeadLocal(a, a + b, i, k);
      TaggedConcat(a[n..], b, i + n, j, k + n);
      var fa, fb := TaggedFields(a[n..], i + n).value, TaggedFields(b, j).value;
      assert TaggedFields(a, i).value + fb == [Head(a, i)] + (fa + fb);
    }
  }

  // ---------- single fields ----------

  /** A buffer with one field is that field to its end. */
  lemma WholeField(s: seq<byte>, f: Field)
    requires s != [] && Fields(s, 0) == Ok([f])
    ensures ParseField(s, 0) == Ok(Parsed(f, |s|))
  {
    hide ParseField;
    var p := ParseField(s, 0).value;
    var rest := Fields(s[p.size..], p.size).value;
    assert Fields(s, 0).value == [p.field] + rest == [f];
    assert |rest| == 0 && ([p.field] + rest)[0] == f;
    assert s[p.size..] == [];
  }

  /** One field, written as a one-byte tag and something that starts with a varint. */
  lemma OneTagged(tag: byte, body: seq<byte>, v: nat, f: Field)
    requires tag < 128 && Fields([tag] + body, 0) == Ok([f]) && Decode(body, 0).Ok? && Decode(body, 0).value.raw == v
    ensures TaggedFields([tag] + body, 0) == Ok([Tagged(tag / 8, tag % 8, v, f)])
  {
    hide ParseField, Decode, FieldNum;
    var s := [tag] + body;
    WholeField(s, f);
    TagRead(tag, body);
    assert s[1..|s|] == body && s[|s|..] == [];
    assert [Head(s, 0)] + [] == [Head(s, 0)];
    assert FieldNum(Read(tag, 1)) == tag / 8;
  }

  lemma LengthRead(x: seq<byte>)
    requires |x| < TWO64
    ensures Decode(Encode(|x|) + x, 0).Ok? && Decode(Encode(|x|) + x, 0).value.raw == |x|
  {
    hide Decode, Encode;
    EncodedLength(|x|);
    DecodeEncode(|x|, x, 0);
  }

  lemma DelimitedTagged(tag: byte, x: seq<byte>, f: Field)
    requires |Delimited(tag, x)| < TWO63
    requires (tag, f) in {(0x0a, Address(x)), (0x12, ID(x)), (0x22, Winner(x))}
    ensures TaggedFields(Delimited(tag, x), 0) == Ok([Tagged(tag / 8, 2, |x|, f)])
  {
    hide Decode, Encode, Fields, TaggedFields;
    DelimitedField(tag, x, f);
    LengthRead(x);
    assert Delimited(tag, x) == [tag] + (Encode(|x|) + x);
    OneTagged(tag, Encode(|x|) + x, |x|, f);
  }

  lemma AssetsTagged(vs: seq<uint64>)
    requires |Delimited(0x2a, Packed(vs))| < TWO63
    ensures TaggedFields(Delimited(0x2a, Packed(vs)), 0) == Ok([Tagged(5, 2, |Packed(vs)|, Assets(vs))])
  {
    hide Decode, Encode, Fields, TaggedFields, Packed;
    var x := Packed(vs);
    AssetsField(vs);
    LengthRead(x);
    assert Delimited(0x2a, x) == [0x2a] + (Encode(|x|) + x);
    OneTagged(0x2a, Encode(|x|) + x, |x|, Assets(vs));
  }

  /** A negative height is written as the uint64 it is extended to, 2^64 above it. */
  function Extended(h: int32): nat {
    if h < 0 then h + 0x1_0000_0000_0000_0000 else h
  }

  lemma HeightTagged(h: int32)
    requires h != 0
    ensures TaggedFields(HeightBytes(h), 0) == Ok([Tagged(3, 0, Extended(h), Height(h))])
  {
    hide Decode, Encode, Fields, TaggedFields;
    var v := FromInt32(h);
    HeightField(h);
    EncodedLength(v);
    DecodeEncode(v, [], 0);
    assert Encode(v) + [] == Encode(v);
    OneTagged(0x18, Encode(v), Extended(h), Height(h));
  }

  // ---------- the whole record ----------

  function WinnerFields(ws: seq<seq<byte>>): seq<Tagged> {
    if ws == [] then [] else [Tagged(4, 2, |ws[0]|, Winner(ws[0]))] + WinnerFields(ws[1..])
  }

  function TextField(number: int, x: seq<byte>, f: Field): seq<Tagged> {
    if x == [] then [] else [Tagged(number, 2, |x|, f)]
  }

  /** The fields of a message without unknown ones: what the format asks for. */
  function Expected(m: Msg): seq<Tagged> {
    TextField(1, m.address, Address(m.address)) + TextField(2, m.id, ID(m.id))
    + (if m.height == 0 then [] else [Tagged(3, 0, Extended(m.height), Height(m.height))])
    + WinnerFields(m.winners)
    + (if m.assets == [] then [] else [Tagged(5, 2, |Packed(m.assets)|, Assets(m.assets))])
  }

  /** s stands for exactly these fields. */
  ghost predicate Holds(s: seq<byte>, fs: seq<Tagged>) {
    TaggedFields(s, 0) == Ok(fs)
  }

  lemma HoldsConcat(a: seq<byte>, fa: seq<Tagged>, b: seq<byte>, fb: seq<Tagged>)
    requires Holds(a, fa) && Holds(b, fb) && |a + b| < TWO63
    ensures Holds(a + b, fa + fb)
  {
    TaggedConcat(a, b, 0, 0, 0);
  }

  lemma HoldsNothing()
    ensures Holds([], [])
  {
  }

  lemma {:induction false} WinnersHold(ws: seq<seq<byte>>)
    requires |WinnersBytes(ws)| < TWO63
    ensures Holds(WinnersBytes(ws), WinnerFields(ws))
  {
    hide Delimited, TaggedFields;
    if ws == [] {
      HoldsNothing();
    } else {
      DelimitedTagged(0x22, ws[0], Winner(ws[0]));
      WinnersHold(ws[1..]);
      var first := [Tagged(4, 2, |ws[0]|, Winner(ws[0]))];
      HoldsConcat(Delimited(0x22, ws[0]), first, WinnersBytes(ws[1..]), WinnerFields(ws[1..]));
    }
  }

  lemma OptionalHolds(tag: byte, x: seq<byte>, f: Field)
    requires |Optional(tag, x)| < TWO63 && (tag, f) in {(0x0a, Address(x)), (0x12, ID(x))}
    ensures Holds(Optional(tag, x), TextField(tag / 8, x, f))
  {
    hide Delimited, TaggedFields;
    HoldsNothing();
    if x != [] { DelimitedTagged(tag, x, f); }
  }

  lemma PackedNothing(vs: seq<uint64>)
    ensures Packed(vs) == [] <==> vs == []
  {
  }

  lemma KnownHold(m: Msg)
    requires |KnownBytes(m)| < TWO63
    ensures Holds(KnownBytes(m), Expected(m))
  {
    hide TaggedFields, Delimited, HeightBytes, WinnersBytes, WinnerFields, TextField, Packed, Holds;
    var a, b, c := Optional(0x0a, m.address), Optional(0x12, m.id), HeightBytes(m.height);
    var d, e := WinnersBytes(m.winners), Optional(0x2a, Packed(m.assets));
    var fa, fb := TextField(1, m.address, Address(m.address)), TextField(2, m.id, ID(m.id));
    var fc := if m.height == 0 then [] else [Tagged(3, 0, Extended(m.height), Height(m.height))];
    var fd := WinnerFields(m.winners);
    var fe := if m.assets == [] then [] else [Tagged(5, 2, |Packed(m.assets)|, Assets(m.assets))];
    OptionalHolds(0x0a, m.address, Address(m.address));
    OptionalHolds(0x12, m.id, ID(m.id));
    HoldsNothing();
    NoBytes(m.height);
    if m.height != 0 { HeightHolds(m.height); }
    WinnersHold(m.winners);
    PackedNothing(m.assets);
    if m.assets != [] { AssetsHold(m.assets); }
    HoldsConcat(a, fa, b, fb);
    HoldsConcat(a + b, fa + fb, c, fc);
    HoldsConcat(a + b + c, fa + fb + fc, d, fd);
    HoldsConcat(a + b + c + d, fa + fb + fc + fd, e, fe);
  }

  lemma HeightHolds(h: int32)
    requires h != 0
    ensures Holds(HeightBytes(h), [Tagged(3, 0, Extended(h), Height(h))])
  {
    HeightTagged(h);
  }

  lemma AssetsHold(vs: seq<uint64>)
    requires |Delimited(0x2a, Packed(vs))| < TWO63
    ensures Holds(Delimited(0x2a, Packed(vs)), [Tagged(5, 2, |Packed(vs)|, Assets(vs))])
  {
    AssetsTagged(vs);
  }

  lemma {:induction false} TaggedToo(s: seq<byte>, i: nat)
    requires Fields(s, i).Ok?
    ensures TaggedFields(s, i).Ok?
  {
    hide ParseField, Head;
    if s != [] {
      var n := ParseField(s, i).value.size;
      TaggedToo(s[n..], i + n);
    }
  }

  /** In the order of their numbers, and only winners more than once. */
  ghost predicate Ascending(fs: seq<Tagged>) {
    forall a, b | 0 <= a < b < |fs| :: fs[a].number < fs[b].number || fs[a].number == fs[b].number == 4
  }

  lemma {:induction false} WinnersNumbered(ws: seq<seq<byte>>)
    ensures |WinnerFields(ws)| == |ws|
    ensures forall a | 0 <= a < |ws| :: WinnerFields(ws)[a] == Tagged(4, 2, |ws[a]|, Winner(ws[a]))
  {
    if ws != [] { WinnersNumbered(ws[1..]); }
  }

  /**
    A message is written as exactly these fields: address, id and height each once unless empty or zero,
    every winner in order, all assets in one packed field; ascending, and before the unknown ones.
   */
  lemma WrittenFields(m: Msg)
    requires OnlyUnknown(m.unknown) && |Bytes(m)| < TWO63
    ensures TaggedFields(m.unknown, 0).Ok?
    ensures TaggedFields(Bytes(m), 0) == Ok(Expected(m) + TaggedFields(m.unknown, 0).value)
    ensures Ascending(Expected(m))
  {
    hide TaggedFields, KnownBytes, Fields;
    KnownHold(m);
    TaggedToo(m.unknown, 0);
    HoldsConcat(KnownBytes(m), Expected(m), m.unknown, TaggedFields(m.unknown, 0).value);
    WinnersNumbered(m.winners);
  }

  // ---------- the spelling of a varint ----------

  /** The i-th byte holds the i-th group of seven bits, and 128 more unless it is the last; no group is wasted. */
  lemma {:induction false} VarintBytes(v: nat, i: nat)
    requires i < |Encode(v)|
    ensures Encode(v)[i] == v / Pow128(i) % 128 + (if i + 1 < |Encode(v)| then 128 else 0)
    ensures i > 0 && i + 1 == |Encode(v)| ==> Encode(v)[i] > 0
  {
    if i > 0 {
      VarintBytes(v / 128, i - 1);
      DivideTwice(v, 128, Pow128(i - 1));
    }
  }
}
