/**
  The V2Content message as a value: how fields build it up, which bytes it is written as, and
  why writing and reading are inverse (modules/opr/V2Content.pb.go).
 */
module Content {
  import opened Common
  import opened Varint
  import opened Wire

  /** Go strings and byte slices are both byte sequences; a nil slice is the empty one. */
  datatype Msg = Msg(
    address: seq<byte>, id: seq<byte>, height: int32,
    winners: seq<seq<byte>>, assets: seq<uint64>, unknown: seq<byte>)

  const EMPTY := Msg([], [], 0, [], [], [])

  // ---------- reading ----------

  function Apply(m: Msg, f: Field): Msg {
    match f
    case Address(x) => m.(address := x)
    case ID(x) => m.(id := x)
    case Height(h) => m.(height := h)
    case Winner(x) => m.(winners := m.winners + [x])
    case Assets(vs) => m.(assets := m.assets + vs)
    case Unknown(x) => m.(unknown := m.unknown + x)
  }

  function ApplyAll(m: Msg, fs: seq<Field>): Msg
    decreases |fs|
  {
    if fs == [] then m else ApplyAll(Apply(m, fs[0]), fs[1..])
  }

  lemma {:induction false} ApplyConcat(m: Msg, fs: seq<Field>, gs: seq<Field>)
    ensures ApplyAll(m, fs + gs) == ApplyAll(ApplyAll(m, fs), gs)
    decreases |fs|
  {
    if fs == [] {
      assert fs + gs == gs;
    } else {
      assert (fs + gs)[1..] == fs[1..] + gs;
      ApplyConcat(Apply(m, fs[0]), fs[1..], gs);
    }
  }

  /** Unmarshal fills m in; it does not clear it first. */
  function Unmarshal(m: Msg, s: seq<byte>): Result<Msg, WireError> {
    match Fields(s, 0)
    case Err(e) => Err(e)
    case Ok(fs) => Ok(ApplyAll(m, fs))
  }

  /** Reading a and then b into the same message is reading their concatenation. */
  lemma UnmarshalConcat(m: Msg, a: seq<byte>, b: seq<byte>)
    requires Unmarshal(EMPTY, a).Ok? && Unmarshal(EMPTY, b).Ok? && |a + b| < TWO63
    ensures Unmarshal(m, a).Ok?
    ensures Unmarshal(m, a + b) == Unmarshal(Unmarshal(m, a).value, b)
  {
    FieldsConcat(a, b, 0, 0, 0);
    ApplyConcat(m, Fields(a, 0).value, Fields(b, 0).value);
  }

  /** The last value a field list gives to each scalar, or the one the message had. */
  function LastAddress(fs: seq<Field>, previous: seq<byte>): seq<byte> {
    if fs == [] then previous
    else if fs[|fs| - 1].Address? then fs[|fs| - 1].text
    else LastAddress(fs[..|fs| - 1], previous)
  }

  function LastID(fs: seq<Field>, previous: seq<byte>): seq<byte> {
    if fs == [] then previous
    else if fs[|fs| - 1].ID? then fs[|fs| - 1].text
    else LastID(fs[..|fs| - 1], previous)
  }

  function LastHeight(fs: seq<Field>, previous: int32): int32 {
    if fs == [] then previous
    else if fs[|fs| - 1].Height? then fs[|fs| - 1].height
    else LastHeight(fs[..|fs| - 1], previous)
  }

  /** Merging: scalars take their last value; lists and unknown bytes are appended to what was there. */
  lemma {:induction false} Merge(m: Msg, fs: seq<Field>)
    ensures var r, fresh_ := ApplyAll(m, fs), ApplyAll(EMPTY, fs);
      && r.address == LastAddress(fs, m.address)
      && r.id == LastID(fs, m.id)
      && r.height == LastHeight(fs, m.height)
      && r.winners == m.winners + fresh_.winners
      && r.assets == m.assets + fresh_.assets
      && r.unknown == m.unknown + fresh_.unknown
  {
    if fs != [] {
      var k := |fs| - 1;
      assert fs == fs[..k] + [fs[k]];
      Merge(m, fs[..k]);
      ApplyConcat(m, fs[..k], [fs[k]]);
      ApplyConcat(EMPTY, fs[..k], [fs[k]]);
      assert ApplyAll(ApplyAll(m, fs[..k]), [fs[k]]) == Apply(ApplyAll(m, fs[..k]), fs[k]);
      assert ApplyAll(ApplyAll(EMPTY, fs[..k]), [fs[k]]) == Apply(ApplyAll(EMPTY, fs[..k]), fs[k]);
    }
  }

  // ---------- writing ----------

  /** A length-delimited field: tag, length, bytes. */
  function Delimited(tag: byte, x: seq<byte>): seq<byte> {
    [tag] + Encode(|x|) + x
  }

  function Optional(tag: byte, x: seq<byte>): seq<byte> {
    if x == [] then [] else Delimited(tag, x)
  }

  function HeightBytes(h: int32): seq<byte> {
    if h == 0 then [] else [0x18] + Encode(FromInt32(h))
  }

  function WinnersBytes(ws: seq<seq<byte>>): seq<byte> {
    if ws == [] then [] else Delimited(0x22, ws[0]) + WinnersBytes(ws[1..])
  }

  /** The varints of a packed list, without tag and length. */
  function Packed(vs: seq<uint64>): seq<byte> {
    if vs == [] then [] else Encode(vs[0]) + Packed(vs[1..])
  }

  function KnownBytes(m: Msg): seq<byte> {
    Optional(0x0a, m.address) + Optional(0x12, m.id) + HeightBytes(m.height)
    + WinnersBytes(m.winners) + Optional(0x2a, Packed(m.assets))
  }

  function Bytes(m: Msg): seq<byte> {
    KnownBytes(m) + m.unknown
  }

  // ---------- reading back what was written ----------

  lemma TagRead(tag: byte, t: seq<byte>)
    requires tag < 128
    ensures Decode([tag] + t, 0) == Ok(Read(tag, 1))
    ensures ([tag] + t)[1..] == t
    ensures FieldNum(Read(tag, 1)) == tag / 8
  {
  }

  /** A single field followed by nothing. */
  lemma OneField(s: seq<byte>, f: Field)
    requires s != [] && ParseField(s, 0) == Ok(Parsed(f, |s|))
    ensures Fields(s, 0) == Ok([f])
  {
    assert s[|s|..] == [];
    assert [f] + [] == [f];
  }

  lemma SpanRead(x: seq<byte>, i: nat)
    requires i + |Encode(|x|) + x| < TWO63
    ensures var n := |Encode(|x|)|;
      ReadSpan(Encode(|x|) + x, i) == Ok(Span(n, n + |x|)) && (Encode(|x|) + x)[n..] == x
  {
    hide Decode, Encode;
    EncodedLength(|x|);
    DecodeEncode(|x|, x, 0);
  }

  lemma {:induction false} PackedRead(vs: seq<uint64>)
    ensures ReadPacked(Packed(vs), |Packed(vs)|) == Ok(Values(vs, |Packed(vs)|))
  {
    hide Decode, Encode;
    if vs != [] {
      var rest := Packed(vs[1..]);
      EncodedLength(vs[0]);
      DecodeEncode(vs[0], rest, 0);
      assert Packed(vs)[|Encode(vs[0])|..] == rest;
      PackedRead(vs[1..]);
      assert [vs[0]] + vs[1..] == vs;
    }
  }

  lemma DelimitedField(tag: byte, x: seq<byte>, f: Field)
    requires |Delimited(tag, x)| < TWO63
    requires (tag, f) in {(0x0a, Address(x)), (0x12, ID(x)), (0x22, Winner(x))}
    ensures Fields(Delimited(tag, x), 0) == Ok([f])
  {
    hide Decode, Encode, FieldNum, ReadSpan;
    var body := Encode(|x|) + x;
    assert Delimited(tag, x) == [tag] + body;
    TagRead(tag, body);
    SpanRead(x, 1);
    assert body[|Encode(|x|)|..|Encode(|x|)| + |x|] == x;
    OneField([tag] + body, f);
  }

  lemma HeightField(h: int32)
    requires h != 0
    ensures Fields(HeightBytes(h), 0) == Ok([Height(h)])
  {
    hide Decode, Encode, FieldNum;
    var v := FromInt32(h);
    TagRead(0x18, Encode(v));
    EncodedLength(v);
    DecodeEncode(v, [], 0);
    assert Encode(v) + [] == Encode(v);
    assert ToInt32(v) == h;
    OneField(HeightBytes(h), Height(h));
  }

  lemma AssetsField(vs: seq<uint64>)
    requires |Delimited(0x2a, Packed(vs))| < TWO63
    ensures Fields(Delimited(0x2a, Packed(vs)), 0) == Ok([Assets(vs)])
  {
    hide Decode, Encode, FieldNum, ReadSpan, ReadPacked, Packed;
    var x := Packed(vs);
    var body := Encode(|x|) + x;
    assert Delimited(0x2a, x) == [0x2a] + body;
    TagRead(0x2a, body);
    SpanRead(x, 1);
    PackedRead(vs);
    OneField([0x2a] + body, Assets(vs));
  }

  /** s holds fields that turn m into r; so does what is written after it, from r on. */
  ghost predicate Turns(m: Msg, s: seq<byte>, r: Msg) {
    Fields(s, 0).Ok? && ApplyAll(m, Fields(s, 0).value) == r
  }

  lemma NothingTurns(m: Msg)
    ensures Turns(m, [], m)
  {
  }

  lemma OneTurns(m: Msg, s: seq<byte>, f: Field)
    requires Fields(s, 0) == Ok([f])
    ensures Turns(m, s, Apply(m, f))
  {
    assert ApplyAll(m, [f]) == ApplyAll(Apply(m, f), []);
  }

  lemma TurnsConcat(m: Msg, a: seq<byte>, r: Msg, b: seq<byte>, q: Msg)
    requires Turns(m, a, r) && Turns(r, b, q) && |a + b| < TWO63
    ensures Turns(m, a + b, q)
  {
    FieldsConcat(a, b, 0, 0, 0);
    ApplyConcat(m, Fields(a, 0).value, Fields(b, 0).value);
  }

  lemma {:induction false} WinnersTurn(m: Msg, ws: seq<seq<byte>>)
    requires |WinnersBytes(ws)| < TWO63
    ensures Turns(m, WinnersBytes(ws), m.(winners := m.winners + ws))
    decreases |ws|
  {
    hide Fields, ApplyAll, Delimited, Turns;
    if ws == [] {
      NothingTurns(m);
      assert m.winners + ws == m.winners;
    } else {
      var r := m.(winners := m.winners + [ws[0]]);
      DelimitedField(0x22, ws[0], Winner(ws[0]));
      OneTurns(m, Delimited(0x22, ws[0]), Winner(ws[0]));
      WinnersTurn(r, ws[1..]);
      assert r.winners + ws[1..] == m.winners + ws;
      TurnsConcat(m, Delimited(0x22, ws[0]), r, WinnersBytes(ws[1..]), m.(winners := m.winners + ws));
    }
  }

  lemma NoBytes(h: int32)
    ensures h == 0 ==> HeightBytes(h) == []
  {
  }

  /** The known part of a message reads back as the message without its unknown bytes. */
  lemma KnownTurns(m: Msg)
    requires |KnownBytes(m)| < TWO63
    ensures Turns(EMPTY, KnownBytes(m), m.(unknown := []))
  {
    hide Fields, ApplyAll, Delimited, Turns, Packed, HeightBytes, WinnersBytes;
    NothingTurns(EMPTY);
    var a, b, c := Optional(0x0a, m.address), Optional(0x12, m.id), HeightBytes(m.height);
    var d, e := WinnersBytes(m.winners), Optional(0x2a, Packed(m.assets));
    var m1 := EMPTY.(address := m.address);
    var m2 := m1.(id := m.id);
    var m3 := m2.(height := m.height);
    var m4 := m3.(winners := m.winners);
    if m.address != [] {
      DelimitedField(0x0a, m.address, Address(m.address));
      OneTurns(EMPTY, a, Address(m.address));
    }
    if m.id != [] {
      DelimitedField(0x12, m.id, ID(m.id));
      OneTurns(m1, b, ID(m.id));
    }
    if m.height != 0 {
      HeightField(m.height);
      OneTurns(m2, c, Height(m.height));
    }
    NoBytes(m.height);
    NothingTurns(m1);
    NothingTurns(m2);
    assert Turns(EMPTY, a, m1) && Turns(m1, b, m2) && Turns(m2, c, m3);
    WinnersTurn(m3, m.winners);
    assert m3.winners + m.winners == m.winners;
    AssetsTurn(m4, m.assets);
    TurnsConcat(EMPTY, a, m1, b, m2);
    TurnsConcat(EMPTY, a + b, m2, c, m3);
    TurnsConcat(EMPTY, a + b + c, m3, d, m4);
    TurnsConcat(EMPTY, a + b + c + d, m4, e, m.(unknown := []));
  }

  lemma AssetsTurn(m: Msg, vs: seq<uint64>)
    requires |Optional(0x2a, Packed(vs))| < TWO63 && m.assets == []
    ensures Turns(m, Optional(0x2a, Packed(vs)), m.(assets := vs))
  {
    hide Fields, ApplyAll, Delimited, Turns;
    if Packed(vs) == [] {
      assert vs == [];
      NothingTurns(m);
    } else {
      AssetsField(vs);
      OneTurns(m, Delimited(0x2a, Packed(vs)), Assets(vs));
      assert m.assets + vs == vs;
    }
  }

  // ---------- unknown fields ----------

  /** u is a run of complete fields, none of which the message knows. */
  ghost predicate OnlyUnknown(u: seq<byte>) {
    Fields(u, 0).Ok? && forall f <- Fields(u, 0).value :: f.Unknown?
  }

  lemma {:induction false} UnknownTurns(m: Msg, u: seq<byte>, i: nat)
    requires Fields(u, i).Ok? && forall f <- Fields(u, i).value :: f.Unknown?
    ensures ApplyAll(m, Fields(u, i).value) == m.(unknown := m.unknown + u)
    decreases |u|
  {
    hide ParseField;
    if u == [] {
      assert m.unknown + u == m.unknown;
    } else {
      var p := ParseField(u, i).value;
      var rest := Fields(u[p.size..], i + p.size).value;
      var r := Apply(m, p.field);
      assert Fields(u, i).value == [p.field] + rest;
      assert p.field in Fields(u, i).value;
      assert forall f <- rest :: f in Fields(u, i).value;
      UnknownIsVerbatim(u, i);
      UnknownTurns(r, u[p.size..], i + p.size);
      assert m.unknown + u[..p.size] + u[p.size..] == m.unknown + u;
    }
  }

  lemma UnknownIsVerbatim(s: seq<byte>, i: nat)
    requires s != [] && ParseField(s, i).Ok? && ParseField(s, i).value.field.Unknown?
    ensures ParseField(s, i).value.field == Unknown(s[..ParseField(s, i).value.size])
  {
  }

  /** The unknown bytes a read collects are again a run of complete unknown fields. */
  lemma {:induction false} UnknownKept(m: Msg, s: seq<byte>, i: nat)
    requires Fields(s, i).Ok? && OnlyUnknown(m.unknown) && |m.unknown| + |s| < TWO63
    ensures OnlyUnknown(ApplyAll(m, Fields(s, i).value).unknown)
    decreases |s|
  {
    hide ParseField;
    if s != [] {
      var p := ParseField(s, i).value;
      var r := Apply(m, p.field);
      assert Fields(s, i).value == [p.field] + Fields(s[p.size..], i + p.size).value;
      if p.field.Unknown? {
        var chunk := s[..p.size];
        UnknownIsVerbatim(s, i);
        assert s[..p.size] == chunk[..p.size];
        ParseFieldLocal(s, chunk, i, 0);
        OneField(chunk, p.field);
        FieldsConcat(m.unknown, chunk, 0, 0, 0);
      }
      UnknownKept(r, s[p.size..], i + p.size);
    }
  }

  // ---------- main results ----------

  /**
    A message read from its own bytes is the message, provided its unknown bytes are whole unknown
    fields; negative heights, empty winners and every uint64 asset are included. The length bound
    only says that the buffer Marshal makes exists.
   */
  lemma RoundTrip(m: Msg)
    requires OnlyUnknown(m.unknown) && |Bytes(m)| < TWO63
    ensures Unmarshal(EMPTY, Bytes(m)) == Ok(m)
  {
    KnownTurns(m);
    UnknownTurns(m.(unknown := []), m.unknown, 0);
    assert [] + m.unknown == m.unknown;
    TurnsConcat(EMPTY, KnownBytes(m), m.(unknown := []), m.unknown, m);
  }

  /** Whatever buffer was accepted, the message read from it survives writing and reading again. */
  lemma Reencode(s: seq<byte>)
    requires |s| < TWO63 && Unmarshal(EMPTY, s).Ok?
    requires |Bytes(Unmarshal(EMPTY, s).value)| < TWO63
    ensures Unmarshal(EMPTY, Bytes(Unmarshal(EMPTY, s).value)) == Unmarshal(EMPTY, s)
  {
    UnknownKept(EMPTY, s, 0);
    RoundTrip(Unmarshal(EMPTY, s).value);
  }

  /** The same assets as one field each. */
  function Unpacked(vs: seq<uint64>): seq<byte> {
    if vs == [] then [] else [0x28] + Encode(vs[0]) + Unpacked(vs[1..])
  }

  lemma {:induction false} UnpackedTurns(m: Msg, vs: seq<uint64>)
    requires |Unpacked(vs)| < TWO63
    ensures Turns(m, Unpacked(vs), m.(assets := m.assets + vs))
    decreases |vs|
  {
    hide Decode, Encode, FieldNum, Fields, ApplyAll, Turns;
    if vs == [] {
      NothingTurns(m);
      assert m.assets + vs == m.assets;
    } else {
      var one := [0x28] + Encode(vs[0]);
      TagRead(0x28, Encode(vs[0]));
      EncodedLength(vs[0]);
      DecodeEncode(vs[0], [], 0);
      assert Encode(vs[0]) + [] == Encode(vs[0]);
      OneField(one, Assets([vs[0]]));
      var r := m.(assets := m.assets + [vs[0]]);
      OneTurns(m, one, Assets([vs[0]]));
      UnpackedTurns(r, vs[1..]);
      assert r.assets + vs[1..] == m.assets + vs;
      TurnsConcat(m, one, r, Unpacked(vs[1..]), m.(assets := m.assets + vs));
    }
  }

  /** Assets sent packed and assets sent one by one are read alike, into any message. */
  lemma PackedOrNot(m: Msg, vs: seq<uint64>)
    requires |Unpacked(vs)| < TWO63 && |Delimited(0x2a, Packed(vs))| < TWO63
    ensures Unmarshal(m, Unpacked(vs)) == Unmarshal(m, Delimited(0x2a, Packed(vs)))
      == Ok(m.(assets := m.assets + vs))
  {
    hide Encode, Unpacked, Packed, Fields, ApplyAll;
    UnpackedTurns(m, vs);
    AssetsField(vs);
    OneTurns(m, Delimited(0x2a, Packed(vs)), Assets(vs));
  }
}
