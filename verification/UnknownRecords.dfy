/**
  The records of the wire format by themselves, with groups nested to any depth: what an unknown
  field of a message can be.
 */
module UnknownRecords {
  import opened Common
  import opened Varint
  import opened Wire
  import opened Content

  datatype Record =
    | VarintRecord(field: nat, value: uint64)
    | Fixed64(field: nat, bytes: seq<byte>)
    | LengthDelimited(field: nat, bytes: seq<byte>)
    | Group(field: nat, members: seq<Record>)
    | Fixed32(field: nat, bytes: seq<byte>)

  /** Field numbers have 29 bits. */
  const MAX_FIELD: nat := 0x1FFF_FFFF

  predicate WellFormed(r: Record)
    decreases r
  {
    && 1 <= r.field <= MAX_FIELD
    && match r
       case Fixed64(_, b) => |b| == 8
       case Fixed32(_, b) => |b| == 4
       case LengthDelimited(_, b) => |b| < TWO63
       case Group(_, members) => forall m <- members :: WellFormed(m)
       case VarintRecord(_, _) => true
  }

  function Tag(field: nat, wireType: nat): seq<byte> {
    Encode(field * 8 + wireType)
  }

  /** The bytes of a record; a group ends with an end tag of its own number. */
  function Print(r: Record): (s: seq<byte>)
    ensures s != []
    decreases r
  {
    match r
    case VarintRecord(f, v) => Tag(f, 0) + Encode(v)
    case Fixed64(f, b) => Tag(f, 1) + b
    case LengthDelimited(f, b) => Tag(f, 2) + Encode(|b|) + b
    case Group(f, members) => Tag(f, 3) + PrintAll(members) + Tag(f, 4)
    case Fixed32(f, b) => Tag(f, 5) + b
  }

  function PrintAll(rs: seq<Record>): seq<byte>
    decreases rs
  {
    if rs == [] then [] else Print(rs[0]) + PrintAll(rs[1..])
  }

  lemma ReadTag(field: nat, wireType: nat, rest: seq<byte>)
    requires field <= MAX_FIELD && wireType < 8
    ensures Decode(Tag(field, wireType) + rest, 0) == Ok(Read(field * 8 + wireType, |Tag(field, wireType)|))
    ensures (field * 8 + wireType) % 8 == wireType && (field * 8 + wireType) / 8 == field
    ensures (Tag(field, wireType) + rest)[|Tag(field, wireType)|..] == rest
  {
    EncodedLength(field * 8 + wireType);
    DecodeEncode(field * 8 + wireType, rest, 0);
  }

  /** Skipping, once the tag is read. */
  lemma SkipAfterTag(f: nat, wireType: nat, rest: seq<byte>)
    requires f <= MAX_FIELD && wireType < 8
    ensures var n, s := |Tag(f, wireType)|, Tag(f, wireType) + rest;
      match wireType
      case 0 => Decode(rest, 0).Ok? ==> Skip(s) == Ok(n + Decode(rest, 0).value.size)
      case 1 => Skip(s) == Ok(n + 8)
      case 2 => Skip(s) == SkipBytes(rest, n)
      case 3 => SkipGroup(rest, n).Ok? ==> Skip(s) == Ok(n + SkipGroup(rest, n).value)
      case 5 => Skip(s) == Ok(n + 4)
      case _ => true
  {
    hide Decode, Encode, Tag, SkipBytes, SkipGroup;
    ReadTag(f, wireType, rest);
  }

  lemma SkipBytesPrint(b: seq<byte>, rest: seq<byte>, n: nat)
    requires n + |Encode(|b|)| + |b| < TWO63
    ensures SkipBytes(Encode(|b|) + (b + rest), n) == Ok(n + |Encode(|b|)| + |b|)
  {
    hide Decode, Encode;
    EncodedLength(|b|);
    DecodeEncode(|b|, b + rest, 0);
  }

  /** A well-formed record is skipped to its last byte, whatever follows it and however deep its groups go. */
  lemma {:induction false} SkipPrint(r: Record, rest: seq<byte>)
    requires WellFormed(r) && |Print(r)| < TWO63
    ensures Skip(Print(r) + rest) == Ok(|Print(r)|)
    decreases r
  {
    hide Decode, Encode, Tag, Skip, SkipBytes, SkipGroup;
    match r {
      case VarintRecord(f, v) =>
        assert Print(r) + rest == Tag(f, 0) + (Encode(v) + rest);
        SkipAfterTag(f, 0, Encode(v) + rest);
        EncodedLength(v);
        DecodeEncode(v, rest, 0);
      case Fixed64(f, b) =>
        assert Print(r) + rest == Tag(f, 1) + (b + rest);
        SkipAfterTag(f, 1, b + rest);
      case LengthDelimited(f, b) =>
        assert Print(r) + rest == Tag(f, 2) + (Encode(|b|) + (b + rest));
        SkipAfterTag(f, 2, Encode(|b|) + (b + rest));
        SkipBytesPrint(b, rest, |Tag(f, 2)|);
      case Group(f, members) =>
        var inner := PrintAll(members) + Tag(f, 4) + rest;
        assert Print(r) + rest == Tag(f, 3) + inner;
        SkipAfterTag(f, 3, inner);
        SkipMembersPrint(members, f, rest, |Tag(f, 3)|);
      case Fixed32(f, b) =>
        assert Print(r) + rest == Tag(f, 5) + (b + rest);
        SkipAfterTag(f, 5, b + rest);
    }
  }

  lemma {:induction false} SkipMembersPrint(rs: seq<Record>, f: nat, rest: seq<byte>, i: nat)
    requires f <= MAX_FIELD && (forall m <- rs :: WellFormed(m)) && i + |PrintAll(rs)| + |Tag(f, 4)| < TWO63
    ensures SkipGroup(PrintAll(rs) + Tag(f, 4) + rest, i) == Ok(|PrintAll(rs)| + |Tag(f, 4)|)
    decreases rs
  {
    hide Decode, Encode, Tag, Print, Skip;
    var s := PrintAll(rs) + Tag(f, 4) + rest;
    if rs == [] {
      assert s == Tag(f, 4) + rest;
      ReadTag(f, 4, rest);
    } else {
      var after := PrintAll(rs[1..]) + Tag(f, 4) + rest;
      assert s == Print(rs[0]) + after && s[|Print(rs[0])|..] == after;
      assert forall m <- rs[1..] :: m in rs;
      SkipPrint(rs[0], after);
      FirstTag(rs[0], after);
      SkipMembersPrint(rs[1..], f, rest, i + |Print(rs[0])|);
    }
  }

  /** A record starts with its field number, and not with an end tag. */
  lemma FirstTag(r: Record, rest: seq<byte>)
    requires WellFormed(r)
    ensures Decode(Print(r) + rest, 0).Ok?
    ensures var tag := Decode(Print(r) + rest, 0).value.raw; tag % 8 != 4 && tag % 8 < 6 && tag / 8 == r.field
  {
    hide Decode, Encode, Tag;
    match r {
      case VarintRecord(f, v) =>
        assert Print(r) + rest == Tag(f, 0) + (Encode(v) + rest);
        ReadTag(f, 0, Encode(v) + rest);
      case Fixed64(f, b) =>
        assert Print(r) + rest == Tag(f, 1) + (b + rest);
        ReadTag(f, 1, b + rest);
      case LengthDelimited(f, b) =>
        assert Print(r) + rest == Tag(f, 2) + (Encode(|b|) + b + rest);
        ReadTag(f, 2, Encode(|b|) + b + rest);
      case Group(f, members) =>
        assert Print(r) + rest == Tag(f, 3) + (PrintAll(members) + Tag(f, 4) + rest);
        ReadTag(f, 3, PrintAll(members) + Tag(f, 4) + rest);
      case Fixed32(f, b) =>
        assert Print(r) + rest == Tag(f, 5) + (b + rest);
        ReadTag(f, 5, b + rest);
    }
  }

  /** A run of records the message does not know, whatever is nested in them. */
  ghost predicate NotKnown(rs: seq<Record>) {
    forall r <- rs :: WellFormed(r) && r.field > 5
  }

  lemma ParsePrint(r: Record, rest: seq<byte>, i: nat)
    requires WellFormed(r) && r.field > 5 && i + |Print(r) + rest| < TWO63
    ensures ParseField(Print(r) + rest, i) == Ok(Parsed(Unknown(Print(r)), |Print(r)|))
  {
    hide Decode, Skip, Print, ParseKnown, WellFormed, FieldNum;
    SkipPrint(r, rest);
    FirstTag(r, rest);
    FieldRange(r);
    FieldNumIs(Decode(Print(r) + rest, 0).value);
    assert (Print(r) + rest)[..|Print(r)|] == Print(r);
  }

  lemma FieldRange(r: Record)
    requires WellFormed(r)
    ensures 1 <= r.field <= MAX_FIELD
  {
  }

  lemma FieldNumIs(tag: Read)
    requires tag.raw / 8 <= MAX_FIELD
    ensures FieldNum(tag) == tag.raw / 8
  {
  }

  lemma {:induction false} FieldsPrint(rs: seq<Record>, i: nat)
    requires NotKnown(rs) && i + |PrintAll(rs)| < TWO63
    ensures Fields(PrintAll(rs), i).Ok? && forall f <- Fields(PrintAll(rs), i).value :: f.Unknown?
    decreases rs
  {
    hide ParseField, Print, WellFormed;
    if rs != [] {
      var rest := PrintAll(rs[1..]);
      assert forall r <- rs[1..] :: r in rs;
      ParsePrint(rs[0], rest, i);
      assert (Print(rs[0]) + rest)[|Print(rs[0])|..] == rest;
      FieldsPrint(rs[1..], i + |Print(rs[0])|);
    }
  }

  /** A message followed by any records it does not know is read as that message with those bytes kept. */
  lemma UnknownRecordsKept(m: Msg, rs: seq<Record>)
    requires m.unknown == [] && NotKnown(rs) && |Bytes(m) + PrintAll(rs)| < TWO63
    ensures Unmarshal(EMPTY, Bytes(m) + PrintAll(rs)) == Ok(m.(unknown := PrintAll(rs)))
  {
    hide Unmarshal, Bytes, PrintAll;
    FieldsPrint(rs, 0);
    WithUnknown(m, PrintAll(rs));
    RoundTrip(m.(unknown := PrintAll(rs)));
  }

  lemma WithUnknown(m: Msg, u: seq<byte>)
    requires m.unknown == []
    ensures Bytes(m.(unknown := u)) == Bytes(m) + u
  {
    hide Optional, HeightBytes, WinnersBytes;
  }
}
