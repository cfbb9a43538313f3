/**
  The generated marshalling code itself (modules/opr/V2Content.pb.go): a cursor moving over a
  buffer, fields of the message filled in place.
 */
module Codec {
  import opened Common
  import opened Varint
  import opened Wire
  import opened Content
  import opened WireForm

  /** skipV2Content: the size of the unknown field dAtA starts with. Go panics on an empty slice. */
  method SkipV2Content(dAtA: seq<byte>) returns (r: Result<nat, WireError>)
    requires dAtA != []
    ensures r == Skip(dAtA)
    decreases |dAtA|, 0
  {
    hide Decode;
    assert dAtA[0..] == dAtA;
    var wire, iNdEx := Get(dAtA, 0);
    if wire.Err? { return Err(wire.error); }
    var wireType := wire.value % 8;
    if wireType == 0 {
      var v, next := Get(dAtA, iNdEx);
      return if v.Err? then Err(v.error) else Ok(next);
    } else if wireType == 1 {
      return Ok(iNdEx + 8);
    } else if wireType == 2 {
      var v, next := Get(dAtA, iNdEx);
      if v.Err? { return Err(v.error); }
      var length := ToInt64(v.value);
      if length < 0 || next + length >= TWO63 { return Err(InvalidLength); }
      return Ok(next + length);
    } else if wireType == 3 {
      var next := SkipMembers(dAtA, iNdEx);
      return next;
    } else if wireType == 4 {
      return Ok(iNdEx);
    } else if wireType == 5 {
      return Ok(iNdEx + 4);
    }
    return Err(IllegalWireType);
  }

  /** The loop over the members of a group. A member is skipped on a slice that starts at its tag. */
  method SkipMembers(dAtA: seq<byte>, i: nat) returns (r: Result<nat, WireError>)
    requires 0 < i <= |dAtA|
    ensures match SkipGroup(dAtA[i..], i)
      case Err(e) => r == Err(e)
      case Ok(n) => r == Ok(i + n)
    decreases |dAtA| - i, 1
  {
    hide Decode, Skip;
    var iNdEx := i;
    while true
      invariant i <= iNdEx <= |dAtA|
      invariant match SkipGroup(dAtA[iNdEx..], iNdEx)
        case Err(e) => SkipGroup(dAtA[i..], i) == Err(e)
        case Ok(n) => SkipGroup(dAtA[i..], i) == Ok(iNdEx - i + n)
      decreases |dAtA| - iNdEx
    {
      var start := iNdEx;
      var inner, next := Get(dAtA, iNdEx);
      if inner.Err? { return Err(inner.error); }
      if inner.value % 8 == 4 { return Ok(next); }
      var member := SkipV2Content(dAtA[start..]);
      if member.Err? { return member; }
      iNdEx := start + member.value;
      if iNdEx >= TWO63 { return Err(InvalidLength); }
      if iNdEx > |dAtA| { return Err(UnexpectedEOF); }   // the next read finds the buffer used up
      assert dAtA[start..][member.value..] == dAtA[iNdEx..];
    }
  }

  /** A length and the index after the bytes it announces; the index is an int64 and may overflow. */
  method GetSpan(dAtA: seq<byte>, i: nat) returns (r: Result<Span, WireError>)
    requires i <= |dAtA|
    ensures match ReadSpan(dAtA[i..], i)
      case Err(e) => r == Err(e)
      case Ok(span) => r == Ok(Span(i + span.start, i + span.end))
  {
    hide Decode;
    var length, iNdEx := Get(dAtA, i);
    if length.Err? { return Err(length.error); }
    var n := ToInt64(length.value);
    if n < 0 { return Err(InvalidLength); }
    var postIndex := iNdEx + n;
    if postIndex >= TWO63 { return Err(InvalidLength); }
    if postIndex > |dAtA| { return Err(UnexpectedEOF); }
    return Ok(Span(iNdEx, postIndex));
  }

  method GetPacked(dAtA: seq<byte>, i: nat, postIndex: nat) returns (r: Result<seq<uint64>, WireError>, iNdEx: nat)
    requires i <= postIndex <= |dAtA|
    ensures match ReadPacked(dAtA[i..], postIndex - i)
      case Err(e) => r == Err(e)
      case Ok(vs) => r == Ok(vs.list) && iNdEx == i + vs.size
  {
    hide Decode;
    var list: seq<uint64> := [];
    iNdEx := i;
    ghost var all := ReadPacked(dAtA[i..], postIndex - i);
    if all.Ok? { assert [] + all.value.list == all.value.list; }
    while iNdEx < postIndex
      invariant i <= iNdEx <= |dAtA|
      invariant match ReadPacked(dAtA[iNdEx..], postIndex - iNdEx)
        case Err(e) => ReadPacked(dAtA[i..], postIndex - i) == Err(e)
        case Ok(vs) => ReadPacked(dAtA[i..], postIndex - i) == Ok(Values(list + vs.list, iNdEx - i + vs.size))
      decreases |dAtA| - iNdEx
    {
      var v, next := Get(dAtA, iNdEx);
      if v.Err? { return Err(v.error), iNdEx; }
      assert dAtA[iNdEx..][next - iNdEx..] == dAtA[next..];
      ghost var rest := ReadPacked(dAtA[next..], postIndex - next);
      if rest.Ok? { assert list + ([v.value] + rest.value.list) == (list + [v.value]) + rest.value.list; }
      list := list + [v.value];
      iNdEx := next;
    }
    assert list + [] == list;
    return Ok(list), iNdEx;
  }

  /** i += copy(dAtA[i:], x) where x fits. */
  method Copy(dAtA: array<byte>, i: nat, x: seq<byte>) returns (next: nat)
    requires i + |x| <= dAtA.Length
    modifies dAtA
    ensures next == i + |x|
    ensures dAtA[..next] == old(dAtA[..i]) + x
    ensures dAtA[next..] == old(dAtA[next..])
  {
    forall k | 0 <= k < |x| {
      dAtA[i + k] := x[k];
    }
    next := i + |x|;
    assert dAtA[i..next] == x;
    assert dAtA[..next] == dAtA[..i] + dAtA[i..next];
  }

  /** One delimited field at i. */
  method PutDelimited(dAtA: array<byte>, i: nat, tag: byte, x: seq<byte>) returns (next: nat)
    requires i + |Delimited(tag, x)| <= dAtA.Length < TWO63
    modifies dAtA
    ensures next == i + |Delimited(tag, x)|
    ensures dAtA[..next] == old(dAtA[..i]) + Delimited(tag, x)
    ensures dAtA[next..] == old(dAtA[next..])
  {
    hide Encode;
    ghost var before := dAtA[..];
    dAtA[i] := tag;
    assert dAtA[..i + 1] == before[..i] + [tag];
    var k := Put(dAtA, i + 1, |x|);
    assert dAtA[k..] == before[k..];
    next := Copy(dAtA, k, x);
    assert dAtA[next..] == before[k..][next - k..];
  }

  class V2Content {
    var Address: seq<byte>
    var ID: seq<byte>
    var Height: int32
    var Winners: seq<seq<byte>>
    var Assets: seq<uint64>
    var XXX_unrecognized: seq<byte>

    function Value(): Msg
      reads this
    {
      Msg(Address, ID, Height, Winners, Assets, XXX_unrecognized)
    }

    constructor ()
      ensures Value() == EMPTY
    {
      Address, ID, Height, Winners, Assets, XXX_unrecognized := [], [], 0, [], [], [];
    }

    /** The byte count, computed without writing anything. */
    method Size() returns (n: nat)
      requires |Bytes(Value())| < TWO63
      ensures n == |Bytes(Value())|
    {
      hide Encode;
      n := 0;
      var l := |Address|;
      if l > 0 {
        var k := Sov(l);
        n := n + 1 + l + k;
      }
      l := |ID|;
      if l > 0 {
        var k := Sov(l);
        n := n + 1 + l + k;
      }
      if Height != 0 {
        var k := Sov(FromInt32(Height));
        n := n + 1 + k;
      }
      var winners := SizeWinners();
      var assets := SizeAssets();
      n := n + winners + assets + |XXX_unrecognized|;
    }

    method SizeWinners() returns (n: nat)
      requires |WinnersBytes(Winners)| < TWO63
      ensures n == |WinnersBytes(Winners)|
    {
      hide Encode;
      n := 0;
      for w := 0 to |Winners|
        invariant n + |WinnersBytes(Winners[w..])| == |WinnersBytes(Winners)|
      {
        assert Winners[w..][1..] == Winners[w + 1..];
        var l := |Winners[w]|;
        var k := Sov(l);
        n := n + 1 + l + k;
      }
    }

    method SizeAssets() returns (n: nat)
      requires |Packed(Assets)| < TWO63
      ensures n == |Optional(0x2a, Packed(Assets))|
    {
      hide Encode;
      n := 0;
      if |Assets| > 0 {
        var l := 0;
        for a := 0 to |Assets|
          invariant l + |Packed(Assets[a..])| == |Packed(Assets)|
        {
          assert Assets[a..][1..] == Assets[a + 1..];
          var k := Sov(Assets[a]);
          l := l + k;
        }
        var k := Sov(l);
        n := 1 + k + l;
      }
    }

    method PutWinners(dAtA: array<byte>, i: nat) returns (next: nat)
      requires i + |WinnersBytes(Winners)| <= dAtA.Length < TWO63
      modifies dAtA
      ensures next == i + |WinnersBytes(Winners)|
      ensures dAtA[..next] == old(dAtA[..i]) + WinnersBytes(Winners)
      ensures dAtA[next..] == old(dAtA[next..])
    {
      hide Encode, Delimited;
      next := i;
      for w := 0 to |Winners|
        invariant next + |WinnersBytes(Winners[w..])| == i + |WinnersBytes(Winners)|
        invariant dAtA[..next] + WinnersBytes(Winners[w..]) == old(dAtA[..i]) + WinnersBytes(Winners)
        invariant dAtA[next..] == old(dAtA[next..])
      {
        assert Winners[w..][1..] == Winners[w + 1..];
        ghost var j, before := next, dAtA[..next];
        next := PutDelimited(dAtA, next, 0x22, Winners[w]);
        assert before + (Delimited(0x22, Winners[w]) + WinnersBytes(Winners[w + 1..]))
          == dAtA[..next] + WinnersBytes(Winners[w + 1..]);
        assert dAtA[next..] == old(dAtA[j..])[next - j..];
      }
    }

    method PutHeight(dAtA: array<byte>, i: nat) returns (next: nat)
      requires i + |HeightBytes(Height)| <= dAtA.Length
      modifies dAtA
      ensures next == i + |HeightBytes(Height)|
      ensures dAtA[..next] == old(dAtA[..i]) + HeightBytes(Height)
      ensures dAtA[next..] == old(dAtA[next..])
    {
      hide Encode;
      next := i;
      if Height != 0 {
        ghost var before := dAtA[..];
        dAtA[i] := 0x18;
        assert dAtA[..i + 1] == before[..i] + [0x18];
        next := Put(dAtA, i + 1, FromInt32(Height));
        assert dAtA[next..] == before[next..];
      }
    }

    method PutOptional(dAtA: array<byte>, i: nat, tag: byte, x: seq<byte>) returns (next: nat)
      requires i + |Optional(tag, x)| <= dAtA.Length < TWO63
      modifies dAtA
      ensures next == i + |Optional(tag, x)|
      ensures dAtA[..next] == old(dAtA[..i]) + Optional(tag, x)
      ensures dAtA[next..] == old(dAtA[next..])
    {
      next := i;
      if |x| > 0 {
        next := PutDelimited(dAtA, i, tag, x);
      }
    }

    /** Writes the message at the front of the buffer: exactly Size() bytes, nothing behind them. */
    method MarshalTo(dAtA: array<byte>) returns (i: nat)
      requires |Bytes(Value())| <= dAtA.Length < TWO63
      modifies dAtA
      ensures i == |Bytes(Value())|
      ensures dAtA[..i] == Bytes(Value())
      ensures XXX_unrecognized == [] ==> TaggedFields(dAtA[..i], 0) == Ok(Expected(Value()))
      ensures dAtA[i..] == old(dAtA[i..])
    {
      hide TaggedFields, Expected, Optional, HeightBytes, WinnersBytes, Packed;
      ghost var b0 := dAtA[..];
      ghost var x1, x2, x3 := Optional(0x0a, Address), Optional(0x12, ID), HeightBytes(Height);
      ghost var x4, x5 := WinnersBytes(Winners), Optional(0x2a, Packed(Assets));
      var i1 := PutOptional(dAtA, 0, 0x0a, Address);
      ghost var b1 := dAtA[..];
      var i2 := PutOptional(dAtA, i1, 0x12, ID);
      ghost var b2 := dAtA[..];
      Compose(b0, b1, b2, i1, i2, x1, x2);
      var i3 := PutHeight(dAtA, i2);
      ghost var b3 := dAtA[..];
      Compose(b0, b2, b3, i2, i3, x1 + x2, x3);
      var i4 := PutWinners(dAtA, i3);
      ghost var b4 := dAtA[..];
      Compose(b0, b3, b4, i3, i4, x1 + x2 + x3, x4);
      var packed := PackAssets();
      var i5 := PutOptional(dAtA, i4, 0x2a, packed);   // an empty list packs to no bytes
      ghost var b5 := dAtA[..];
      Compose(b0, b4, b5, i4, i5, x1 + x2 + x3 + x4, x5);
      i := Copy(dAtA, i5, XXX_unrecognized);
      Compose(b0, b5, dAtA[..], i5, i, x1 + x2 + x3 + x4 + x5, XXX_unrecognized);
      if XXX_unrecognized == [] { KnownWritten(Value()); }
    }

    /** The packed list is built in a buffer of ten bytes per asset first. */
    method PackAssets() returns (packed: seq<byte>)
      ensures packed == Packed(Assets)
    {
      hide Encode;
      var dAtA2 := new byte[|Assets| * 10];
      var j1 := 0;
      for a := 0 to |Assets|
        invariant j1 <= 10 * a
        invariant dAtA2[..j1] + Packed(Assets[a..]) == Packed(Assets)
      {
        assert Assets[a..][1..] == Assets[a + 1..];
        EncodedLength(Assets[a]);
        ghost var before := dAtA2[..j1];
        j1 := Put(dAtA2, j1, Assets[a]);
        assert before + (Encode(Assets[a]) + Packed(Assets[a + 1..])) == dAtA2[..j1] + Packed(Assets[a + 1..]);
      }
      packed := dAtA2[..j1];
    }

    method Marshal() returns (dAtA: array<byte>)
      requires |Bytes(Value())| < TWO63
      ensures fresh(dAtA) && dAtA[..] == Bytes(Value())
      ensures XXX_unrecognized == [] ==> TaggedFields(dAtA[..], 0) == Ok(Expected(Value()))
    {
      hide TaggedFields, Expected, KnownBytes;
      var size := Size();
      dAtA := new byte[size];
      var n := MarshalTo(dAtA);
      assert dAtA[..n] == dAtA[..];
    }

    /** The body of the loop of Unmarshal: one field, from its tag to the index after it. */
    method UnmarshalField(dAtA: seq<byte>, preIndex: nat) returns (r: Result<nat, WireError>)
      requires preIndex < |dAtA|
      modifies this
      ensures match ParseField(dAtA[preIndex..], preIndex)
        case Err(e) => r == Err(e)
        case Ok(p) => r == Ok(preIndex + p.size) && Value() == Apply(old(Value()), p.field)
    {
      hide Decode, Skip, ParseKnown, ParseUnknown, Apply, Value, ToInt32, Fields, TaggedFields, Expected;
      ghost var s := dAtA[preIndex..];
      var wire, iNdEx := Get(dAtA, preIndex);
      if wire.Err? { return Err(wire.error); }
      assert s[iNdEx - preIndex..] == dAtA[iNdEx..];
      var fieldNum := ToInt32(wire.value / 8);
      var wireType := wire.value % 8;
      if wireType == 4 { return Err(EndGroup); }
      if fieldNum <= 0 { return Err(IllegalTag); }
      if fieldNum > 5 {
        var unknown := UnmarshalUnknown(dAtA, preIndex);
        return unknown;
      }
      var known := UnmarshalKnown(dAtA, iNdEx, fieldNum, wireType);
      return known;
    }

    /** An unknown field is skipped and kept, tag and all. */
    method UnmarshalUnknown(dAtA: seq<byte>, preIndex: nat) returns (r: Result<nat, WireError>)
      requires preIndex < |dAtA|
      modifies this`XXX_unrecognized
      ensures match ParseUnknown(dAtA[preIndex..], preIndex)
        case Err(e) => r == Err(e)
        case Ok(p) => r == Ok(preIndex + p.size) && Value() == Apply(old(Value()), p.field)
    {
      hide Skip;
      var skippy := SkipV2Content(dAtA[preIndex..]);
      if skippy.Err? { return Err(skippy.error); }
      var postIndex := preIndex + skippy.value;
      if postIndex >= TWO63 { return Err(InvalidLength); }
      if postIndex > |dAtA| { return Err(UnexpectedEOF); }
      XXX_unrecognized := XXX_unrecognized + dAtA[preIndex..postIndex];
      assert dAtA[preIndex..postIndex] == dAtA[preIndex..][..skippy.value];
      return Ok(postIndex);
    }

    method UnmarshalKnown(dAtA: seq<byte>, iNdEx: nat, fieldNum: int, wireType: nat) returns (r: Result<nat, WireError>)
      requires iNdEx <= |dAtA| && 1 <= fieldNum <= 5
      modifies this
      ensures match ParseKnown(fieldNum, wireType, dAtA[iNdEx..], iNdEx)
        case Err(e) => r == Err(e)
        case Ok(p) => r == Ok(iNdEx + p.size) && Value() == Apply(old(Value()), p.field)
    {
      hide Decode, ReadSpan, ReadPacked;
      if fieldNum == 3 {
        if wireType != 0 { return Err(WrongWireType); }
        Height := 0;
        var h, next := Get(dAtA, iNdEx);
        if h.Err? { return Err(h.error); }
        Low32(Decode(dAtA[iNdEx..], 0).value.raw);
        Height := ToInt32(h.value);
        return Ok(next);
      }
      if fieldNum == 5 && wireType == 0 {
        var v, next := Get(dAtA, iNdEx);
        if v.Err? { return Err(v.error); }
        Assets := Assets + [v.value];
        return Ok(next);
      }
      if wireType != 2 { return Err(WrongWireType); }
      var span := GetSpan(dAtA, iNdEx);
      if span.Err? { return Err(span.error); }
      var start, postIndex := span.value.start, span.value.end;
      if fieldNum == 5 {
        var vs, next := GetPacked(dAtA, start, postIndex);
        if vs.Err? { return Err(vs.error); }
        Assets := Assets + vs.value;
        return Ok(next);
      }
      var text := dAtA[start..postIndex];
      assert text == dAtA[iNdEx..][start - iNdEx..postIndex - iNdEx];
      if fieldNum == 1 {
        Address := text;
      } else if fieldNum == 2 {
        ID := text;
      } else {
        Winners := Winners + [text];
      }
      return Ok(postIndex);
    }

    /**
      Fills this message in from the buffer. On success the whole buffer was read and the state is
      the one Content.Unmarshal gives; on failure the error is the one of the first bad field.
     */
    method Unmarshal(dAtA: seq<byte>) returns (r: Result<(), WireError>)
      modifies this
      ensures match Content.Unmarshal(old(Value()), dAtA)
        case Err(e) => r == Err(e)
        case Ok(m) => r == Ok(()) && Value() == m
    {
      hide ParseField;
      var iNdEx := 0;
      assert dAtA[0..] == dAtA;
      while iNdEx < |dAtA|
        invariant iNdEx <= |dAtA|
        invariant match Fields(dAtA[iNdEx..], iNdEx)
          case Err(e) => Fields(dAtA, 0) == Err(e)
          case Ok(fs) => Fields(dAtA, 0).Ok? && ApplyAll(old(Value()), Fields(dAtA, 0).value) == ApplyAll(Value(), fs)
        decreases |dAtA| - iNdEx
      {
        ghost var s := dAtA[iNdEx..];
        var next := UnmarshalField(dAtA, iNdEx);
        if next.Err? { return Err(next.error); }
        assert s[next.value - iNdEx..] == dAtA[next.value..];
        iNdEx := next.value;
      }
      return Ok(());
    }
  }

  /** What is written for a message without unknown fields. */
  lemma KnownWritten(m: Msg)
    requires m.unknown == [] && |Bytes(m)| < TWO63
    ensures TaggedFields(Bytes(m), 0) == Ok(Expected(m))
  {
    hide KnownBytes, Expected, TaggedFields;
    assert KnownBytes(m) + [] == KnownBytes(m);
    KnownHold(m);
  }

  /** Two writes in a row, the first up to i and the second up to j, write x and then y. */
  lemma Compose(b: seq<byte>, c: seq<byte>, d: seq<byte>, i: nat, j: nat, x: seq<byte>, y: seq<byte>)
    requires |b| == |c| == |d| && i <= j <= |b|
    requires c[..i] == x && c[i..] == b[i..]
    requires d[..j] == c[..i] + y && d[j..] == c[j..]
    ensures d[..j] == x + y && d[j..] == b[j..]
  {
    assert c[j..] == c[i..][j - i..] == b[i..][j - i..] == b[j..];
  }

  /** The source ors the groups into an int32 directly; bits above 32 are lost either way. */
  lemma Low32(raw: nat)
    ensures ToInt32(raw % TWO64) == ToInt32(raw)
  {
    assert raw % TWO64 % TWO32 == raw % TWO32 by {
      assert raw == raw / TWO64 * TWO32 * TWO32 + raw % TWO64;
    }
  }
}
