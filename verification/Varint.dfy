/**
  Base 128 varints (modules/opr/V2Content.pb.go): the encoder loop, the size loop and the
  decoder loop, which the source repeats inline for every field.
 */
module Varint {
  import opened Common
  import opened Division

  datatype WireError =
    | IntOverflow        // a varint longer than ten bytes
    | UnexpectedEOF      // the buffer ends inside a field
    | InvalidLength      // a length, or the index after it, is negative as an int64
    | EndGroup           // an end-group tag outside a group
    | IllegalTag         // a field number that is not positive
    | WrongWireType      // a known field with the wrong wire type
    | IllegalWireType    // wire type 6 or 7

  /** The bytes of v, least significant seven bits first, the top bit marking continuation. */
  function Encode(v: nat): (s: seq<byte>)
    ensures |s| >= 1
  {
    if v < 128 then [v] else [v % 128 + 128] + Encode(v / 128)
  }

  /** What a varint read yields: the sum of the 7-bit groups (up to 70 bits) and the bytes consumed. */
  datatype Read = Read(raw: nat, size: nat)

  /** Reads a varint at the front of s, k bytes of it already read; the shift is then 7 * k. */
  function Decode(s: seq<byte>, k: nat): (r: Result<Read, WireError>)
    requires k <= 10
    ensures r.Ok? ==> 1 <= r.value.size <= |s| && r.value.size + k <= 10
    decreases 10 - k
  {
    if k == 10 then Err(IntOverflow)
    else if s == [] then Err(UnexpectedEOF)
    else if s[0] < 128 then Ok(Read(s[0], 1))
    else match Decode(s[1..], k + 1)
      case Err(e) => Err(e)
      case Ok(rest) => Ok(Read(s[0] % 128 + 128 * rest.raw, 1 + rest.size))
  }

  /** Reading what was written gives the value back, whatever follows it. */
  lemma {:induction false} DecodeEncode(v: nat, t: seq<byte>, k: nat)
    requires k + |Encode(v)| <= 10
    ensures Decode(Encode(v) + t, k) == Ok(Read(v, |Encode(v)|))
  {
    if v >= 128 {
      assert (Encode(v) + t)[1..] == Encode(v / 128) + t;
      DecodeEncode(v / 128, t, k + 1);
    }
  }

  /** Every uint64 takes at most ten bytes, so it always decodes. */
  lemma EncodedLength(v: uint64)
    ensures |Encode(v)| <= 10
  {
    LengthBelow(v, 10);
  }

  function Pow128(k: nat): (p: nat)
    ensures p >= 1
  {
    if k == 0 then 1 else 128 * Pow128(k - 1)
  }

  lemma {:induction false} LengthBelow(v: nat, k: nat)
    requires 1 <= k && v < Pow128(k)
    ensures |Encode(v)| <= k
  {
    if v >= 128 {
      LengthBelow(v / 128, k - 1);
    }
  }

  /** A successful read depends on the bytes it consumed and on nothing else. */
  lemma {:induction false} DecodeLocal(s: seq<byte>, t: seq<byte>, k: nat)
    requires k <= 10 && Decode(s, k).Ok?
    requires var n := Decode(s, k).value.size; n <= |t| && t[..n] == s[..n]
    ensures Decode(t, k) == Decode(s, k)
  {
    var n := Decode(s, k).value.size;
    assert t[0] == t[..n][0] == s[..n][0] == s[0];
    if s[0] >= 128 {
      assert t[1..][..n - 1] == t[..n][1..] == s[..n][1..] == s[1..][..n - 1];
      DecodeLocal(s[1..], t[1..], k + 1);
    }
  }

  /** The size loop counts exactly the bytes the encoder loop emits. */
  method Sov(x: uint64) returns (n: nat)
    ensures n == |Encode(x)|
  {
    n := 0;
    var y: nat := x;
    while true
      invariant n + |Encode(y)| == |Encode(x)|
      decreases y
    {
      n := n + 1;
      var z := y / 128;
      if z == 0 { break; }
      y := z;
    }
  }

  /** Writes v at offset; everything before and after the bytes written is left alone. */
  method Put(dAtA: array<byte>, offset: nat, v: uint64) returns (next: nat)
    requires offset + |Encode(v)| <= dAtA.Length
    modifies dAtA
    ensures next == offset + |Encode(v)|
    ensures dAtA[..next] == old(dAtA[..offset]) + Encode(v)
    ensures dAtA[next..] == old(dAtA[next..])
  {
    var o, w := offset, v;
    while w >= 128
      invariant offset <= o && 0 <= w
      invariant o + |Encode(w)| == offset + |Encode(v)|
      invariant dAtA[..o] + Encode(w) == old(dAtA[..offset]) + Encode(v)
      invariant forall k | o <= k < dAtA.Length :: dAtA[k] == old(dAtA[k])
      decreases w
    {
      ghost var before := dAtA[..];
      dAtA[o] := w % 128 + 128;
      assert dAtA[..o + 1] == before[..o] + [w % 128 + 128];
      assert dAtA[..o + 1] + Encode(w / 128) == before[..o] + Encode(w);
      w := w / 128;
      o := o + 1;
    }
    ghost var before := dAtA[..];
    dAtA[o] := w;
    assert dAtA[..o + 1] == before[..o] + [w];
    next := o + 1;
  }

  lemma PowerBound(k: nat)
    requires k <= 9
    ensures 128 * Pow128(k) == Pow128(k + 1)
    ensures Pow128(k) <= Pow128(9) == TWO63
    decreases 9 - k
  {
    if k < 9 { PowerBound(k + 1); }
  }

  /**
    The accumulator update v |= uint64(g) << (7 * k). The shift drops the bits above 64, and the
    groups occupy disjoint bits, so the bitwise or of the source is an addition.
   */
  function ShiftIn(v: nat, g: nat, k: nat): nat {
    v + g * Pow128(k) % TWO64
  }

  /** The read as a whole, given the accumulator after k bytes and the read of the rest. */
  function Total(v: nat, k: nat, rest: Read): Read {
    Read(v + Pow128(k) * rest.raw, k + rest.size)
  }

  /** A group that is not the tenth is shifted without loss. */
  lemma MiddleGroup(v: nat, g: nat, k: nat, rest: Read)
    requires k < 9 && v < Pow128(k) && g < 128
    ensures ShiftIn(v, g, k) < Pow128(k + 1)
    ensures Total(v, k, Read(g + 128 * rest.raw, 1 + rest.size)) == Total(ShiftIn(v, g, k), k + 1, rest)
  {
    hide Pow128;
    PowerBound(k);
    PowerBound(k + 1);
    GroupFits(v, g, Pow128(k));
    Spread(Pow128(k), g, rest.raw);
  }

  lemma GroupFits(v: nat, g: nat, p: nat)
    requires v < p && g < 128 && 128 * p <= TWO63
    ensures g * p % TWO64 == g * p && v + g * p < 128 * p
  {
    Product(g, p);
    Times(g, 127, p);
  }

  lemma Spread(p: nat, g: nat, raw: nat)
    ensures p * (g + 128 * raw) == g * p + 128 * p * raw
  {
  }

  /** The last group may lose bits above 64; the sum is then the total modulo 2^64. */
  lemma LastGroup(v: nat, g: nat, k: nat)
    requires k < 10 && v < Pow128(k) && g < 128
    ensures ShiftIn(v, g, k) == Total(v, k, Read(g, 1)).raw % TWO64
  {
    hide Pow128;
    PowerBound(9);
    if k < 9 {
      MiddleGroup(v, g, k, Read(0, 0));
      PowerBound(k + 1);
      var whole := Total(v, k, Read(g, 1)).raw;
      assert whole == Total(v, k, Read(g + 128 * 0, 1 + 0)).raw == ShiftIn(v, g, k);
      Remainder(0, whole);
    } else {
      TenthGroup(v, g);
    }
  }

  /** Of the tenth group only the lowest bit counts. */
  lemma TenthGroup(v: nat, g: nat)
    requires v < TWO63
    ensures v + g * TWO63 % TWO64 == (v + TWO63 * g) % TWO64
  {
    assert g * TWO63 == g / 2 * TWO64 + g % 2 * TWO63;
    Remainder(g / 2, g % 2 * TWO63);
    Remainder(g / 2, v + g % 2 * TWO63);
  }

  lemma Remainder(q: int, r: nat)
    requires r < TWO64
    ensures (q * TWO64 + r) % TWO64 == r
  {
  }

  /** The outcome of the whole read, given the accumulator v after k bytes and the bytes s ahead. */
  ghost function Resume(s: seq<byte>, v: nat, k: nat): Result<Read, WireError>
    requires k <= 10
  {
    match Decode(s, k)
    case Err(e) => Err(e)
    case Ok(x) => Ok(Total(v, k, x))
  }

  lemma ResumeStart(s: seq<byte>)
    ensures Resume(s, 0, 0) == Decode(s, 0)
  {
  }

  lemma ResumeStop(s: seq<byte>, v: nat, k: nat)
    requires k <= 10
    ensures k == 10 ==> Resume(s, v, k) == Err(IntOverflow)
    ensures k < 10 && s == [] ==> Resume(s, v, k) == Err(UnexpectedEOF)
  {
  }

  lemma ResumeStep(s: seq<byte>, v: nat, k: nat)
    requires k < 10 && v < Pow128(k) && s != [] && s[0] >= 128
    ensures Resume(s, v, k) == Resume(s[1..], ShiftIn(v, s[0] % 128, k), k + 1)
    ensures k < 9 ==> ShiftIn(v, s[0] % 128, k) < Pow128(k + 1)
  {
    if k < 9 {
      var rest := Decode(s[1..], k + 1);
      MiddleGroup(v, s[0] % 128, k, if rest.Ok? then rest.value else Read(0, 0));
    }
  }

  lemma ResumeLast(s: seq<byte>, v: nat, k: nat)
    requires k < 10 && v < Pow128(k) && s != [] && s[0] < 128
    ensures Resume(s, v, k).Ok? && Resume(s, v, k).value.size == k + 1
    ensures Resume(s, v, k).value.raw % TWO64 == ShiftIn(v, s[0], k) < TWO64
  {
    LastGroup(v, s[0], k);
  }

  /** The decoder loop at index i. */
  method Get(dAtA: seq<byte>, i: nat) returns (r: Result<uint64, WireError>, next: nat)
    requires i <= |dAtA|
    ensures match Decode(dAtA[i..], 0)
      case Err(e) => r == Err(e)
      case Ok(x) => r == Ok(x.raw % TWO64) && next == i + x.size
  {
    hide Decode, Resume, ShiftIn, Pow128;
    ResumeStart(dAtA[i..]);
    assert 0 < Pow128(0);
    next := i;
    var v: nat, k: nat := 0, 0;    // the source's shift is 7 * k
    while true
      invariant k <= 10 && next == i + k <= |dAtA|
      invariant k < 10 ==> v < Pow128(k)
      invariant Resume(dAtA[next..], v, k) == Resume(dAtA[i..], 0, 0)
      decreases 10 - k
    {
      ResumeStop(dAtA[next..], v, k);
      if k == 10 { return Err(IntOverflow), next; }
      if next >= |dAtA| { return Err(UnexpectedEOF), next; }
      var b := dAtA[next];
      assert dAtA[next..][0] == b && dAtA[next..][1..] == dAtA[next + 1..];
      if b < 128 {
        ResumeLast(dAtA[next..], v, k);
        return Ok(ShiftIn(v, b, k)), next + 1;
      }
      ResumeStep(dAtA[next..], v, k);
      v, next, k := ShiftIn(v, b % 128, k), next + 1, k + 1;
    }
  }
}
