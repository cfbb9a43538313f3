/** Which bytes a reader accepts, and what it reports for the others, read off the bytes. */
module WireErrors {
  import opened Common
  import opened Division
  import opened Varint
  import opened Wire

  // ---------- a varint ----------

  lemma {:induction false} DecodeFrom(s: seq<byte>, n: nat, k: nat)
    requires n <= |s| && k + n <= 10 && forall i | 0 <= i < n :: s[i] >= 128
    ensures k + n == 10 ==> Decode(s, k) == Err(IntOverflow)
    ensures k + n < 10 && n == |s| ==> Decode(s, k) == Err(UnexpectedEOF)
    ensures k + n < 10 && n < |s| && s[n] < 128 ==> Decode(s, k).Ok? && Decode(s, k).value.size == n + 1
    decreases n
  {
    if n > 0 { DecodeFrom(s[1..], n - 1, k + 1); }
  }

  /** What is read is made of the low seven bits of each byte consumed, the first one lowest. */
  lemma {:induction false} DecodeGroups(s: seq<byte>, k: nat, i: nat)
    requires k <= 10 && Decode(s, k).Ok? && i < Decode(s, k).value.size
    ensures Decode(s, k).value.raw / Pow128(i) % 128 == s[i] % 128
    ensures Decode(s, k).value.raw < Pow128(Decode(s, k).value.size)
    decreases |s|
  {
    if s[0] >= 128 {
      hide Pow128;
      var rest := Decode(s[1..], k + 1).value;
      DecodeGroups(s[1..], k + 1, if i == 0 then 0 else i - 1);
      GroupBehind(s[0] % 128, rest.raw, i, rest.size);
    } else {
      FirstGroup(s[0]);
    }
  }

  lemma FirstGroup(g: nat)
    requires g < 128
    ensures g / Pow128(0) % 128 == g && g < Pow128(1)
  {
    assert Pow128(0) == 1 && Pow128(1) == 128;
  }

  lemma GroupBehind(g: nat, raw: nat, i: nat, size: nat)
    requires g < 128 && raw < Pow128(size)
    ensures i == 0 ==> (g + 128 * raw) / Pow128(i) % 128 == g
    ensures i > 0 ==> (g + 128 * raw) / Pow128(i) == raw / Pow128(i - 1)
    ensures g + 128 * raw < Pow128(size + 1)
  {
    assert (g + 128 * raw) / 128 == raw && (g + 128 * raw) % 128 == g;
    if i > 0 { DivideTwice(g + 128 * raw, 128, Pow128(i - 1)); }
  }

  /**
    A varint ends at the first byte below 128. It is refused if the first ten bytes hold none, and if the
    buffer ends before.
   */
  lemma VarintFate(s: seq<byte>, n: nat)
    requires n <= |s| && forall i | 0 <= i < n :: s[i] >= 128
    ensures n >= 10 ==> Decode(s, 0) == Err(IntOverflow)
    ensures n == |s| < 10 ==> Decode(s, 0) == Err(UnexpectedEOF)
    ensures n < 10 && n < |s| && s[n] < 128 ==>
      Decode(s, 0).Ok? && Decode(s, 0).value.size == n + 1 && Decode(s, 0).value.raw < Pow128(n + 1)
    ensures n < 10 && n < |s| && s[n] < 128 ==>
      forall i | 0 <= i <= n :: Decode(s, 0).value.raw / Pow128(i) % 128 == s[i] % 128
  {
    hide Decode, Pow128;
    DecodeFrom(s, if n < 10 then n else 10, 0);
    if n < 10 && n < |s| && s[n] < 128 {
      forall i | 0 <= i <= n
        ensures Decode(s, 0).value.raw / Pow128(i) % 128 == s[i] % 128
        ensures Decode(s, 0).value.raw < Pow128(n + 1)
      {
        DecodeGroups(s, 0, i);
      }
      DecodeGroups(s, 0, 0);
    }
  }

  // ---------- a field ----------

  /** The wire types that a field of this number may have. */
  predicate Allowed(number: int, wireType: nat) {
    match number
    case 1 => wireType == 2
    case 2 => wireType == 2
    case 3 => wireType == 0
    case 4 => wireType == 2
    case 5 => wireType == 0 || wireType == 2
    case _ => wireType <= 5 && wireType != 4
  }

  /** The number of a field: bits 3 to 34 of its tag as a signed number. */
  function Number(tag: nat): int {
    var n := tag / 8 % 0x1_0000_0000;
    if n < 0x8000_0000 then n else n - 0x1_0000_0000
  }

  lemma NumberIs(raw: nat)
    ensures ToInt32(raw % TWO64 / 8) == Number(raw % TWO64)
  {
  }

  /** By its tag alone a field is refused, with this error, or its wire type fits its number. */
  lemma TagFate(s: seq<byte>, i: nat)
    requires s != [] && Decode(s, 0).Ok?
    ensures var tag := Decode(s, 0).value.raw % TWO64;
      var number, wireType, r := Number(tag), tag % 8, ParseField(s, i);
      && (wireType == 4 ==> r == Err(EndGroup))
      && (wireType != 4 && number <= 0 ==> r == Err(IllegalTag))
      && (wireType != 4 && number in {1, 2, 3, 4, 5} && !Allowed(number, wireType) ==> r == Err(WrongWireType))
      && (wireType != 4 && number > 5 && !Allowed(number, wireType) ==> r == Err(IllegalWireType))
      && (r.Ok? ==> number > 0 && Allowed(number, wireType))
  {
    hide Decode, ReadSpan, ReadPacked;
    var raw := Decode(s, 0).value.raw;
    assert raw % TWO64 % 8 == raw % 8;
    NumberIs(raw);
  }

  /** A known field with a length: a length of 2^63 or more is invalid, one that reaches past the end is not there. */
  lemma LengthFate(s: seq<byte>, i: nat)
    requires s != [] && Decode(s, 0).Ok? && i + |s| < TWO63
    requires var tag := Decode(s, 0).value; FieldNum(tag) in {1, 2, 4, 5} && tag.raw % 8 == 2
    requires Decode(s[Decode(s, 0).value.size..], 0).Ok?
    ensures var start := Decode(s, 0).value.size;
      var length, r := Decode(s[start..], 0).value, ParseField(s, i);
      var n, from := length.raw % TWO64, start + length.size;
      && (n >= TWO63 || i + from + n >= TWO63 ==> r == Err(InvalidLength))
      && (i + from + n < TWO63 && from + n > |s| ==> r == Err(UnexpectedEOF))
      && (r.Ok? ==> from + n <= |s|)
      && (FieldNum(Decode(s, 0).value) != 5 && from + n <= |s| ==>
        r.Ok? && r.value.size == from + n && r.value.field.text == s[from..from + n])
  {
    hide Decode, Skip, ReadPacked, FieldNum;
    var start := Decode(s, 0).value.size;
    var rest := s[start..];
    var span := ReadSpan(rest, i + start);
    if span.Ok? {
      assert rest[span.value.start..span.value.end] == s[start + span.value.start..start + span.value.end];
    }
  }

  // ---------- a buffer ----------

  /** The first field that is refused decides: what stands before it and behind it does not matter. */
  lemma {:induction false} FirstRefused(a: seq<byte>, b: seq<byte>, i: nat, e: WireError)
    requires Fields(a, i).Ok? && b != [] && ParseField(b, i + |a|) == Err(e) && i + |a + b| < TWO63
    ensures Fields(a + b, i) == Err(e)
    decreases |a|
  {
    hide ParseField;
    if a == [] {
      assert a + b == b;
    } else {
      var n := ParseField(a, i).value.size;
      assert (a + b)[..n] == a[..n] && (a + b)[n..] == a[n..] + b;
      ParseFieldLocal(a, a + b, i, i);
      FirstRefused(a[n..], b, i + n, e);
    }
  }
}
