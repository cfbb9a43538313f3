/**
  The fields of a serialized V2Content (modules/opr/V2Content.pb.go): what one field is, which
  bytes it takes, and how a message is the left-to-right sum of its fields.
 */
module Wire {
  import opened Common
  import opened Varint

  // ---------- skipping an unknown field ----------

  /**
    The index after the field that s starts with; the tag is read again. The index is not
    compared with |s| here, the caller does that. The source's test that an int64 index has
    become negative is written as: the sum exceeds MaxInt64.
   */
  function Skip(s: seq<byte>): (r: Result<nat, WireError>)
    requires s != []
    ensures r.Ok? ==> r.value > 0
    decreases |s|, 0
  {
    match Decode(s, 0)
    case Err(e) => Err(e)
    case Ok(tag) =>
      var i := tag.size;
      match tag.raw % 8
      case 0 => (match Decode(s[i..], 0) case Err(e) => Err(e) case Ok(x) => Ok(i + x.size))
      case 1 => Ok(i + 8)
      case 2 => SkipBytes(s[i..], i)
      case 3 => (match SkipGroup(s[i..], i) case Err(e) => Err(e) case Ok(n) => Ok(i + n))
      case 4 => Ok(i)
      case 5 => Ok(i + 4)
      case _ => Err(IllegalWireType)
  }

  /** A length-delimited field whose length starts s, i bytes after its tag started. */
  function SkipBytes(s: seq<byte>, i: nat): (r: Result<nat, WireError>)
    ensures r.Ok? ==> r.value >= i
  {
    match Decode(s, 0)
    case Err(e) => Err(e)
    case Ok(x) =>
      var length := ToInt64(x.raw % TWO64);
      if length < 0 || i + x.size + length >= TWO63 then Err(InvalidLength)
      else Ok(i + x.size + length)
  }

  /**
    The loop over the members of a group: the bytes from s to the end tag, end tag included.
    The loop index is i at the start of s. A member can be a group again.
   */
  function SkipGroup(s: seq<byte>, i: nat): (r: Result<nat, WireError>)
    ensures r.Ok? ==> 0 < r.value <= |s|
    decreases |s|, 1
  {
    match Decode(s, 0)
    case Err(e) => Err(e)
    case Ok(tag) =>
      if tag.raw % 8 == 4 then Ok(tag.size)
      else match Skip(s)
        case Err(e) => Err(e)
        case Ok(next) =>
          if i + next >= TWO63 then Err(InvalidLength)
          else if next > |s| then Err(UnexpectedEOF)
          else match SkipGroup(s[next..], i + next)
            case Err(e) => Err(e)
            case Ok(rest) => Ok(next + rest)
  }

  ghost predicate SamePrefix(s: seq<byte>, t: seq<byte>, n: nat) {
    n <= |s| && n <= |t| && s[..n] == t[..n]
  }

  lemma SamePrefixDrop(s: seq<byte>, t: seq<byte>, n: nat, i: nat, j: nat)
    requires SamePrefix(s, t, n) && i <= j <= n
    ensures SamePrefix(s[i..], t[i..], j - i)
  {
    assert s[i..][..j - i] == s[..n][i..j] && t[i..][..j - i] == t[..n][i..j];
  }

  /** The tag is among the bytes skipped. */
  lemma SkipCovers(s: seq<byte>)
    requires s != [] && Skip(s).Ok?
    ensures Decode(s, 0).Ok? && Decode(s, 0).value.size <= Skip(s).value
  {
  }

  lemma ReadLocal(s: seq<byte>, t: seq<byte>, n: nat)
    requires SamePrefix(s, t, n) && Decode(s, 0).Ok? && Decode(s, 0).value.size <= n
    ensures Decode(t, 0) == Decode(s, 0)
  {
    SamePrefixDrop(s, t, n, 0, Decode(s, 0).value.size);
    assert s[0..] == s && t[0..] == t;
    DecodeLocal(s, t, 0);
  }

  /** Skipping depends on the bytes it consumes only, at every nesting depth. */
  lemma {:induction false} SkipLocal(s: seq<byte>, t: seq<byte>)
    requires s != [] && t != [] && Skip(s).Ok?
    requires SamePrefix(s, t, Skip(s).value)
    ensures Skip(t) == Skip(s)
    decreases |s|, 0
  {
    hide Decode;
    var n, tag := Skip(s).value, Decode(s, 0).value;
    var i := tag.size;
    ReadLocal(s, t, n);
    SamePrefixDrop(s, t, n, i, n);
    match tag.raw % 8 {
      case 0 => ReadLocal(s[i..], t[i..], n - i);
      case 2 => ReadLocal(s[i..], t[i..], n - i);
      case 3 => SkipGroupLocal(s[i..], t[i..], i);
      case _ =>
    }
  }

  lemma {:induction false} SkipGroupLocal(s: seq<byte>, t: seq<byte>, i: nat)
    requires SkipGroup(s, i).Ok?
    requires SamePrefix(s, t, SkipGroup(s, i).value)
    ensures SkipGroup(t, i) == SkipGroup(s, i)
    decreases |s|, 1
  {
    hide Decode, Skip, SamePrefix;
    var n, tag := SkipGroup(s, i).value, Decode(s, 0).value;
    if tag.raw % 8 == 4 {
      ReadLocal(s, t, n);
    } else {
      var next := Skip(s).value;
      SkipCovers(s);
      ReadLocal(s, t, n);
      SamePrefixDrop(s, t, n, 0, next);
      assert s[0..] == s && t[0..] == t;
      SkipLocal(s, t);
      SamePrefixDrop(s, t, n, next, n);
      SkipGroupLocal(s[next..], t[next..], i + next);
    }
  }

  // ---------- one field ----------

  /** What one field on the wire tells the message. A packed list is one field with many assets. */
  datatype Field =
    | Address(text: seq<byte>)
    | ID(text: seq<byte>)
    | Height(height: int32)
    | Winner(text: seq<byte>)
    | Assets(values: seq<uint64>)
    | Unknown(text: seq<byte>)

  datatype Parsed = Parsed(field: Field, size: nat)

  /** A stretch of bytes, relative to where its length varint started. */
  datatype Span = Span(start: nat, end: nat)

  /** A length and the bytes it announces, at the front of s; s starts at index i of the buffer. */
  function ReadSpan(s: seq<byte>, i: nat): (r: Result<Span, WireError>)
    ensures r.Ok? ==> 0 < r.value.start <= r.value.end <= |s|
  {
    match Decode(s, 0)
    case Err(e) => Err(e)
    case Ok(x) =>
      var length := ToInt64(x.raw % TWO64);
      if length < 0 || i + x.size + length >= TWO63 then Err(InvalidLength)
      else if x.size + length > |s| then Err(UnexpectedEOF)
      else Ok(Span(x.size, x.size + length))
  }

  datatype Values = Values(list: seq<uint64>, size: nat)

  /** Varints until `declared` bytes are used up; the last one may run past that, never past s. */
  function ReadPacked(s: seq<byte>, declared: int): (r: Result<Values, WireError>)
    ensures r.Ok? ==> declared <= r.value.size <= |s|
    decreases |s|
  {
    if declared <= 0 then Ok(Values([], 0))
    else match Decode(s, 0)
      case Err(e) => Err(e)
      case Ok(x) =>
        match ReadPacked(s[x.size..], declared - x.size)
        case Err(e) => Err(e)
        case Ok(rest) => Ok(Values([x.raw % TWO64] + rest.list, x.size + rest.size))
  }

  function FieldNum(tag: Read): int32 {
    ToInt32(tag.raw % TWO64 / 8)
  }

  /** The field at the front of s; s starts at index i of the buffer. */
  function ParseField(s: seq<byte>, i: nat): (r: Result<Parsed, WireError>)
    requires s != []
    ensures r.Ok? ==> 0 < r.value.size <= |s|
  {
    match Decode(s, 0)
    case Err(e) => Err(e)
    case Ok(tag) =>
      if tag.raw % 8 == 4 then Err(EndGroup)
      else if FieldNum(tag) <= 0 then Err(IllegalTag)
      else if FieldNum(tag) > 5 then ParseUnknown(s, i)
      else match ParseKnown(FieldNum(tag), tag.raw % 8, s[tag.size..], i + tag.size)
        case Err(e) => Err(e)
        case Ok(p) => Ok(Parsed(p.field, tag.size + p.size))
  }

  /** The rest of a known field, after its tag. */
  function ParseKnown(fieldNum: int, wireType: nat, s: seq<byte>, i: nat): (r: Result<Parsed, WireError>)
    requires 1 <= fieldNum <= 5
    ensures r.Ok? ==> r.value.size <= |s|
  {
    if fieldNum == 3 then
      if wireType != 0 then Err(WrongWireType)
      else match Decode(s, 0)
        case Err(e) => Err(e)
        case Ok(x) => Ok(Parsed(Height(ToInt32(x.raw)), x.size))
    else if fieldNum == 5 && wireType == 0 then
      match Decode(s, 0)
      case Err(e) => Err(e)
      case Ok(x) => Ok(Parsed(Assets([x.raw % TWO64]), x.size))
    else if wireType != 2 then Err(WrongWireType)
    else match ReadSpan(s, i)
      case Err(e) => Err(e)
      case Ok(span) =>
        if fieldNum == 5 then
          match ReadPacked(s[span.start..], span.end - span.start)
          case Err(e) => Err(e)
          case Ok(vs) => Ok(Parsed(Assets(vs.list), span.start + vs.size))
        else
          var text := s[span.start..span.end];
          Ok(Parsed(if fieldNum == 1 then Address(text) else if fieldNum == 2 then ID(text) else Winner(text), span.end))
  }

  /** A field the message does not know is kept as it stands, tag included. */
  function ParseUnknown(s: seq<byte>, i: nat): (r: Result<Parsed, WireError>)
    requires s != []
    ensures r.Ok? ==> 0 < r.value.size <= |s|
  {
    match Skip(s)
    case Err(e) => Err(e)
    case Ok(n) =>
      if i + n >= TWO63 then Err(InvalidLength)
      else if n > |s| then Err(UnexpectedEOF)
      else Ok(Parsed(Unknown(s[..n]), n))
  }

  lemma ReadSpanLocal(s: seq<byte>, t: seq<byte>, n: nat, i: nat, j: nat)
    requires ReadSpan(s, i).Ok? && ReadSpan(s, i).value.end <= n
    requires SamePrefix(s, t, n) && j + |t| < TWO63
    ensures ReadSpan(t, j) == ReadSpan(s, i)
  {
    hide Decode;
    ReadLocal(s, t, n);
  }

  lemma {:induction false} ReadPackedLocal(s: seq<byte>, t: seq<byte>, declared: int)
    requires ReadPacked(s, declared).Ok? && SamePrefix(s, t, ReadPacked(s, declared).value.size)
    ensures ReadPacked(t, declared) == ReadPacked(s, declared)
    decreases |s|
  {
    hide Decode;
    var n := ReadPacked(s, declared).value.size;
    if declared > 0 {
      ReadLocal(s, t, n);
      var x := Decode(s, 0).value;
      SamePrefixDrop(s, t, n, x.size, n);
      ReadPackedLocal(s[x.size..], t[x.size..], declared - x.size);
    }
  }

  lemma ParseKnownLocal(fieldNum: int, wireType: nat, s: seq<byte>, t: seq<byte>, i: nat, j: nat)
    requires 1 <= fieldNum <= 5 && ParseKnown(fieldNum, wireType, s, i).Ok?
    requires SamePrefix(s, t, ParseKnown(fieldNum, wireType, s, i).value.size) && j + |t| < TWO63
    ensures ParseKnown(fieldNum, wireType, t, j) == ParseKnown(fieldNum, wireType, s, i)
  {
    hide Decode;
    var n := ParseKnown(fieldNum, wireType, s, i).value.size;
    if fieldNum == 3 || wireType == 0 {
      ReadLocal(s, t, n);
    } else {
      ReadSpanLocal(s, t, n, i, j);
      var span := ReadSpan(s, i).value;
      SamePrefixDrop(s, t, n, span.start, n);
      if fieldNum == 5 {
        ReadPackedLocal(s[span.start..], t[span.start..], span.end - span.start);
      } else {
        assert s[span.start..span.end] == s[span.start..][..n - span.start];
      }
    }
  }

  /** Parsing one field depends on the bytes of that field only, wherever the field stands. */
  lemma ParseFieldLocal(s: seq<byte>, t: seq<byte>, i: nat, j: nat)
    requires s != [] && t != [] && ParseField(s, i).Ok?
    requires SamePrefix(s, t, ParseField(s, i).value.size) && j + |t| < TWO63
    ensures ParseField(t, j) == ParseField(s, i)
  {
    hide Decode, Skip, ParseKnown;
    var n, tag := ParseField(s, i).value.size, Decode(s, 0).value;
    if FieldNum(tag) > 5 {
      SkipCovers(s);
      SkipLocal(s, t);
      ReadLocal(s, t, n);
    } else {
      ReadLocal(s, t, n);
      SamePrefixDrop(s, t, n, tag.size, n);
      ParseKnownLocal(FieldNum(tag), tag.raw % 8, s[tag.size..], t[tag.size..], i + tag.size, j + tag.size);
    }
  }

  // ---------- all fields ----------

  /** The fields of s, which starts at index i of the buffer. */
  function Fields(s: seq<byte>, i: nat): Result<seq<Field>, WireError> {
    if s == [] then Ok([])
    else match ParseField(s, i)
      case Err(e) => Err(e)
      case Ok(p) =>
        match Fields(s[p.size..], i + p.size)
        case Err(e) => Err(e)
        case Ok(rest) => Ok([p.field] + rest)
  }

  /** Two accepted buffers, one after the other, hold the fields of the first and then of the second. */
  lemma {:induction false} FieldsConcat(a: seq<byte>, b: seq<byte>, i: nat, j: nat, k: nat)
    requires Fields(a, i).Ok? && Fields(b, j).Ok? && k + |a + b| < TWO63
    ensures Fields(a + b, k) == Ok(Fields(a, i).value + Fields(b, j).value)
    decreases |a|, |b|
  {
    hide ParseField;
    if a == [] {
      assert a + b == b;
      if b != [] {
        ParseFieldLocal(b, b, j, k);
        var n := ParseField(b, j).value.size;
        FieldsConcat([], b[n..], 0, j + n, k + n);
        assert [] + b[n..] == b[n..];
        assert b[..n] == b[0..n];
        var fb := Fields(b[n..], j + n).value;
        assert Fields(b[n..], k + n) == Ok([] + fb) && [] + fb == fb;
      }
      assert Fields(a, i).value + Fields(b, j).value == Fields(b, j).value;
    } else {
      var n := ParseField(a, i).value.size;
      assert (a + b)[..n] == a[..n] && (a + b)[n..] == a[n..] + b;
      ParseFieldLocal(a, a + b, i, k);
      FieldsConcat(a[n..], b, i + n, j, k + n);
      var f, fa, fb := ParseField(a, i).value.field, Fields(a[n..], i + n).value, Fields(b, j).value;
      assert Fields(a, i).value + fb == [f] + (fa + fb);
    }
  }
}
