/** Transaction ids: an index and an entry hash in one string (modules/transactionid/txid.go). */
module TxId {
  import opened Common
  import opened Radix

  datatype TxError = BadHex | BadFormat | BadIndex | BadLength

  /** What SplitTxID finds; -1 is the index of a whole batch. */
  datatype TxKey = TxKey(index: int32, hash: string)

  predicate HexChar(c: char) {
    '0' <= c <= '9' || 'a' <= c <= 'f' || 'A' <= c <= 'F'
  }

  /** 32 bytes in hexadecimal. */
  predicate IsHash(h: string) {
    |h| == 64 && AllHex(h)
  }

  predicate AllHex(h: string) {
    forall i | 0 <= i < |h| :: HexChar(h[i])
  }

  // ---------- strings.Split ----------

  function Split(s: string, sep: char): (r: seq<string>)
    ensures |r| >= 1
    ensures forall k | 0 <= k < |r| :: sep !in r[k]
  {
    if s == [] then [""]
    else
      var rest := Split(s[1..], sep);
      if s[0] == sep then [""] + rest else [[s[0]] + rest[0]] + rest[1..]
  }

  lemma {:induction false} SplitPiece(a: string, sep: char, b: string)
    requires sep !in a
    ensures Split(a + [sep] + b, sep) == [a] + Split(b, sep)
  {
    var s := a + [sep] + b;
    if a == [] {
      assert s[1..] == b;
    } else {
      assert s[1..] == a[1..] + [sep] + b;
      SplitPiece(a[1..], sep, b);
      assert [a[0]] + a[1..] == a;
    }
  }

  lemma {:induction false} SplitWhole(a: string, sep: char)
    requires sep !in a
    ensures Split(a, sep) == [a]
  {
    if a != [] {
      SplitWhole(a[1..], sep);
      assert [a[0]] + a[1..] == a;
    }
  }

  /** Two pieces come from one separator. */
  lemma {:induction false} SplitTwo(s: string, sep: char)
    requires |Split(s, sep)| == 2
    ensures s == Split(s, sep)[0] + [sep] + Split(s, sep)[1]
  {
    if s[0] == sep {
      SplitOne(s[1..], sep);
    } else {
      SplitTwo(s[1..], sep);
    }
  }

  lemma {:induction false} SplitOne(s: string, sep: char)
    requires |Split(s, sep)| == 1
    ensures s == Split(s, sep)[0]
  {
    if s != [] { SplitOne(s[1..], sep); }
  }

  // ---------- strconv ----------

  predicate IsDigit(c: char) {
    '0' <= c <= '9'
  }

  function DigitValue(c: char): nat {
    if IsDigit(c) then c as int - '0' as int else 0
  }

  function DigitChar(d: nat): char {
    if d < 10 then ('0' as int + d) as char else '?'
  }

  function DigitValues(s: string): (r: seq<nat>)
    ensures |r| == |s|
  {
    seq(|s|, i requires 0 <= i < |s| => DigitValue(s[i]))
  }

  function DigitChars(ds: seq<nat>): (r: string)
    ensures |r| == |ds|
  {
    seq(|ds|, i requires 0 <= i < |ds| => DigitChar(ds[i]))
  }

  predicate AllDigits(s: string) {
    forall i | 0 <= i < |s| :: IsDigit(s[i])
  }

  /** strconv.ParseInt(s, 10, 32): an optional sign, then one or more digits, in range. */
  function ParseInt(s: string): Option<int32> {
    var signed := s != "" && (s[0] == '+' || s[0] == '-');
    var digits := if signed then s[1..] else s;
    if digits == "" || !AllDigits(digits) then None
    else
      var v: int := Value(10, DigitValues(digits));
      if signed && s[0] == '-' then if v <= 0x8000_0000 then Some(-v) else None
      else if v < 0x8000_0000 then Some(v) else None
  }

  function Decimal(n: nat): string {
    if n == 0 then "0" else DigitChars(Digits(10, n))
  }

  function ZeroChars(k: nat): (z: string)
    ensures |z| == k && forall i | 0 <= i < k :: z[i] == '0'
  {
    seq(k, _ => '0')
  }

  /** fmt's %0Nd: zeros after the sign up to the width. */
  function FormatInt(pad: nat, i: int): string {
    var sign := if i < 0 then "-" else "";
    var text := Decimal(if i < 0 then -i else i);
    sign + ZeroChars(if |sign| + |text| < pad then pad - |sign| - |text| else 0) + text
  }

  // ---------- txid.go ----------

  const DEFAULT_PAD: nat := 1

  function FormatTxIDWithPad(pad: nat, index: int, hash: string): string {
    FormatInt(pad, index) + "-" + hash
  }

  function FormatTxID(index: int, hash: string): string {
    FormatTxIDWithPad(DEFAULT_PAD, index, hash)
  }

  function SplitTxID(txid: string): (r: Result<TxKey, TxError>)
    ensures r.Ok? ==> r.value.index >= 0 && IsHash(r.value.hash)
  {
    var arr := Split(txid, '-');
    if |arr| != 2 then Err(BadFormat)
    else if ParseInt(arr[0]).None? then Err(BadIndex)
    else if |arr[1]| != 64 then Err(BadLength)
    else if !AllHex(arr[1]) then Err(BadHex)
    else Ok(TxKey(ParseInt(arr[0]).value, arr[1]))
  }

  function VerifyTransactionHash(hash: string): Result<TxKey, TxError> {
    if |hash| == 64 then
      if AllHex(hash) then Ok(TxKey(-1, hash)) else Err(BadHex)
    else SplitTxID(hash)
  }

  // ---------- round trips ----------

  lemma DecimalDigits(n: nat)
    ensures Decimal(n) != "" && AllDigits(Decimal(n)) && '-' !in Decimal(n)
    ensures Value(10, DigitValues(Decimal(n))) == n
  {
    if n == 0 {
      assert DigitValues("0") == [0] && [0][..0] == [];
    } else {
      ValueOfDigits(10, n);
      assert DigitValues(Decimal(n)) == Digits(10, n);
      assert Digits(10, n) != [];
    }
  }

  lemma PaddedDigits(k: nat, n: nat)
    ensures var s := ZeroChars(k) + Decimal(n);
      s != "" && AllDigits(s) && '-' !in s && Value(10, DigitValues(s)) == n
  {
    DecimalDigits(n);
    ValueOfPadded(10, k, DigitValues(Decimal(n)));
    assert DigitValues(ZeroChars(k) + Decimal(n)) == Zeros(k) + DigitValues(Decimal(n));
  }

  lemma ParseFormat(pad: nat, index: nat)
    requires index < 0x8000_0000
    ensures '-' !in FormatInt(pad, index) && ParseInt(FormatInt(pad, index)) == Some(index)
  {
    hide Value, Digits;
    var k := if |Decimal(index)| < pad then pad - |Decimal(index)| else 0;
    PaddedDigits(k, index);
    assert FormatInt(pad, index) == ZeroChars(k) + Decimal(index);
  }

  /**
    Splitting gives back what was formatted, with any padding, exactly for an index from 0 to 2^31 - 1
    and a proper hash; a negative index is never read back, because its sign is a separator.
   */
  lemma SplitFormat(pad: nat, index: int, hash: string)
    ensures (exists k :: SplitTxID(FormatTxIDWithPad(pad, index, hash)) == Ok(k) && k.index == index && k.hash == hash)
      <==> 0 <= index < 0x8000_0000 && IsHash(hash)
  {
    if 0 <= index < 0x8000_0000 && IsHash(hash) {
      hide ParseInt, FormatInt;
      ParseFormat(pad, index);
      var text := FormatInt(pad, index);
      assert '-' !in hash;
      SplitWhole(hash, '-');
      SplitPiece(text, '-', hash);
      assert FormatTxIDWithPad(pad, index, hash) == text + ['-'] + hash;
      assert SplitTxID(FormatTxIDWithPad(pad, index, hash)) == Ok(TxKey(index, hash));
    }
  }

  /** Different ids give different txids, and the txids differ in what they are sorted by. */
  lemma FormatInjective(i: int, h: string, i': int, h': string)
    requires 0 <= i < 0x8000_0000 && IsHash(h) && 0 <= i' < 0x8000_0000 && IsHash(h')
    ensures FormatTxID(i, h) == FormatTxID(i', h') <==> i == i' && h == h'
    ensures SortKey(FormatTxID(i, h)) == TxKey(i, h)
  {
    hide SplitTxID, FormatTxIDWithPad;
    SplitFormat(DEFAULT_PAD, i, h);
    SplitFormat(DEFAULT_PAD, i', h');
  }

  /** The index is written without a sign and without leading zeros. */
  predicate Canonical(txid: string) {
    SplitTxID(txid).Ok? &&
    var text := Split(txid, '-')[0];
    text[0] != '+' && (text[0] == '0' ==> |text| == 1)
  }

  /** The txids FormatTxID makes are the canonical ones. */
  lemma FormatSplit(txid: string)
    requires SplitTxID(txid).Ok?
    ensures FormatTxID(SplitTxID(txid).value.index, SplitTxID(txid).value.hash) == txid <==> Canonical(txid)
  {
    hide Value, Digits;
    var k, text := SplitTxID(txid).value, Split(txid, '-')[0];
    SplitTwo(txid, '-');
    assert FormatInt(1, k.index) == Decimal(k.index) by { DecimalDigits(k.index); }
    CancelSuffix(Decimal(k.index), text, ['-'] + k.hash);
    assert txid == text + (['-'] + k.hash);
    assert FormatTxID(k.index, k.hash) == Decimal(k.index) + (['-'] + k.hash);
    NoLeadingZero(k.index);
    if Canonical(txid) { CanonicalText(text); }
  }

  lemma CancelSuffix(a: string, b: string, c: string)
    ensures a + c == b + c <==> a == b
  {
    if a + c == b + c {
      assert |a| == |b| && a == (a + c)[..|a|] && b == (b + c)[..|b|];
    }
  }

  lemma NoLeadingZero(n: nat)
    ensures Decimal(n) != "" && Decimal(n)[0] != '+' && (Decimal(n)[0] == '0' ==> |Decimal(n)| == 1)
  {
    DecimalDigits(n);
  }

  lemma CanonicalText(text: string)
    requires text != "" && AllDigits(text) && (text[0] == '0' ==> |text| == 1)
    ensures Decimal(Value(10, DigitValues(text))) == text
  {
    var ds := DigitValues(text);
    if text[0] == '0' {
      assert ds == [0] && [0][..0] == [];
    } else {
      DigitsOfValue(10, ds);
      assert DigitChars(ds) == text;
    }
  }

  // ---------- sorting ----------

  /** What SortTxIDS compares; the split's error is ignored, so what does not split counts as (-1, ""). */
  function SortKey(txid: string): TxKey {
    var r := SplitTxID(txid);
    if r.Ok? then r.value else TxKey(-1, "")
  }

  /** Go's < on strings. */
  predicate StringLess(a: string, b: string) {
    b != "" && (a == "" || a[0] < b[0] || (a[0] == b[0] && StringLess(a[1..], b[1..])))
  }

  predicate KeyLess(a: TxKey, b: TxKey) {
    if a.hash != b.hash then StringLess(a.hash, b.hash) else a.index < b.index
  }

  lemma {:induction false} StringOrder(a: string, b: string)
    ensures !(StringLess(a, b) && StringLess(b, a)) && !StringLess(a, a)
    ensures a == b || StringLess(a, b) || StringLess(b, a)
    decreases |a|
  {
    if a != "" && b != "" {
      StringOrder(a[1..], b[1..]);
      assert a == [a[0]] + a[1..] && b == [b[0]] + b[1..];
    }
    if a != "" { StringOrder(a[1..], a[1..]); }
  }

  lemma {:induction false} StringLessTransitive(a: string, b: string, c: string)
    requires StringLess(a, b) && StringLess(b, c)
    ensures StringLess(a, c)
  {
    if a != "" && a[0] == b[0] == c[0] { StringLessTransitive(a[1..], b[1..], c[1..]); }
  }

  /** The keys are totally ordered: hash first, then index. */
  lemma KeyOrder(a: TxKey, b: TxKey, c: TxKey)
    ensures a == b || KeyLess(a, b) || KeyLess(b, a)
    ensures !(KeyLess(a, b) && KeyLess(b, a)) && !KeyLess(a, a)
    ensures KeyLess(a, b) && KeyLess(b, c) ==> KeyLess(a, c)
  {
    hide StringLess;
    StringOrder(a.hash, b.hash);
    if StringLess(a.hash, b.hash) && StringLess(b.hash, c.hash) {
      StringLessTransitive(a.hash, b.hash, c.hash);
      StringOrder(a.hash, c.hash);
    }
  }

  predicate Before(a: string, b: string) {
    KeyLess(SortKey(a), SortKey(b))
  }

  function InsertTxID(x: string, s: seq<string>): (r: seq<string>)
    ensures |r| == |s| + 1
  {
    if s == [] then [x]
    else if Before(s[0], x) then [s[0]] + InsertTxID(x, s[1..])
    else [x] + s
  }

  /** A stable sort by key. */
  function SortTxIDS(txids: seq<string>): (r: seq<string>)
    ensures |r| == |txids|
  {
    if txids == [] then [] else InsertTxID(txids[0], SortTxIDS(txids[1..]))
  }

  /** No txid comes after one it is less than. */
  ghost predicate SortedTxIDS(s: seq<string>) {
    forall i, j | 0 <= i < j < |s| :: !Before(s[j], s[i])
  }

  ghost predicate NoneBefore(s: seq<string>, x: string) {
    forall k | 0 <= k < |s| :: !Before(s[k], x)
  }

  lemma {:induction false} InsertContents(x: string, s: seq<string>)
    ensures multiset(InsertTxID(x, s)) == multiset(s) + multiset{x}
  {
    hide Before;
    if s != [] {
      assert s == [s[0]] + s[1..];
      if Before(s[0], x) { InsertContents(x, s[1..]); }
    }
  }

  lemma {:induction false} InsertNoneBefore(x: string, s: seq<string>, y: string)
    requires NoneBefore(s, y) && !Before(x, y)
    ensures NoneBefore(InsertTxID(x, s), y)
  {
    hide Before;
    if s != [] && Before(s[0], x) { InsertNoneBefore(x, s[1..], y); }
  }

  lemma NoneBeforeEither(s: seq<string>, x: string, y: string)
    requires NoneBefore(s, x) && !Before(x, y)
    ensures NoneBefore(s, y)
  {
    hide SortKey, KeyLess;
    forall k | 0 <= k < |s|
      ensures !Before(s[k], y)
    {
      KeyOrder(SortKey(s[k]), SortKey(x), SortKey(y));
      KeyOrder(SortKey(s[k]), SortKey(y), SortKey(x));
      KeyOrder(SortKey(x), SortKey(s[k]), SortKey(y));
    }
  }

  lemma {:induction false} InsertSorted(x: string, s: seq<string>)
    requires SortedTxIDS(s)
    ensures SortedTxIDS(InsertTxID(x, s))
  {
    hide SortKey, KeyLess, Before;
    if s != [] {
      assert NoneBefore(s[1..], s[0]);
      if Before(s[0], x) {
        InsertSorted(x, s[1..]);
        NotBoth(s[0], x);
        InsertNoneBefore(x, s[1..], s[0]);
      } else {
        NotBoth(s[0], s[0]);
        NoneBeforeEither(s, s[0], x);
      }
    }
  }

  lemma NotBoth(a: string, b: string)
    ensures !(Before(a, b) && Before(b, a)) && !Before(a, a)
  {
    hide SortKey, KeyLess;
    KeyOrder(SortKey(a), SortKey(b), SortKey(a));
  }

  /** The one-element list of a txid with this key, or the empty one. */
  function OnlyKey(x: string, k: TxKey): seq<string> {
    if SortKey(x) == k then [x] else []
  }

  /** The txids with a given key, in order. */
  function WithKey(s: seq<string>, k: TxKey): seq<string> {
    if s == [] then [] else OnlyKey(s[0], k) + WithKey(s[1..], k)
  }

  lemma OnlyOne(a: string, b: string, k: TxKey)
    requires Before(a, b)
    ensures OnlyKey(a, k) == [] || OnlyKey(b, k) == []
  {
    hide SortKey, KeyLess;
    KeyOrder(SortKey(a), SortKey(b), SortKey(b));
  }

  lemma WithKeyCons(x: string, s: seq<string>, k: TxKey)
    ensures WithKey([x] + s, k) == OnlyKey(x, k) + WithKey(s, k)
  {
    hide SortKey;
    assert ([x] + s)[1..] == s;
  }

  lemma EitherEmpty(a: seq<string>, b: seq<string>, rest: seq<string>)
    requires a == [] || b == []
    ensures a + (b + rest) == b + (a + rest)
  {
  }

  lemma InsertUnfold(x: string, s: seq<string>)
    ensures InsertTxID(x, s) ==
      if s != [] && Before(s[0], x) then [s[0]] + InsertTxID(x, s[1..]) else [x] + s
  {
  }

  lemma {:induction false} InsertStable(x: string, s: seq<string>, k: TxKey)
    ensures WithKey(InsertTxID(x, s), k) == OnlyKey(x, k) + WithKey(s, k)
  {
    hide Before, WithKey, InsertTxID, OnlyKey;
    InsertUnfold(x, s);
    if s != [] && Before(s[0], x) {
      InsertStable(x, s[1..], k);
      WithKeyCons(s[0], InsertTxID(x, s[1..]), k);
      WithKeyCons(s[0], s[1..], k);
      assert [s[0]] + s[1..] == s;
      OnlyOne(s[0], x, k);
      EitherEmpty(OnlyKey(s[0], k), OnlyKey(x, k), WithKey(s[1..], k));
    } else {
      WithKeyCons(x, s, k);
    }
  }

  /** Sorted, nothing lost, and ids with equal keys in the order they came in. */
  lemma {:induction false} SortIsStable(s: seq<string>, k: TxKey)
    ensures SortedTxIDS(SortTxIDS(s)) && multiset(SortTxIDS(s)) == multiset(s)
    ensures WithKey(SortTxIDS(s), k) == WithKey(s, k)
  {
    hide SortKey, Before, InsertTxID;
    if s != [] {
      SortIsStable(s[1..], k);
      InsertSorted(s[0], SortTxIDS(s[1..]));
      InsertContents(s[0], SortTxIDS(s[1..]));
      InsertStable(s[0], SortTxIDS(s[1..]), k);
      assert s == [s[0]] + s[1..];
    }
  }

  /** In front is the first of those that nothing is less than. */
  lemma {:induction false} SortFirst(s: seq<string>) returns (i: nat)
    requires s != []
    ensures i < |s| && SortTxIDS(s) != [] && SortTxIDS(s)[0] == s[i]
    ensures forall j | 0 <= j < |s| :: !Before(s[j], s[i])
    ensures forall j | 0 <= j < i :: Before(s[i], s[j])
  {
    hide SortKey, KeyLess;
    i := 0;
    KeyOrder(SortKey(s[0]), SortKey(s[0]), SortKey(s[0]));
    if |s| > 1 {
      var k := SortFirst(s[1..]);
      KeyOrder(SortKey(s[0]), SortKey(s[k + 1]), SortKey(s[0]));
      if Before(s[k + 1], s[0]) {
        i := k + 1;
      } else {
        forall j | 0 < j < |s|
          ensures !Before(s[j], s[0])
        {
          assert !Before(s[1..][j - 1], s[1..][k]);
          KeyOrder(SortKey(s[j]), SortKey(s[0]), SortKey(s[k + 1]));
          KeyOrder(SortKey(s[0]), SortKey(s[k + 1]), SortKey(s[j]));
          KeyOrder(SortKey(s[k + 1]), SortKey(s[0]), SortKey(s[j]));
        }
      }
    }
  }
}
