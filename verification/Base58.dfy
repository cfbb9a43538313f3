/** Base58 with leading zeros (modules/factoidaddress/base58.go). Strings are byte sequences. */
module Base58 {
  import opened Common
  import opened Radix

  /** No zero, capital I, capital O or small l. */
  const ALPHABET: string := "123456789" + "ABCDEFGH" + "JKLMN" + "PQRSTUVWXYZ" + "abcdefghijk" + "mnopqrstuvwxyz"

  /** The table b58, run by run: 1 to 9, A to H, J to N, P to Z, a to k, m to z; 255 marks the rest. */
  function B58(c: byte): (d: byte)
    ensures d < 58 || d == 255
  {
    if 49 <= c <= 57 then c - 49
    else if 65 <= c <= 72 then c - 65 + 9
    else if 74 <= c <= 78 then c - 74 + 17
    else if 80 <= c <= 90 then c - 80 + 22
    else if 97 <= c <= 107 then c - 97 + 33
    else if 109 <= c <= 122 then c - 109 + 44
    else 255
  }

  /** alphabet[d], run by run. */
  function Letter(d: nat): (c: byte)
    requires d < 58
    ensures B58(c) == d
  {
    if d < 9 then d + 49
    else if d < 17 then d - 9 + 65
    else if d < 22 then d - 17 + 74
    else if d < 33 then d - 22 + 80
    else if d < 44 then d - 33 + 97
    else d - 44 + 109
  }

  lemma LetterOf(c: byte)
    requires B58(c) != 255
    ensures Letter(B58(c)) == c
  {
  }

  lemma Alphabet(d: nat)
    requires d < 58
    ensures |ALPHABET| == 58 && ALPHABET[d] as int == Letter(d)
  {
    hide B58;
    if d < 9 { assert ALPHABET[d] == "123456789"[d]; }
    else if d < 17 { assert ALPHABET[d] == "ABCDEFGH"[d - 9]; }
    else if d < 22 { assert ALPHABET[d] == "JKLMN"[d - 17]; }
    else if d < 33 { assert ALPHABET[d] == "PQRSTUVWXYZ"[d - 22]; }
    else if d < 44 { assert ALPHABET[d] == "abcdefghijk"[d - 33]; }
    else { assert ALPHABET[d] == "mnopqrstuvwxyz"[d - 44]; }
  }

  function DigitsOf(s: seq<byte>): (ds: seq<byte>)
    ensures |ds| == |s|
  {
    seq(|s|, i requires 0 <= i < |s| => B58(s[i]))
  }

  predicate InAlphabet(s: seq<byte>) {
    forall i | 0 <= i < |s| :: B58(s[i]) != 255
  }

  function Letters(ds: seq<nat>): (s: seq<byte>)
    requires Numeral(58, ds)
    ensures |s| == |ds| && InAlphabet(s) && DigitsOf(s) == ds
  {
    seq(|ds|, i requires 0 <= i < |ds| => Letter(ds[i]))
  }

  function Octets(ds: seq<nat>): (b: seq<byte>)
    requires Numeral(256, ds)
    ensures b == ds
  {
    seq(|ds|, i requires 0 <= i < |ds| => ds[i])
  }

  /** Change of radix with the leading zeros kept; strings with a foreign character decode to nothing. */
  function Encode(b: seq<byte>): (s: seq<byte>)
    ensures InAlphabet(s)
  {
    RebaseBack(256, 58, b);
    Letters(Rebase(256, 58, b))
  }

  function Decode(s: seq<byte>): seq<byte> {
    if InAlphabet(s) then
      RebaseBack(58, 256, DigitsOf(s));
      Octets(Rebase(58, 256, DigitsOf(s)))
    else []
  }

  /** Every byte string survives encoding, leading zero bytes included. */
  lemma DecodeEncode(b: seq<byte>)
    ensures Decode(Encode(b)) == b
  {
    RebaseBack(256, 58, b);
  }

  /** Every string over the alphabet survives decoding, leading ones included. */
  lemma EncodeDecode(s: seq<byte>)
    requires InAlphabet(s)
    ensures Encode(Decode(s)) == s
  {
    RebaseBack(58, 256, DigitsOf(s));
    var t := Encode(Decode(s));
    assert DigitsOf(t) == DigitsOf(s);
    forall i | 0 <= i < |s|
      ensures t[i] == s[i]
    {
      assert B58(t[i]) == DigitsOf(t)[i] == DigitsOf(s)[i] == B58(s[i]);
      LetterOf(s[i]);
      LetterOf(t[i]);
    }
  }

  function Reversed(s: seq<byte>): (r: seq<byte>)
    ensures |r| == |s|
  {
    seq(|s|, i requires 0 <= i < |s| => s[|s| - 1 - i])
  }

  method Reverse(a: array<byte>)
    modifies a
    ensures a[..] == Reversed(old(a[..]))
  {
    var alen := a.Length;
    for i := 0 to alen / 2
      invariant forall k | 0 <= k < i || alen - i <= k < alen :: a[k] == old(a[alen - 1 - k])
      invariant forall k | i <= k < alen - i :: a[k] == old(a[k])
    {
      a[i], a[alen - 1 - i] := a[alen - 1 - i], a[i];
    }
  }

  lemma SuffixValue(b: seq<byte>, i: nat)
    requires i <= |b|
    ensures i == |b| ==> Value(58, DigitsOf(b[i..])) == 0 && Pow(58, 0) == 1
    ensures i < |b| ==> Pow(58, |b| - i) == Pow(58, |b| - i - 1) * 58
    ensures i < |b| ==>
      Value(58, DigitsOf(b[i..])) == Value(58, DigitsOf(b[i + 1..])) + Pow(58, |b| - i - 1) * B58(b[i])
  {
    hide B58;
    if i < |b| {
      NextSuffix(B58(b[i]), DigitsOf(b[i + 1..]));
      assert DigitsOf(b[i..]) == [B58(b[i])] + DigitsOf(b[i + 1..]);
    }
  }

  lemma NextSuffix(d: nat, ds: seq<nat>)
    ensures Value(58, [d] + ds) == Value(58, ds) + Pow(58, |ds|) * d
    ensures Pow(58, |ds| + 1) == Pow(58, |ds|) * 58
  {
    hide Value;
    ValueCons(58, d, ds);
  }

  /** The number a string stands for, or None when a character is not in the alphabet. */
  method Evaluate(b: seq<byte>) returns (r: Option<nat>)
    ensures r == if InAlphabet(b) then Some(Value(58, DigitsOf(b))) else None
  {
    hide Value, Pow, DigitsOf;
    SuffixValue(b, |b|);
    var answer: nat, j: nat := 0, 1;
    for i := |b| downto 0
      invariant InAlphabet(b[i..])
      invariant j == Pow(58, |b| - i)
      invariant answer == Value(58, DigitsOf(b[i..]))
    {
      var tmp := B58(b[i]);
      if tmp == 255 {
        return None;
      }
      SuffixValue(b, i);
      answer := answer + j * tmp;
      j := j * 58;
    }
    assert b[0..] == b;
    return Some(answer);
  }

  method Base58Decode(b: seq<byte>) returns (val: seq<byte>)
    ensures val == Decode(b)
  {
    hide Value, Digits;
    var answer := Evaluate(b);
    if answer.None? { return []; }
    var tmpval := Octets(Digits(256, answer.value));
    var numZeros := 0;
    while numZeros < |b| && b[numZeros] == '1' as int
      invariant numZeros <= |b|
      invariant forall i | 0 <= i < numZeros :: b[i] == '1' as int
    {
      numZeros := numZeros + 1;
    }
    LeadingOnes(b, numZeros);
    RebaseBack(58, 256, DigitsOf(b));
    val := Octets(Zeros(numZeros)) + tmpval;
  }

  lemma LeadingOnes(b: seq<byte>, k: nat)
    requires k <= |b| && (k < |b| ==> b[k] != '1' as int)
    requires forall i | 0 <= i < k :: b[i] == '1' as int
    ensures Leading(DigitsOf(b)) == k
  {
    assert forall c: byte :: B58(c) == 0 <==> c == '1' as int;
    LeadingIs(DigitsOf(b), k);
  }

  /** The digits of x, least significant first, as letters. */
  method DivModLoop(x: nat) returns (answer: seq<byte>)
    ensures Reversed(answer) == Letters(Digits(58, x))
  {
    var y := x;
    answer := [];
    while y > 0
      invariant Letters(Digits(58, x)) == Letters(Digits(58, y)) + Reversed(answer)
    {
      var mod := y % 58;
      assert Letters(Digits(58, y)) == Letters(Digits(58, y / 58)) + [Letter(mod)];
      assert Reversed(answer + [Letter(mod)]) == [Letter(mod)] + Reversed(answer);
      answer := answer + [Letter(mod)];
      y := y / 58;
    }
  }

  method Base58Encode(b: seq<byte>) returns (s: seq<byte>)
    ensures s == Encode(b)
  {
    hide Value, Digits, Letter;
    var answer := DivModLoop(Value(256, b));
    ghost var body := answer;
    var k := 0;
    while k < |b| && b[k] == 0
      invariant k <= |b| && forall i | 0 <= i < k :: b[i] == 0
      invariant answer == body + seq(k, _ => 49)
    {
      answer := answer + ['1' as int];
      k := k + 1;
    }
    var a := new byte[|answer|](i requires 0 <= i < |answer| => answer[i]);
    assert a[..] == answer;
    Reverse(a);
    s := a[..];
    assert s == seq(k, _ => 49) + Reversed(body);
    EncodeIs(b, k);
  }

  lemma EncodeIs(b: seq<byte>, k: nat)
    requires k <= |b| && (k < |b| ==> b[k] != 0) && forall i | 0 <= i < k :: b[i] == 0
    ensures Encode(b) == seq(k, _ => 49) + Letters(Digits(58, Value(256, b)))
  {
    hide Value, Digits, Letter;
    LeadingIs(b, k);
    RebaseBack(256, 58, b);
    ZeroLetters(k, Digits(58, Value(256, b)));
  }

  lemma ZeroLetters(k: nat, ds: seq<nat>)
    requires Numeral(58, ds)
    ensures Numeral(58, Zeros(k) + ds)
    ensures Letters(Zeros(k) + ds) == seq(k, _ => 49) + Letters(ds)
  {
  }
}
