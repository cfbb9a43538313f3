/** The nonces a miner tries (mining/miner.go): its id byte, then a counter. */
module Nonce {
  import opened Common
  import opened Radix

  /** The counter in base 256, most significant byte first; zero is one zero byte. */
  function Counter(n: nat): (b: seq<byte>)
    ensures |b| >= 1
  {
    if n == 0 then [0] else var ds := Digits(256, n); seq(|ds|, i requires 0 <= i < |ds| => ds[i])
  }

  /** The nonce after n steps of the miner whose id byte is `id`. */
  function NonceAt(id: byte, n: nat): seq<byte> {
    [id] + Counter(n)
  }

  /** No nonce comes twice, and miners with different id bytes share none. */
  lemma NoncesDistinct(id: byte, n: nat, id': byte, n': nat)
    ensures NonceAt(id, n) == NonceAt(id', n') <==> id == id' && n == n'
  {
    if NonceAt(id, n) == NonceAt(id', n') {
      assert id == NonceAt(id, n)[0] == NonceAt(id', n')[0] == id';
      assert Counter(n) == NonceAt(id, n)[1..] == NonceAt(id', n')[1..] == Counter(n');
      CounterValue(n);
      CounterValue(n');
    }
  }

  lemma CounterValue(n: nat)
    ensures Value(256, Counter(n)) == n
  {
    if n == 0 {
      assert [0][..0] == [];
    } else {
      ValueOfDigits(256, n);
      assert Counter(n) == Digits(256, n);
    }
  }

  /** The byte of the nonce with i bytes behind it counts the 256^i; none in front of the counter is zero. */
  lemma NonceBytes(id: byte, n: nat, i: nat)
    requires n > 0 && i + 1 < |NonceAt(id, n)|
    ensures NonceAt(id, n)[0] == id && NonceAt(id, n)[1] != 0 && Pow(256, i) > 0
    ensures NonceAt(id, n)[|NonceAt(id, n)| - 1 - i] == n / Pow(256, i) % 256
  {
    hide Digits, Pow;
    var ds := Digits(256, n);
    assert Counter(n) == ds && NonceAt(id, n) == [id] + ds;
    DigitAt(256, n, i);
  }

  /** Adding one: 255 becomes 0 and carries, and a carry out of the front makes a new leading 1. */
  function Succ(b: seq<byte>): (r: seq<byte>)
    ensures |r| >= 1
  {
    if b == [] then [1]
    else
      var k := |b| - 1;
      if b[k] < 255 then b[..k] + [b[k] + 1] else Succ(b[..k]) + [0]
  }

  lemma {:induction false} SuccValue(b: seq<byte>)
    ensures Value(256, Succ(b)) == Value(256, b) + 1
    ensures (b == [] || b[0] != 0) ==> Succ(b)[0] != 0
  {
    if b == [] {
      assert [1][..0] == [];
    } else {
      var k := |b| - 1;
      if b[k] < 255 {
        assert Succ(b)[..k] == b[..k];
      } else {
        assert Succ(b)[..|Succ(b)| - 1] == Succ(b[..k]);
        SuccValue(b[..k]);
      }
    }
  }

  lemma CounterSucc(n: nat)
    ensures Succ(Counter(n)) == Counter(n + 1)
  {
    var b := Counter(n);
    CounterValue(n);
    SuccValue(b);
    DigitsOfValue(256, Succ(b));
  }

  class NonceIncrementer {
    var Nonce: array<byte>
    ghost var id: byte
    ghost var count: nat     // how often NextNonce was called

    ghost predicate Valid()
      reads this, Nonce
    {
      Nonce[..] == NonceAt(id, count)
    }

    /** The id byte is the miner number modulo 256. */
    constructor (id: nat)
      ensures Valid() && fresh(Nonce) && this.id == id % 256 && count == 0
    {
      Nonce := new byte[2](i => if i == 0 then id % 256 else 0);
      this.id, count := id % 256, 0;
      new;
      assert Nonce[..] == [id % 256, 0];
    }

    /** i.Nonce[idx]++ on a byte; true if it wrapped around to 0. */
    method Bump(idx: nat) returns (carry: bool)
      requires idx < Nonce.Length
      modifies Nonce
      ensures carry <==> old(Nonce[idx]) == 255
      ensures Nonce[..] == old(Nonce[..])[idx := if carry then 0 else old(Nonce[idx]) + 1]
    {
      var v: nat := Nonce[idx];
      Nonce[idx] := (v + 1) % 256;
      carry := Nonce[idx] == 0;
    }

    /** One turn of the carry loop: of the counter b the bytes up to idx are still to be increased. */
    method Turn(idx: nat, ghost first: byte, ghost b: seq<byte>, ghost tail: seq<byte>) returns (carry: bool)
      requires 1 <= idx <= |b| && Nonce[..] == [first] + (b[..idx] + tail) && Succ(b) == Succ(b[..idx]) + tail
      modifies Nonce
      ensures carry ==> Nonce[..] == [first] + (b[..idx - 1] + ([0] + tail)) && Succ(b) == Succ(b[..idx - 1]) + ([0] + tail)
      ensures !carry ==> Nonce[..] == [first] + Succ(b)
    {
      hide Succ;
      SuccOfPrefix(b, idx);
      assert Nonce[idx] == Nonce[..][idx] == b[idx - 1];
      SetLast(first, b, idx, tail, if b[idx - 1] == 255 then 0 else b[idx - 1] + 1);
      carry := Bump(idx);
    }

    /** Adds one to the counter bytes in place, from the last; true if every byte was 255. */
    method Increment() returns (overflow: bool)
      requires Nonce.Length >= 2
      modifies Nonce
      ensures Nonce[..] == [old(Nonce[0])] + (if overflow then Succ(old(Nonce[1..]))[1..] else Succ(old(Nonce[1..])))
      ensures overflow ==> Succ(old(Nonce[1..]))[0] == 1
    {
      hide Succ;
      ghost var first, b, tail := Nonce[0], Nonce[1..], [];
      var idx := Nonce.Length - 1;
      NothingTurned(Nonce[..], idx);
      while true
        invariant 1 <= idx <= |b|
        invariant Nonce[..] == [first] + (b[..idx] + tail)
        invariant Succ(b) == Succ(b[..idx]) + tail
        decreases idx
      {
        var carry := Turn(idx, first, b, tail);
        if !carry {
          return false;
        }
        tail := [0] + tail;
        idx := idx - 1;
        if idx == 0 {   // the prefix is not touched
          AllTurned(first, b, tail);
          return true;
        }
      }
    }

    /** Counts up; when every counter byte was 255 a longer slice replaces the old one. */
    method NextNonce()
      requires Valid()
      modifies this, Nonce
      ensures Valid() && id == old(id) && count == old(count) + 1
      ensures Nonce == old(Nonce) || fresh(Nonce)
    {
      hide Succ, Counter;
      assert Nonce[0] == id && Nonce[1..] == Counter(count);
      CounterSucc(count);
      var overflow := Increment();
      if overflow {
        var s := [Nonce[0]] + [1] + Nonce[1..];
        Nonce := new byte[|s|](i requires 0 <= i < |s| => s[i]);
        assert Nonce[..] == s;
      }
      count := count + 1;
    }
  }

  /** Writing index idx when the bytes behind it are the tail. */
  lemma SetLast(first: byte, b: seq<byte>, idx: nat, tail: seq<byte>, v: byte)
    requires 1 <= idx <= |b|
    ensures ([first] + (b[..idx] + tail))[idx := v] == [first] + (b[..idx - 1] + ([v] + tail))
    ensures b[..idx - 1] + ([v] + tail) == b[..idx - 1] + [v] + tail
  {
  }

  /** Before the first turn all counter bytes are in front of the tail. */
  lemma NothingTurned(nonce: seq<byte>, idx: nat)
    requires |nonce| == idx + 1
    ensures nonce[1..][..idx] == nonce[1..] && nonce == [nonce[0]] + (nonce[1..][..idx] + [])
    ensures Succ(nonce[1..]) + [] == Succ(nonce[1..])
  {
    hide Succ;
  }

  /** After the last turn the tail is all of the counter, and a 1 goes in front of it. */
  lemma AllTurned(first: byte, b: seq<byte>, tail: seq<byte>)
    requires Succ(b) == Succ(b[..0]) + tail
    ensures Succ(b)[0] == 1 && [first] + (b[..0] + tail) == [first] + Succ(b)[1..]
  {
    assert b[..0] == [] && Succ([]) == [1] && b[..0] + tail == tail;
  }

  lemma SuccOfPrefix(b: seq<byte>, k: nat)
    requires 1 <= k <= |b|
    ensures Succ(b[..k]) == if b[k - 1] < 255 then b[..k - 1] + [b[k - 1] + 1] else Succ(b[..k - 1]) + [0]
    ensures Succ([]) == [1] && b[..0] == []
  {
    assert b[..k][..k - 1] == b[..k - 1];
  }
}
