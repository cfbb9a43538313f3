/** Positional numerals in any base, most significant digit first. */
module Radix {
  import opened Division

  function Value(base: nat, ds: seq<nat>): nat {
    if ds == [] then 0 else Value(base, ds[..|ds| - 1]) * base + ds[|ds| - 1]
  }

  /** The digits of n without leading zeros; none for zero. */
  function Digits(base: nat, n: nat): (ds: seq<nat>)
    requires base >= 2
    ensures Numeral(base, ds)
    ensures ds != [] ==> ds[0] != 0
    decreases n
  {
    if n == 0 then []
    else
      Shrinks(base, n);
      Digits(base, n / base) + [n % base]
  }

  lemma Shrinks(base: nat, n: nat)
    requires base >= 2 && n > 0
    ensures n / base < n
  {
  }

  ghost predicate Numeral(base: nat, ds: seq<nat>) {
    forall i | 0 <= i < |ds| :: ds[i] < base
  }

  lemma {:induction false} ValueOfDigits(base: nat, n: nat)
    requires base >= 2
    ensures Value(base, Digits(base, n)) == n
    decreases n
  {
    hide Value;
    if n == 0 {
      ValueNone(base);
    } else {
      Shrinks(base, n);
      ValueOfDigits(base, n / base);
      LastDigit(base, n, Digits(base, n / base));
    }
  }

  lemma ValueNone(base: nat)
    ensures Value(base, []) == 0
  {
  }

  lemma LastDigit(base: nat, n: nat, ds: seq<nat>)
    requires base >= 2 && Value(base, ds) == n / base
    ensures Value(base, ds + [n % base]) == n
  {
    ValueSnoc(base, ds, n % base);
  }

  lemma ValueSnoc(base: nat, ds: seq<nat>, d: nat)
    ensures Value(base, ds + [d]) == Value(base, ds) * base + d
  {
    assert (ds + [d])[..|ds|] == ds;
  }

  lemma {:induction false} DigitsOfValue(base: nat, ds: seq<nat>)
    requires base >= 2 && Numeral(base, ds) && (ds != [] ==> ds[0] != 0)
    ensures Digits(base, Value(base, ds)) == ds
    decreases |ds|
  {
    if ds != [] {
      var init, last := ds[..|ds| - 1], ds[|ds| - 1];
      DigitsOfValue(base, init);
      Recompose(base, Value(base, init), last);
      if init == [] {
        assert Value(base, init) == 0 && last != 0;
      }
      assert ds == init + [last];
    }
  }

  lemma Recompose(base: nat, q: nat, r: nat)
    requires base >= 2 && r < base
    ensures (q * base + r) / base == q && (q * base + r) % base == r
  {
    var n := q * base + r;
    var q', r' := n / base, n % base;
    var d := q - q';
    assert d * base == r' - r by { assert n == q' * base + r'; }
    if d >= 1 { AtLeast(d, base); }
    if d <= -1 { AtLeast(-d, base); }
  }

  lemma AtLeast(d: int, base: nat)
    requires d >= 1
    ensures d * base >= base
  {
  }

  function Pow(base: nat, k: nat): nat {
    if k == 0 then 1 else base * Pow(base, k - 1)
  }

  /** The weight of a digit in front is the power of the digits behind it. */
  lemma {:induction false} ValueCons(base: nat, d: nat, ds: seq<nat>)
    ensures Value(base, [d] + ds) == d * Pow(base, |ds|) + Value(base, ds)
    decreases |ds|
  {
    var all := [d] + ds;
    if ds == [] {
      assert all[..0] == [];
    } else {
      var init, last, p := ds[..|ds| - 1], ds[|ds| - 1], Pow(base, |ds| - 1);
      assert all[..|all| - 1] == [d] + init;
      ValueCons(base, d, init);
      assert (d * p + Value(base, init)) * base + last == d * (base * p) + Value(base, init) * base + last;
    }
  }

  function Zeros(k: nat): (z: seq<nat>)
    ensures |z| == k && forall i | 0 <= i < k :: z[i] == 0
  {
    seq(k, _ => 0)
  }

  function Leading(ds: seq<nat>): (k: nat)
    ensures k <= |ds| && (k < |ds| ==> ds[k] != 0)
    ensures forall i | 0 <= i < k :: ds[i] == 0
  {
    if ds == [] || ds[0] != 0 then 0 else 1 + Leading(ds[1..])
  }

  lemma {:induction false} LeadingIs(ds: seq<nat>, k: nat)
    requires k <= |ds| && (k < |ds| ==> ds[k] != 0) && forall i | 0 <= i < k :: ds[i] == 0
    ensures Leading(ds) == k
  {
    if k > 0 {
      LeadingIs(ds[1..], k - 1);
    }
  }

  lemma {:induction false} ValueOfPadded(base: nat, k: nat, ds: seq<nat>)
    ensures Value(base, Zeros(k) + ds) == Value(base, ds)
    decreases |ds|, k
  {
    var padded := Zeros(k) + ds;
    if ds != [] {
      assert padded[..|padded| - 1] == Zeros(k) + ds[..|ds| - 1];
      ValueOfPadded(base, k, ds[..|ds| - 1]);
    } else if k > 0 {
      assert padded[..k - 1] == Zeros(k - 1) + ds;
      ValueOfPadded(base, k - 1, ds);
    }
  }

  /** Base conversion that keeps one leading zero per leading zero, the rule of base58. */
  function Rebase(from: nat, to: nat, ds: seq<nat>): seq<nat>
    requires to >= 2
  {
    Zeros(Leading(ds)) + Digits(to, Value(from, ds))
  }

  /** Converting there and back is the identity, whatever the two bases are. */
  lemma RebaseBack(from: nat, to: nat, ds: seq<nat>)
    requires from >= 2 && to >= 2 && Numeral(from, ds)
    ensures Numeral(to, Rebase(from, to, ds))
    ensures Rebase(to, from, Rebase(from, to, ds)) == ds
  {
    var k, x := Leading(ds), Value(from, ds);
    var core, there := ds[k..], Zeros(k) + Digits(to, x);
    assert ds == Zeros(k) + core;
    ValueOfPadded(from, k, core);
    DigitsOfValue(from, core);
    assert Value(to, there) == x by {
      ValueOfPadded(to, k, Digits(to, x));
      ValueOfDigits(to, x);
    }
    LeadingIs(there, k);
  }

  /** The digit of weight base^i. */
  lemma {:induction false} DigitAt(base: nat, n: nat, i: nat)
    requires base >= 2 && i < |Digits(base, n)|
    ensures Pow(base, i) > 0 && Digits(base, n)[|Digits(base, n)| - 1 - i] == n / Pow(base, i) % base
    decreases i
  {
    if i == 0 {
      assert n / 1 == n;
    } else {
      var rest := Digits(base, n / base);
      assert Digits(base, n) == rest + [n % base];
      DigitAt(base, n / base, i - 1);
      DivideTwice(n, base, Pow(base, i - 1));
    }
  }

  /** The digits without the last k are the digits of the quotient. */
  lemma {:induction false} DigitsSplit(base: nat, n: nat, k: nat)
    requires base >= 2 && Pow(base, k) > 0 && n / Pow(base, k) > 0
    ensures |Digits(base, n)| == |Digits(base, n / Pow(base, k))| + k
    ensures Digits(base, n)[..|Digits(base, n)| - k] == Digits(base, n / Pow(base, k))
    decreases k
  {
    if k == 0 {
      assert n / 1 == n;
      assert Digits(base, n)[..|Digits(base, n)|] == Digits(base, n);
    } else {
      PowPositive(base, k - 1);
      DivideTwice(n, base, Pow(base, k - 1));
      DigitsSplit(base, n / base, k - 1);
      var rest := Digits(base, n / base);
      assert n > 0 && Digits(base, n) == rest + [n % base];
      assert Digits(base, n)[..|rest| + 1 - k] == rest[..|rest| - (k - 1)];
    }
  }

  lemma {:induction false} PowPositive(base: nat, k: nat)
    requires base >= 1
    ensures Pow(base, k) > 0
  {
    if k > 0 {
      PowPositive(base, k - 1);
      Times(1, Pow(base, k - 1), base);
    }
  }

  lemma {:induction false} ValueBound(base: nat, ds: seq<nat>)
    requires base >= 1 && Numeral(base, ds)
    ensures Value(base, ds) < Pow(base, |ds|)
  {
    if ds != [] {
      var n := |ds| - 1;
      ValueBound(base, ds[..n]);
      Times(Value(base, ds[..n]) + 1, Pow(base, n), base);
      assert (Value(base, ds[..n]) + 1) * base == Value(base, ds[..n]) * base + base;
    }
  }
}
