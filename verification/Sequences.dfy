/** Sequences in which nothing occurs twice, and sequences with the same contents. */
module Sequences {

  ghost predicate NoRepeats<T(!new)>(s: seq<T>) {
    forall a, b | 0 <= a < b < |s| :: s[a] != s[b]
  }

  lemma {:induction false} OnceInMultiset<T(!new)>(s: seq<T>, x: T)
    requires NoRepeats(s)
    ensures multiset(s)[x] <= 1
  {
    if s != [] {
      var k := |s| - 1;
      assert s == s[..k] + [s[k]];
      OnceInMultiset(s[..k], x);
      if x == s[k] { assert x !in s[..k]; }
    }
  }

  lemma TwiceInMultiset<T(!new)>(r: seq<T>, a: nat, b: nat)
    requires a < b < |r| && r[a] == r[b]
    ensures multiset(r)[r[a]] >= 2
  {
    assert r == r[..a] + [r[a]] + r[a + 1..b] + [r[b]] + r[b + 1..];
  }

  lemma SelectionOnce<T(!new)>(r: seq<T>, s: seq<T>)
    requires NoRepeats(s) && multiset(r) <= multiset(s)
    ensures NoRepeats(r)
  {
    forall a, b | 0 <= a < b < |r|
      ensures r[a] != r[b]
    {
      OnceInMultiset(s, r[a]);
      if r[a] == r[b] { TwiceInMultiset(r, a, b); }
    }
  }

  lemma JoinOnce<T(!new)>(a: seq<T>, b: seq<T>)
    requires NoRepeats(a) && NoRepeats(b) && forall u, v | u in a && v in b :: u != v
    ensures NoRepeats(a + b)
  {
    var c := a + b;
    forall i, j | 0 <= i < j < |c|
      ensures c[i] != c[j]
    {
      if i < |a| <= j { assert c[i] in a && c[j] in b; }
    }
  }

  lemma SameSize<T>(a: seq<T>, b: seq<T>)
    requires multiset(a) == multiset(b)
    ensures |a| == |b|
  {
    assert |multiset(a)| == |a| && |multiset(b)| == |b|;
  }
}
