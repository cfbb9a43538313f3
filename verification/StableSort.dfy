/**
  Go's sort.SliceStable on a key: the one sequence that is sorted by the key and keeps the order
  of equal elements. Descending order is ascending order of the negated key.
 */
module StableSort {

  function Insert<T>(x: T, s: seq<T>, key: T -> real): seq<T> {
    if s == [] || key(x) <= key(s[0]) then [x] + s else [s[0]] + Insert(x, s[1..], key)
  }

  function Sort<T>(s: seq<T>, key: T -> real): seq<T> {
    if s == [] then [] else Insert(s[0], Sort(s[1..], key), key)
  }

  ghost predicate Sorted<T>(s: seq<T>, key: T -> real) {
    forall i, j | 0 <= i < j < |s| :: key(s[i]) <= key(s[j])
  }

  function Filter<T>(s: seq<T>, p: T -> bool): seq<T> {
    if s == [] then []
    else if p(s[0]) then [s[0]] + Filter(s[1..], p)
    else Filter(s[1..], p)
  }

  function Map<T, U>(s: seq<T>, f: T -> U): (r: seq<U>)
    ensures |r| == |s| && forall i | 0 <= i < |s| :: r[i] == f(s[i])
  {
    seq(|s|, i requires 0 <= i < |s| => f(s[i]))
  }

  lemma HeadLeast<T>(s: seq<T>, key: T -> real, x: T)
    requires Sorted(s, key) && x in s
    ensures key(s[0]) <= key(x)
  {
  }

  lemma {:induction false} InsertContents<T>(x: T, s: seq<T>, key: T -> real)
    ensures multiset(Insert(x, s, key)) == multiset([x]) + multiset(s)
    ensures |Insert(x, s, key)| == |s| + 1
  {
    if s != [] && key(x) > key(s[0]) {
      InsertContents(x, s[1..], key);
      assert s == [s[0]] + s[1..];
    }
  }

  lemma {:induction false} SortContents<T>(s: seq<T>, key: T -> real)
    ensures multiset(Sort(s, key)) == multiset(s) && |Sort(s, key)| == |s|
  {
    if s != [] {
      SortContents(s[1..], key);
      InsertContents(s[0], Sort(s[1..], key), key);
      assert s == [s[0]] + s[1..];
    }
  }

  lemma {:induction false} InsertSorted<T>(x: T, s: seq<T>, key: T -> real)
    requires Sorted(s, key)
    ensures Sorted(Insert(x, s, key), key)
  {
    if s != [] && key(x) > key(s[0]) {
      InsertSorted(x, s[1..], key);
      InsertContents(x, s[1..], key);
      var r := Insert(x, s[1..], key);
      forall y | y in r
        ensures key(s[0]) <= key(y)
      {
        assert y in multiset(r);
      }
    }
  }

  lemma {:induction false} SortSorted<T>(s: seq<T>, key: T -> real)
    ensures Sorted(Sort(s, key), key)
  {
    if s != [] {
      SortSorted(s[1..], key);
      InsertSorted(s[0], Sort(s[1..], key), key);
    }
  }

  lemma SortMember<T>(s: seq<T>, key: T -> real, x: T)
    ensures x in Sort(s, key) <==> x in s
  {
    SortContents(s, key);
    assert x in Sort(s, key) <==> x in multiset(Sort(s, key));
    assert x in s <==> x in multiset(s);
  }

  // ---------- sorting commutes with filtering and with mapping ----------

  lemma {:induction false} FilterInsert<T>(x: T, s: seq<T>, key: T -> real, p: T -> bool)
    requires Sorted(s, key)
    ensures Filter(Insert(x, s, key), p) == if p(x) then Insert(x, Filter(s, p), key) else Filter(s, p)
  {
    if s == [] || key(x) <= key(s[0]) {
      assert ([x] + s)[1..] == s;
      var kept := Filter(s, p);
      if kept != [] { FilterMember(s, p, kept[0]); }
    } else {
      var r := Insert(x, s[1..], key);
      assert ([s[0]] + r)[1..] == r;
      FilterInsert(x, s[1..], key, p);
      if p(s[0]) {
        assert Filter(s, p)[1..] == Filter(s[1..], p);
      }
    }
  }

  lemma {:induction false} FilterMember<T>(s: seq<T>, p: T -> bool, x: T)
    ensures x in Filter(s, p) <==> x in s && p(x)
  {
    if s != [] {
      FilterMember(s[1..], p, x);
      assert s == [s[0]] + s[1..];
    }
  }

  lemma {:induction false} FilterSort<T>(s: seq<T>, key: T -> real, p: T -> bool)
    ensures Filter(Sort(s, key), p) == Sort(Filter(s, p), key)
  {
    if s != [] {
      FilterSort(s[1..], key, p);
      SortSorted(s[1..], key);
      FilterInsert(s[0], Sort(s[1..], key), key, p);
      if p(s[0]) {
        assert Filter(s, p)[1..] == Filter(s[1..], p);
      }
    }
  }

  lemma {:induction false} MapInsert<T, U>(x: T, s: seq<T>, key: T -> real, f: T -> U, key': U -> real)
    requires key'(f(x)) == key(x) && forall y <- s :: key'(f(y)) == key(y)
    ensures Map(Insert(x, s, key), f) == Insert(f(x), Map(s, f), key')
  {
    if s != [] && key(x) > key(s[0]) {
      MapInsert(x, s[1..], key, f, key');
      assert Map(s, f)[1..] == Map(s[1..], f);
    } else if s != [] {
      assert s[0] in s;
    }
  }

  lemma {:induction false} MapSort<T, U>(s: seq<T>, key: T -> real, f: T -> U, key': U -> real)
    requires forall y <- s :: key'(f(y)) == key(y)
    ensures Map(Sort(s, key), f) == Sort(Map(s, f), key')
  {
    if s != [] {
      assert s == [s[0]] + s[1..];
      MapSort(s[1..], key, f, key');
      forall y | y in Sort(s[1..], key)
        ensures key'(f(y)) == key(y)
      {
        SortMember(s[1..], key, y);
      }
      MapInsert(s[0], Sort(s[1..], key), key, f, key');
      assert Map(s, f)[1..] == Map(s[1..], f);
    }
  }

  // ---------- what determines the result ----------

  predicate NotAfter<T>(x: T, y: T, first: T -> real, second: T -> real) {
    first(x) < first(y) || (first(x) == first(y) && second(x) <= second(y))
  }

  /** Sorting by a second key keeps the first order among equals. */
  ghost predicate Lexicographic<T>(s: seq<T>, first: T -> real, second: T -> real) {
    forall i, j | 0 <= i < j < |s| :: NotAfter(s[i], s[j], first, second)
  }

  lemma {:induction false} InsertLexicographic<T>(x: T, s: seq<T>, first: T -> real, second: T -> real)
    requires Lexicographic(s, first, second) && forall y <- s :: second(x) <= second(y)
    ensures Lexicographic(Insert(x, s, first), first, second)
  {
    if s == [] {
    } else if first(x) > first(s[0]) {
      InsertLexicographic(x, s[1..], first, second);
      InsertContents(x, s[1..], first);
      var r := Insert(x, s[1..], first);
      forall y | y in r
        ensures NotAfter(s[0], y, first, second)
      {
        assert y in multiset(r);
      }
      LexicographicCons(s[0], r, first, second);
    } else {
      LexicographicCons(x, s, first, second);
    }
  }

  lemma LexicographicCons<T>(x: T, s: seq<T>, first: T -> real, second: T -> real)
    requires Lexicographic(s, first, second) && forall y <- s :: NotAfter(x, y, first, second)
    ensures Lexicographic([x] + s, first, second)
  {
  }

  lemma {:induction false} SortLexicographic<T>(s: seq<T>, first: T -> real, second: T -> real)
    requires Sorted(s, second)
    ensures Lexicographic(Sort(s, first), first, second)
  {
    if s != [] {
      SortLexicographic(s[1..], first, second);
      forall y | y in Sort(s[1..], first)
        ensures second(s[0]) <= second(y)
      {
        SortMember(s[1..], first, y);
        HeadLeast(s, second, y);
      }
      InsertLexicographic(s[0], Sort(s[1..], first), first, second);
    }
  }

  ghost predicate Injective<T(!new)>(s: seq<T>, key: T -> real) {
    forall x, y | x in s && y in s && key(x) == key(y) :: x == y
  }

  lemma RestContents<T>(x: T, a: seq<T>, b: seq<T>)
    requires multiset([x] + a) == multiset([x] + b)
    ensures multiset(a) == multiset(b)
  {
    assert multiset(a) == multiset([x] + a) - multiset([x]);
    assert multiset(b) == multiset([x] + b) - multiset([x]);
  }

  /** Two sorted arrangements of the same elements agree when no two elements share a key. */
  lemma {:induction false} SortedUnique<T(!new)>(a: seq<T>, b: seq<T>, key: T -> real)
    requires Sorted(a, key) && Sorted(b, key) && multiset(a) == multiset(b)
    requires Injective(a, key)
    ensures a == b
  {
    hide Injective;
    if a == [] {
      assert |multiset(b)| == 0;
    } else {
      SameHead(a, b, key);
      assert a == [a[0]] + a[1..] && b == [a[0]] + b[1..];
      RestContents(a[0], a[1..], b[1..]);
      InjectiveRest(a, key);
      SortedUnique(a[1..], b[1..], key);
    }
  }

  lemma InjectiveRest<T(!new)>(a: seq<T>, key: T -> real)
    requires Injective(a, key) && a != []
    ensures Injective(a[1..], key)
  {
    assert forall z :: z in a[1..] ==> z in a;
  }

  lemma SameHead<T(!new)>(a: seq<T>, b: seq<T>, key: T -> real)
    requires Sorted(a, key) && Sorted(b, key) && multiset(a) == multiset(b) && a != []
    requires Injective(a, key)
    ensures b != [] && a[0] == b[0]
  {
    assert a[0] in multiset(a) && a[0] in b;
    assert b[0] in b && b[0] in multiset(b);
    HeadLeast(a, key, b[0]);
    HeadLeast(b, key, a[0]);
  }

  /** With distinct keys the result does not depend on the order of the input. */
  lemma SortOfPermutation<T(!new)>(a: seq<T>, b: seq<T>, key: T -> real)
    requires multiset(a) == multiset(b)
    requires Injective(a, key)
    ensures Sort(a, key) == Sort(b, key)
  {
    SortContents(a, key);
    SortContents(b, key);
    SortSorted(a, key);
    SortSorted(b, key);
    var a', b' := Sort(a, key), Sort(b, key);
    forall x | x in a'
      ensures x in a
    {
      SortMember(a, key, x);
    }
    SortedUnique(a', b', key);
  }

  /** The elements with one key, in order. */
  function Class<T>(s: seq<T>, key: T -> real, k: real): seq<T> {
    Filter(s, x => key(x) == k)
  }

  /**
    The contract of sort.SliceStable pins its result down: whatever is sorted and keeps, for every
    key, the elements of that key in their order, is Sort.
   */
  lemma {:induction false} StableUnique<T>(t: seq<T>, s: seq<T>, key: T -> real)
    requires Sorted(t, key) && forall k :: Class(t, key, k) == Class(s, key, k)
    ensures t == Sort(s, key)
  {
    SortSorted(s, key);
    forall k
      ensures Class(t, key, k) == Class(Sort(s, key), key, k)
    {
      SortKeepsClass(s, key, k);
    }
    ClassesDetermine(t, Sort(s, key), key);
  }

  lemma SortKeepsClass<T>(s: seq<T>, key: T -> real, k: real)
    ensures Class(Sort(s, key), key, k) == Class(s, key, k)
  {
    FilterSort(s, key, x => key(x) == k);
    forall x | x in Class(s, key, k)
      ensures key(x) == k
    {
      FilterMember(s, y => key(y) == k, x);
    }
    SameKeySorted(Class(s, key, k), key, k);
  }

  lemma {:induction false} SameKeySorted<T>(s: seq<T>, key: T -> real, k: real)
    requires forall x <- s :: key(x) == k
    ensures Sort(s, key) == s
  {
    if s != [] {
      SameKeySorted(s[1..], key, k);
      assert s[0] in s && (s[1..] != [] ==> s[1] in s);
    }
  }

  lemma {:induction false} ClassesDetermine<T>(a: seq<T>, b: seq<T>, key: T -> real)
    requires Sorted(a, key) && Sorted(b, key) && forall k :: Class(a, key, k) == Class(b, key, k)
    ensures a == b
    decreases |a| + |b|
  {
    if a != [] || b != [] {
      NonemptyTogether(a, b, key);
      NonemptyTogether(b, a, key);
      HeadOfClass(a, b, key);
      HeadOfClass(b, a, key);
      ClassHead(a, key);
      ClassHead(b, key);
      var k0 := key(a[0]);
      assert Class(a, key, k0) == Class(b, key, k0);
      assert a[0] == Class(a, key, k0)[0] == Class(b, key, k0)[0] == b[0];
      forall k
        ensures Class(a[1..], key, k) == Class(b[1..], key, k)
      {
        ClassTail(a, key, k);
        ClassTail(b, key, k);
        assert Class(a, key, k) == Class(b, key, k);
      }
      ClassesDetermine(a[1..], b[1..], key);
      assert a == [a[0]] + a[1..] && b == [b[0]] + b[1..];
    }
  }

  lemma NonemptyTogether<T>(a: seq<T>, b: seq<T>, key: T -> real)
    requires forall k :: Class(a, key, k) == Class(b, key, k)
    ensures a != [] ==> b != []
  {
    if a != [] {
      assert Class(a, key, key(a[0])) == Class(b, key, key(a[0]));
    }
  }

  lemma ClassHead<T>(s: seq<T>, key: T -> real)
    requires s != []
    ensures Class(s, key, key(s[0])) != [] && Class(s, key, key(s[0]))[0] == s[0]
  {
  }

  lemma ClassTail<T>(s: seq<T>, key: T -> real, k: real)
    requires s != []
    ensures Class(s[1..], key, k) == if key(s[0]) == k then Class(s, key, k)[1..] else Class(s, key, k)
  {
  }

  lemma HeadOfClass<T>(a: seq<T>, b: seq<T>, key: T -> real)
    requires a != [] && b != [] && Sorted(b, key) && forall k :: Class(a, key, k) == Class(b, key, k)
    ensures key(b[0]) <= key(a[0])
  {
    var k := key(a[0]);
    FilterMember(a, x => key(x) == k, a[0]);
    assert Class(a, key, k) == Class(b, key, k);
    FilterMember(b, x => key(x) == k, a[0]);
  }
}
