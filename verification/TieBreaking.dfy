/**
  When the final order shows the order of arrival. Two records with equal work keep their order until
  a pass that both survive scores them differently; if no pass does, their arrival decides.
 */
module TieBreaking {
  import opened Common
  import opened StableSort
  import opened Grading
  import opened Ranking

  // ---------- elimination on bare records ----------

  function Key(score: Score, f: seq<Opr>): Opr -> real {
    (o: Opr) => score(f, o, |f| >= 25)
  }

  function BarePass(score: Score, f: seq<Opr>): (r: seq<Opr>)
    ensures |r| == |f|
  {
    SortContents(f, ByDifficulty);
    SortContents(Sort(f, ByDifficulty), Key(score, f));
    Sort(Sort(f, ByDifficulty), Key(score, f))
  }

  function BareAfter(score: Score, b: seq<Opr>, k: nat): (r: seq<Opr>)
    requires k >= 1
    ensures |r| == |b|
    decreases |b| + 1 - k
  {
    if k > |b| then b
    else
      var t := BareAfter(score, b, k + 1);
      BarePass(score, t[..k]) + t[k..]
  }

  lemma BareTwice(s: seq<Opr>)
    ensures Bares(Bares(s)) == Bares(s) && SameField(s, Bares(s))
  {
    assert forall o :: Bare(Bare(o)) == Bare(o);
  }

  lemma PassIsBare(score: Score, f: seq<Opr>)
    requires Symmetric(score)
    ensures Bares(Pass(score, f, |f| >= 25)) == BarePass(score, Bares(f))
  {
    hide SameField;
    var banded, key := |f| >= 25, Key(score, Bares(f));
    var graded := Regrade(score, f, banded);
    var sorted := Sort(graded, ByDifficulty);
    BareTwice(f);
    forall o | o in sorted
      ensures key(Bare(o)) == ByGrade(o)
    {
      SortMember(graded, ByDifficulty, o);
      var i :| 0 <= i < |graded| && graded[i] == o;
      assert Bare(f[i]) == Bare(Bare(o));
    }
    MapSort(sorted, ByGrade, Bare, key);
    MapSort(graded, ByDifficulty, Bare, ByDifficulty);
    assert Map(graded, Bare) == Bares(f);
  }

  /** Grades aside, elimination is elimination on bare records. */
  lemma {:induction false} AfterIsBare(score: Score, s: seq<Opr>, k: nat)
    requires Symmetric(score) && k >= 1
    ensures Bares(After(score, s, |s|, k)) == BareAfter(score, Bares(s), k)
    decreases |s| + 1 - k
  {
    hide Pass, BarePass, Symmetric;
    if k <= |s| {
      AfterIsBare(score, s, k + 1);
      var t := After(score, s, |s|, k + 1);
      PassIsBare(score, t[..k]);
      assert Bares(t)[..k] == Bares(t[..k]) && Bares(t)[k..] == Bares(t[k..]);
      assert Bares(After(score, s, |s|, k)) == Bares(Pass(score, t[..k], k >= 25)) + Bares(t[k..]);
    }
  }

  lemma BarePassContents(score: Score, f: seq<Opr>)
    ensures multiset(BarePass(score, f)) == multiset(f)
  {
    SortContents(f, ByDifficulty);
    SortContents(Sort(f, ByDifficulty), Key(score, f));
  }

  /** Later passes only reorder the records that are left. */
  lemma {:induction false} BareLater(score: Score, b: seq<Opr>, m: nat, k: nat)
    requires 1 <= k <= m + 1 <= |b| + 1
    ensures BareAfter(score, b, k)[m..] == BareAfter(score, b, m + 1)[m..]
    ensures multiset(BareAfter(score, b, k)[..m]) == multiset(BareAfter(score, b, m + 1)[..m])
    decreases m + 1 - k
  {
    hide BarePass;
    if k <= m {
      BareLater(score, b, m, k + 1);
      var t, r := BareAfter(score, b, k + 1), BareAfter(score, b, k);
      var pass := BarePass(score, t[..k]);
      BarePassContents(score, t[..k]);
      assert r == pass + t[k..] && r[m..] == t[m..];
      assert r[..m] == pass + t[k..m] && t[..m] == t[..k] + t[k..m];
    }
  }

  /** The records that pass m grades. */
  function BareField(score: Score, b: seq<Opr>, m: nat): seq<Opr>
    requires m <= |b|
  {
    BareAfter(score, b, m + 1)[..m]
  }

  // ---------- two records among the others ----------

  function Either(x: Opr, y: Opr): Opr -> bool {
    (o: Opr) => o == x || o == y
  }

  /** The records x and y of a list, in their order. */
  function Both(s: seq<Opr>, x: Opr, y: Opr): seq<Opr> {
    Filter(s, Either(x, y))
  }

  lemma BothMember(s: seq<Opr>, x: Opr, y: Opr)
    ensures forall o :: o in Both(s, x, y) <==> o in s && (o == x || o == y)
  {
    forall o
      ensures o in Both(s, x, y) <==> o in s && (o == x || o == y)
    {
      FilterMember(s, Either(x, y), o);
    }
  }

  lemma BothConcat(a: seq<Opr>, b: seq<Opr>, x: Opr, y: Opr)
    ensures Both(a + b, x, y) == Both(a, x, y) + Both(b, x, y)
  {
    FilterConcat(a, b, Either(x, y));
  }

  predicate Told(key: Opr -> real, x: Opr, y: Opr) {
    key(x) != key(y) || x.selfReportedDifficulty != y.selfReportedDifficulty
  }

  /** A pass looks at two records as if they were alone. */
  lemma BothAfterPass(score: Score, f: seq<Opr>, x: Opr, y: Opr)
    ensures Both(BarePass(score, f), x, y) == Sort(Sort(Both(f, x, y), ByDifficulty), Key(score, f))
  {
    FilterSort(Sort(f, ByDifficulty), Key(score, f), Either(x, y));
    FilterSort(f, ByDifficulty, Either(x, y));
  }

  /** A pass that does not tell two records apart keeps their order. */
  lemma TiedKeepOrder(score: Score, f: seq<Opr>, x: Opr, y: Opr)
    requires !Told(Key(score, f), x, y)
    ensures Both(BarePass(score, f), x, y) == Both(f, x, y)
  {
    BothAfterPass(score, f, x, y);
    BothMember(f, x, y);
    SameKeySorted(Both(f, x, y), ByDifficulty, ByDifficulty(x));
    SameKeySorted(Both(f, x, y), Key(score, f), Key(score, f)(x));
  }

  /** A pass that tells them apart leaves them in an order that does not depend on the one before. */
  lemma ToldForgetOrder(score: Score, f: seq<Opr>, g: seq<Opr>, x: Opr, y: Opr)
    requires multiset(f) == multiset(g) && Told(Key(score, f), x, y)
    requires forall o :: Key(score, f)(o) == Key(score, g)(o)
    ensures Both(BarePass(score, f), x, y) == Both(BarePass(score, g), x, y)
  {
    hide BarePass, Told, Both, Key;
    var key, a, b := Key(score, f), Both(f, x, y), Both(g, x, y);
    BothAfterPass(score, f, x, y);
    BothAfterPass(score, g, x, y);
    SameKeys(Sort(b, ByDifficulty), Key(score, g), key);
    BothContents(f, g, x, y);
    BothMember(f, x, y);
    SortTold(key, a, b, x, y);
  }

  lemma BothContents(f: seq<Opr>, g: seq<Opr>, x: Opr, y: Opr)
    requires multiset(f) == multiset(g)
    ensures multiset(Both(f, x, y)) == multiset(Both(g, x, y))
  {
    FilterContents(f, g, Either(x, y));
  }

  lemma SortTold(key: Opr -> real, a: seq<Opr>, b: seq<Opr>, x: Opr, y: Opr)
    requires multiset(a) == multiset(b) && Told(key, x, y) && forall o <- a :: o == x || o == y
    ensures Sort(Sort(a, ByDifficulty), key) == Sort(Sort(b, ByDifficulty), key)
  {
    hide Sort;
    if key(x) != key(y) {
      SortContents(a, ByDifficulty);
      SortContents(b, ByDifficulty);
      forall o | o in Sort(a, ByDifficulty)
        ensures o == x || o == y
      {
        SortMember(a, ByDifficulty, o);
      }
      SortOfPermutation(Sort(a, ByDifficulty), Sort(b, ByDifficulty), key);
    } else {
      SortOfPermutation(a, b, ByDifficulty);
    }
  }

  lemma SameKeys(s: seq<Opr>, key: Opr -> real, key': Opr -> real)
    requires forall o :: key(o) == key'(o)
    ensures Sort(s, key) == Sort(s, key')
  {
    var same := (o: Opr) => o;
    MapSort(s, key, same, key');
    assert Map(s, same) == s && Map(Sort(s, key), same) == Sort(s, key);
  }

  lemma BothHead(s: seq<Opr>, x: Opr, y: Opr)
    requires s != [] && (s[0] == x || s[0] == y)
    ensures Both(s, x, y) != [] && Both(s, x, y)[0] == s[0]
  {
  }

  lemma BothLast(s: seq<Opr>, x: Opr, y: Opr)
    requires s != [] && (s[|s| - 1] == x || s[|s| - 1] == y)
    ensures Both(s, x, y) == Both(s[..|s| - 1], x, y) + [s[|s| - 1]]
  {
    var n := |s| - 1;
    assert s == s[..n] + [s[n]];
    BothConcat(s[..n], [s[n]], x, y);
    BothHead([s[n]], x, y);
    assert [s[n]][1..] == [] && Both([], x, y) == [];
  }

  /** Lists that end with x and with y show them in different orders, unless they are the same. */
  lemma SameEnd(p: seq<Opr>, q: seq<Opr>, x: Opr, y: Opr)
    requires p != [] && q != [] && p[|p| - 1] == y && q[|q| - 1] == x && Both(p, x, y) == Both(q, x, y)
    ensures x == y
  {
    BothLast(p, x, y);
    BothLast(q, x, y);
    var n := |Both(p, x, y)| - 1;
    assert Both(p, x, y)[n] == y && Both(q, x, y)[n] == x;
  }

  lemma BothRest(o: Opr, a: seq<Opr>, b: seq<Opr>, x: Opr, y: Opr)
    requires Both([o] + a, x, y) == Both([o] + b, x, y)
    ensures Both(a, x, y) == Both(b, x, y)
  {
    BothConcat([o], a, x, y);
    BothConcat([o], b, x, y);
    var n := |Both([o], x, y)|;
    assert Both([o] + a, x, y)[n..] == Both(a, x, y) && Both([o] + b, x, y)[n..] == Both(b, x, y);
  }

  /** An arrangement is known from the order of every two of its elements. */
  lemma {:induction false} KnownFromPairs(a: seq<Opr>, b: seq<Opr>)
    requires multiset(a) == multiset(b)
    requires forall x, y | x in a && y in a && x != y :: Both(a, x, y) == Both(b, x, y)
    ensures a == b
  {
    if a == [] {
      assert |multiset(b)| == 0;
    } else {
      assert |multiset(a)| == |multiset(b)| > 0;
      assert b[0] in multiset(b) && b[0] in a;
      BothHead(a, a[0], b[0]);
      BothHead(b, a[0], b[0]);
      assert a[0] == b[0];
      assert a == [a[0]] + a[1..] && b == [b[0]] + b[1..];
      RestContents(a[0], a[1..], b[1..]);
      forall x, y | x in a[1..] && y in a[1..] && x != y
        ensures Both(a[1..], x, y) == Both(b[1..], x, y)
      {
        BothRest(a[0], a[1..], b[1..], x, y);
      }
      KnownFromPairs(a[1..], b[1..]);
    }
  }

  // ---------- what is told apart is in one order ----------

  /** Some pass from the first down to pass k tells x and y apart. */
  ghost predicate ToldSince(score: Score, b: seq<Opr>, k: nat, x: Opr, y: Opr) {
    exists m | k <= m <= |b| :: Told(Key(score, BareField(score, b, m)), x, y)
  }

  /** Any two different records of the final order were told apart by a pass that both took part in. */
  ghost predicate BareDecided(score: Score, b: seq<Opr>, stop: nat)
    requires 1 <= stop <= |b|
  {
    var r := BareAfter(score, b, stop);
    forall i, j | 0 <= i < j < |b| && r[i] != r[j] ::
      exists m | j < m <= |b| && stop <= m :: Told(Key(score, BareField(score, b, m)), r[i], r[j])
  }

  /** Before pass m, two runs have the same survivors, the same places behind, and agree on what was told apart. */
  ghost predicate Agree(score: Score, b: seq<Opr>, c: seq<Opr>, m: nat)
    requires m <= |b| == |c|
  {
    var f, g := BareField(score, b, m), BareField(score, c, m);
    && multiset(f) == multiset(g)
    && BareAfter(score, b, m + 1)[m..] == BareAfter(score, c, m + 1)[m..]
    && (forall x, y | ToldSince(score, b, m + 1, x, y) :: Both(f, x, y) == Both(g, x, y))
  }

  lemma SameKey(score: Score, f: seq<Opr>, g: seq<Opr>)
    requires Symmetric(score) && multiset(f) == multiset(g)
    ensures forall o :: Key(score, f)(o) == Key(score, g)(o)
  {
    MapContents(f, g, Bare);
    SameFieldLength(f, g);
    assert SameField(f, g);
  }

  lemma PassAgrees(score: Score, b: seq<Opr>, c: seq<Opr>, m: nat, x: Opr, y: Opr)
    requires Symmetric(score) && m <= |b| == |c| && Agree(score, b, c, m) && ToldSince(score, b, m, x, y)
    ensures Both(BarePass(score, BareField(score, b, m)), x, y) == Both(BarePass(score, BareField(score, c, m)), x, y)
  {
    hide BarePass, BareField, Told, Symmetric, Both, Key;
    var f, g := BareField(score, b, m), BareField(score, c, m);
    SameKey(score, f, g);
    if Told(Key(score, f), x, y) {
      ToldForgetOrder(score, f, g, x, y);
    } else {
      NotTold(Key(score, f), Key(score, g), x, y);
      TiedKeepOrder(score, f, x, y);
      TiedKeepOrder(score, g, x, y);
      assert ToldSince(score, b, m + 1, x, y);
    }
  }

  lemma NotTold(key: Opr -> real, key': Opr -> real, x: Opr, y: Opr)
    requires !Told(key, x, y) && forall o :: key(o) == key'(o)
    ensures !Told(key', x, y)
  {
  }

  /** Two places of the final order, seen when the last of them was taken. */
  lemma PlacesTold(score: Score, b: seq<Opr>, stop: nat, k: nat, x: Opr, y: Opr)
    requires 1 <= stop <= k <= |b| && BareDecided(score, b, stop) && x != y
    requires var r := BareAfter(score, b, stop);
      x in r[..k] && y in r[..k] && (k == stop || y == r[k - 1])
    ensures ToldSince(score, b, k, x, y)
  {
    hide BareAfter, BareField, Told;
    var r := BareAfter(score, b, stop);
    var i :| 0 <= i < k && r[..k][i] == x;
    var j :| 0 <= j < k && r[..k][j] == y && (k == stop || j == k - 1);
    if i < j {
      PlaceTold(score, b, stop, k, i, j);
    } else {
      PlaceTold(score, b, stop, k, j, i);
      ToldSinceEither(score, b, k, x, y);
    }
  }

  lemma PlaceTold(score: Score, b: seq<Opr>, stop: nat, k: nat, i: nat, j: nat)
    requires 1 <= stop <= k <= |b| && BareDecided(score, b, stop) && i < j < k && (k == stop || j == k - 1)
    requires BareAfter(score, b, stop)[i] != BareAfter(score, b, stop)[j]
    ensures ToldSince(score, b, k, BareAfter(score, b, stop)[i], BareAfter(score, b, stop)[j])
  {
    hide BareAfter, BareField, Told;
    var r := BareAfter(score, b, stop);
    var m :| j < m <= |b| && stop <= m && Told(Key(score, BareField(score, b, m)), r[i], r[j]);
  }

  lemma ToldSinceEither(score: Score, b: seq<Opr>, k: nat, x: Opr, y: Opr)
    requires ToldSince(score, b, k, y, x)
    ensures ToldSince(score, b, k, x, y)
  {
    hide BareField, Told;
    var m :| k <= m <= |b| && Told(Key(score, BareField(score, b, m)), y, x);
    ToldEither(Key(score, BareField(score, b, m)), x, y);
  }

  lemma ToldEither(key: Opr -> real, x: Opr, y: Opr)
    ensures Told(key, x, y) == Told(key, y, x)
  {
  }

  /** What pass m leaves, and the field of the next pass. */
  lemma AfterPass(score: Score, b: seq<Opr>, m: nat)
    requires 1 <= m <= |b|
    ensures var r := BareAfter(score, b, m);
      && r[..m] == BarePass(score, BareField(score, b, m)) && r[m..] == BareAfter(score, b, m + 1)[m..]
      && BareField(score, b, m - 1) == r[..m - 1]
  {
    hide BarePass;
  }

  /** In the end the places from m - 1 on, and who is before them, are as pass m left them. */
  lemma PlaceTaken(score: Score, b: seq<Opr>, stop: nat, m: nat)
    requires 1 <= stop <= m <= |b|
    ensures var r, t := BareAfter(score, b, stop), BareAfter(score, b, m);
      multiset(r[..m]) == multiset(t[..m]) && (stop < m ==> r[m - 1..] == t[m - 1..]) && r[m..] == t[m..]
  {
    hide BareAfter;
    BareLater(score, b, m, stop);
    BareLater(score, b, m, m);
    if stop < m { BareLater(score, b, m - 1, stop); }
  }

  /** The last places that pass m gives in two runs, found in the final order of the first. */
  lemma LastPlaces(score: Score, b: seq<Opr>, c: seq<Opr>, stop: nat, m: nat)
    requires 1 <= stop < m <= |b| == |c| && multiset(BareField(score, b, m)) == multiset(BareField(score, c, m))
    ensures BareAfter(score, b, m)[m - 1] == BareAfter(score, b, stop)[m - 1]
    ensures BareAfter(score, c, m)[m - 1] in BareAfter(score, b, stop)[..m]
  {
    hide BareAfter, BarePass, BareField;
    AfterPass(score, b, m);
    AfterPass(score, c, m);
    PlaceTaken(score, b, stop, m);
    BarePassContents(score, BareField(score, b, m));
    BarePassContents(score, BareField(score, c, m));
    assert BareAfter(score, b, m)[m - 1..][0] == BareAfter(score, b, stop)[m - 1..][0];
    var q := BareAfter(score, c, m)[..m];
    assert q[m - 1] in multiset(q);
  }

  /** Pass m gives its last place to the same record in both runs. */
  lemma SamePlace(score: Score, b: seq<Opr>, c: seq<Opr>, stop: nat, m: nat)
    requires Symmetric(score) && 1 <= stop < m <= |b| == |c| && BareDecided(score, b, stop) && Agree(score, b, c, m)
    ensures BareAfter(score, b, m)[m - 1] == BareAfter(score, c, m)[m - 1]
  {
    hide BareAfter, BarePass, BareField, BareDecided, ToldSince, Symmetric, Both;
    LastPlaces(score, b, c, stop, m);
    AfterPass(score, b, m);
    AfterPass(score, c, m);
    var x, y := BareAfter(score, c, m)[m - 1], BareAfter(score, b, m)[m - 1];
    if x != y {
      assert y == BareAfter(score, b, stop)[..m][m - 1];
      PlacesTold(score, b, stop, m, x, y);
      PassAgrees(score, b, c, m, x, y);
      SameEnd(BareAfter(score, b, m)[..m], BareAfter(score, c, m)[..m], x, y);
    }
  }

  lemma OneShorter(t: seq<Opr>, u: seq<Opr>, m: nat)
    requires 1 <= m <= |t| == |u| && multiset(t[..m]) == multiset(u[..m]) && t[m - 1..] == u[m - 1..]
    ensures t[..m] == t[..m - 1] + [t[m - 1]] && u[..m] == u[..m - 1] + [t[m - 1]]
    ensures multiset(t[..m - 1]) == multiset(u[..m - 1])
  {
    var last := t[m - 1];
    assert last == t[m - 1..][0] == u[m - 1..][0] == u[m - 1];
    assert t[..m] == t[..m - 1] + [last] && u[..m] == u[..m - 1] + [last];
    assert multiset(t[..m - 1]) == multiset(t[..m]) - multiset([last]);
    assert multiset(u[..m - 1]) == multiset(u[..m]) - multiset([last]);
  }

  lemma SameBehind(score: Score, b: seq<Opr>, c: seq<Opr>, stop: nat, m: nat)
    requires Symmetric(score) && 1 <= stop < m <= |b| == |c| && BareDecided(score, b, stop) && Agree(score, b, c, m)
    ensures multiset(BareAfter(score, b, m)[..m]) == multiset(BareAfter(score, c, m)[..m])
    ensures BareAfter(score, b, m)[m - 1..] == BareAfter(score, c, m)[m - 1..]
  {
    hide BareAfter, BarePass, BareField, BareDecided, ToldSince, Symmetric, Both;
    SamePlace(score, b, c, stop, m);
    AfterPass(score, b, m);
    AfterPass(score, c, m);
    BarePassContents(score, BareField(score, b, m));
    BarePassContents(score, BareField(score, c, m));
    var t, u := BareAfter(score, b, m), BareAfter(score, c, m);
    assert t[m - 1..] == [t[m - 1]] + t[m..] && u[m - 1..] == [u[m - 1]] + u[m..];
  }

  lemma AgreeNext(score: Score, b: seq<Opr>, c: seq<Opr>, stop: nat, m: nat)
    requires Symmetric(score) && 1 <= stop < m <= |b| == |c| && BareDecided(score, b, stop) && Agree(score, b, c, m)
    ensures Agree(score, b, c, m - 1)
  {
    hide BareAfter, BarePass, BareField, BareDecided, ToldSince, Symmetric, Both;
    SameBehind(score, b, c, stop, m);
    AfterPass(score, b, m);
    AfterPass(score, c, m);
    var t, u := BareAfter(score, b, m), BareAfter(score, c, m);
    OneShorter(t, u, m);
    forall x, y | ToldSince(score, b, m, x, y)
      ensures Both(t[..m - 1], x, y) == Both(u[..m - 1], x, y)
    {
      PassAgrees(score, b, c, m, x, y);
      BothInit(t[..m - 1], u[..m - 1], [t[m - 1]], x, y);
    }
  }

  lemma BothInit(a: seq<Opr>, b: seq<Opr>, rest: seq<Opr>, x: Opr, y: Opr)
    requires Both(a + rest, x, y) == Both(b + rest, x, y)
    ensures Both(a, x, y) == Both(b, x, y)
  {
    BothConcat(a, rest, x, y);
    BothConcat(b, rest, x, y);
    var n := |Both(a + rest, x, y)| - |Both(rest, x, y)|;
    assert Both(a + rest, x, y)[..n] == Both(a, x, y) && Both(b + rest, x, y)[..n] == Both(b, x, y);
  }

  lemma {:induction false} AgreeDownTo(score: Score, b: seq<Opr>, c: seq<Opr>, stop: nat, m: nat)
    requires Symmetric(score) && 1 <= stop <= m <= |b| == |c| && BareDecided(score, b, stop)
    requires multiset(b) == multiset(c)
    ensures Agree(score, b, c, m)
    decreases |b| - m
  {
    hide BareDecided, Symmetric, BarePass, Both, Told;
    if m == |b| {
      assert BareField(score, b, m) == b && BareField(score, c, m) == c;
    } else {
      AgreeDownTo(score, b, c, stop, m + 1);
      AgreeNext(score, b, c, stop, m + 1);
    }
  }

  /** Where all is decided by passes, every arrangement of the records ends in the same order. */
  lemma DecidedForces(score: Score, b: seq<Opr>, c: seq<Opr>, stop: nat)
    requires Symmetric(score) && 1 <= stop <= |b| == |c| && multiset(b) == multiset(c) && BareDecided(score, b, stop)
    ensures BareAfter(score, b, stop) == BareAfter(score, c, stop)
  {
    hide BareAfter, BarePass, BareField, BareDecided, ToldSince, Symmetric, Both;
    AgreeDownTo(score, b, c, stop, stop);
    AfterPass(score, b, stop);
    AfterPass(score, c, stop);
    BarePassContents(score, BareField(score, b, stop));
    BarePassContents(score, BareField(score, c, stop));
    var r, q := BareAfter(score, b, stop), BareAfter(score, c, stop);
    forall x, y | x in r[..stop] && y in r[..stop] && x != y
      ensures Both(r[..stop], x, y) == Both(q[..stop], x, y)
    {
      PlacesTold(score, b, stop, stop, x, y);
      PassAgrees(score, b, c, stop, x, y);
    }
    KnownFromPairs(r[..stop], q[..stop]);
    assert r == r[..stop] + r[stop..] && q == q[..stop] + q[stop..];
  }

  // ---------- what is not told apart shows its arrival ----------

  /** Passes that do not tell x and y apart leave them as they came in. */
  lemma {:induction false} TiedRun(score: Score, c: seq<Opr>, k: nat, x: Opr, y: Opr)
    requires k >= 1 && !ToldSince(score, c, k, x, y)
    ensures Both(BareAfter(score, c, k), x, y) == Both(c, x, y)
    decreases |c| + 1 - k
  {
    hide BarePass, Both, Told, Key;
    if k <= |c| {
      assert !ToldSince(score, c, k + 1, x, y);
      TiedRun(score, c, k + 1, x, y);
      var t := BareAfter(score, c, k + 1);
      assert BareField(score, c, k) == t[..k];
      TiedKeepOrder(score, t[..k], x, y);
      BothConcat(BarePass(score, t[..k]), t[k..], x, y);
      BothConcat(t[..k], t[k..], x, y);
      assert t == t[..k] + t[k..];
    }
  }

  function Swapped(r: seq<Opr>, i: nat, j: nat): seq<Opr>
    requires i < j < |r|
  {
    r[i := r[j]][j := r[i]]
  }

  lemma SwappedContents(r: seq<Opr>, i: nat, j: nat)
    requires i < j < |r|
    ensures multiset(Swapped(r, i, j)) == multiset(r)
  {
  }

  /** Two runs that end alike judge the same fields. */
  lemma SameVerdicts(score: Score, b: seq<Opr>, c: seq<Opr>, stop: nat, k: nat, x: Opr, y: Opr)
    requires Symmetric(score) && 1 <= stop <= k && stop <= |b| == |c|
    requires BareAfter(score, b, stop) == BareAfter(score, c, stop) && !ToldSince(score, b, k, x, y)
    ensures !ToldSince(score, c, k, x, y)
  {
    hide BareAfter, BarePass, Told, Symmetric;
    forall m | k <= m <= |c|
      ensures !Told(Key(score, BareField(score, c, m)), x, y)
    {
      BareLater(score, b, m, stop);
      BareLater(score, c, m, stop);
      SameKey(score, BareField(score, b, m), BareField(score, c, m));
      NotTold(Key(score, BareField(score, b, m)), Key(score, BareField(score, c, m)), x, y);
    }
  }

  /** If no pass told two places of the final order apart, that order with the two swapped does not end in it. */
  lemma TiedShow(score: Score, b: seq<Opr>, stop: nat, i: nat, j: nat)
    requires Symmetric(score) && 1 <= stop <= |b| && i < j < |b|
    requires var r := BareAfter(score, b, stop);
      r[i] != r[j] && !ToldSince(score, b, if j < stop then stop else j + 1, r[i], r[j])
    ensures var r := BareAfter(score, b, stop);
      multiset(Swapped(r, i, j)) == multiset(b) && BareAfter(score, Swapped(r, i, j), stop) != r
  {
    hide BareAfter, BarePass, ToldSince, Symmetric, Both;
    var r, k := BareAfter(score, b, stop), if j < stop then stop else j + 1;
    var c, x, y := Swapped(r, i, j), r[i], r[j];
    SwappedContents(r, i, j);
    BareLater(score, b, |b|, stop);
    assert r[..|b|] == r && multiset(r) == multiset(b) by { AllLeft(score, b); }
    if BareAfter(score, c, stop) == r {
      SameVerdicts(score, b, c, stop, k, x, y);
      TiedRun(score, c, k, x, y);
      PlaceTaken(score, c, stop, k);
      var a := BareAfter(score, c, k);
      assert a[j..] == r[j..];
      EndsShow(a, c, j, x, y);
    }
  }

  lemma AllLeft(score: Score, b: seq<Opr>)
    ensures BareAfter(score, b, |b| + 1)[..|b|] == b
  {
  }

  lemma EndsShow(a: seq<Opr>, c: seq<Opr>, j: nat, x: Opr, y: Opr)
    requires j < |a| == |c| && a[j] == y && c[j] == x && a[j + 1..] == c[j + 1..]
    requires Both(a, x, y) == Both(c, x, y)
    ensures x == y
  {
    hide Both;
    assert a == a[..j + 1] + a[j + 1..] && c == c[..j + 1] + c[j + 1..];
    BothInit(a[..j + 1], c[..j + 1], a[j + 1..], x, y);
    SameEnd(a[..j + 1], c[..j + 1], x, y);
  }

  // ---------- exactly when arrival shows ----------

  predicate Distinguishes(score: Score, f: seq<Opr>, x: Opr, y: Opr) {
    score(f, x, |f| >= 25) != score(f, y, |f| >= 25)
  }

  /**
    Wherever two different records report the same work, some pass that both took part in scored them
    differently: the one at index j took part in the passes over more than j records.
   */
  ghost predicate Decided(score: Score, s: seq<Opr>, stop: nat)
    requires 1 <= stop <= |s|
  {
    var r := After(score, s, |s|, stop);
    forall i, j | 0 <= i < j < |s| && Bare(r[i]) != Bare(r[j])
        && r[i].selfReportedDifficulty == r[j].selfReportedDifficulty ::
      exists m | j < m <= |s| && stop <= m :: Distinguishes(score, Survivors(score, s, |s|, m), r[i], r[j])
  }

  lemma VerdictIsBare(score: Score, s: seq<Opr>, m: nat, x: Opr, y: Opr)
    requires Symmetric(score) && 1 <= m <= |s|
    ensures Told(Key(score, BareField(score, Bares(s), m)), Bare(x), Bare(y)) <==>
      (Distinguishes(score, Survivors(score, s, |s|, m), x, y) || x.selfReportedDifficulty != y.selfReportedDifficulty)
  {
    hide After, BareAfter, SameField;
    AfterIsBare(score, s, m + 1);
    var f := Survivors(score, s, |s|, m);
    assert BareField(score, Bares(s), m) == Bares(f);
    BareTwice(f);
    assert Bare(Bare(x)) == Bare(x) && Bare(Bare(y)) == Bare(y);
    assert Bare(x).selfReportedDifficulty == x.selfReportedDifficulty;
    assert Bare(y).selfReportedDifficulty == y.selfReportedDifficulty;
  }

  lemma DecidedIsBare(score: Score, s: seq<Opr>, stop: nat)
    requires Symmetric(score) && 1 <= stop <= |s|
    ensures Decided(score, s, stop) <==> BareDecided(score, Bares(s), stop)
  {
    hide After, BareAfter, BareField, Symmetric, Told, Distinguishes, Survivors, Key;
    AfterIsBare(score, s, stop);
    var r, b := After(score, s, |s|, stop), Bares(s);
    forall i, j, m | 0 <= i < j < |s| && j < m <= |s|
      ensures Told(Key(score, BareField(score, b, m)), Bare(r[i]), Bare(r[j])) <==>
        (Distinguishes(score, Survivors(score, s, |s|, m), r[i], r[j])
        || r[i].selfReportedDifficulty != r[j].selfReportedDifficulty)
    {
      VerdictIsBare(score, s, m, r[i], r[j]);
    }
    if Decided(score, s, stop) {
      forall i, j | 0 <= i < j < |s| && Bare(r[i]) != Bare(r[j])
        ensures exists m | j < m <= |s| && stop <= m :: Told(Key(score, BareField(score, b, m)), Bare(r[i]), Bare(r[j]))
      {
        if r[i].selfReportedDifficulty == r[j].selfReportedDifficulty {
          var m :| j < m <= |s| && stop <= m && Distinguishes(score, Survivors(score, s, |s|, m), r[i], r[j]);
          assert Told(Key(score, BareField(score, b, m)), Bare(r[i]), Bare(r[j]));
        } else {
          assert Told(Key(score, BareField(score, b, |s|)), Bare(r[i]), Bare(r[j]));
        }
      }
    }
    if BareDecided(score, b, stop) {
      forall i, j | 0 <= i < j < |s| && Bare(r[i]) != Bare(r[j])
          && r[i].selfReportedDifficulty == r[j].selfReportedDifficulty
        ensures exists m | j < m <= |s| && stop <= m :: Distinguishes(score, Survivors(score, s, |s|, m), r[i], r[j])
      {
        var m :| j < m <= |s| && stop <= m && Told(Key(score, BareField(score, b, m)), Bare(r[i]), Bare(r[j]));
        assert Distinguishes(score, Survivors(score, s, |s|, m), r[i], r[j]);
      }
    }
  }

  /** The final order does not depend on how the records arrived. */
  ghost predicate ArrivalInvisible(score: Score, s: seq<Opr>, stop: nat)
    requires 1 <= stop <= |s|
  {
    forall t | SameField(s, t) :: Bares(After(score, t, |t|, stop)) == Bares(After(score, s, |s|, stop))
  }

  /** Exactly then: ties are decided by passes, all of them. */
  lemma ArrivalInvisibleIff(score: Score, s: seq<Opr>, stop: nat)
    requires Symmetric(score) && 1 <= stop <= |s|
    ensures ArrivalInvisible(score, s, stop) <==> Decided(score, s, stop)
  {
    hide After, BareAfter, Decided, BareDecided, Symmetric;
    DecidedIsBare(score, s, stop);
    AfterIsBare(score, s, stop);
    if Decided(score, s, stop) {
      forall t | SameField(s, t)
        ensures Bares(After(score, t, |t|, stop)) == Bares(After(score, s, |s|, stop))
      {
        SameFieldLength(s, t);
        AfterIsBare(score, t, stop);
        DecidedForces(score, Bares(s), Bares(t), stop);
      }
    } else {
      UndecidedShows(score, s, stop);
    }
  }

  /** Where some tie is left to arrival, some other arrangement ends in another order. */
  lemma UndecidedArrangement(score: Score, b: seq<Opr>, stop: nat) returns (t: seq<Opr>)
    requires Symmetric(score) && 1 <= stop <= |b| && !BareDecided(score, b, stop)
    ensures multiset(t) == multiset(b) && BareAfter(score, t, stop) != BareAfter(score, b, stop)
  {
    hide BareAfter, Symmetric, BareField, Told, Key;
    var r := BareAfter(score, b, stop);
    var i, j :| 0 <= i < j < |b| && r[i] != r[j]
      && !exists m | j < m <= |b| && stop <= m :: Told(Key(score, BareField(score, b, m)), r[i], r[j]);
    TiedShow(score, b, stop, i, j);
    t := Swapped(r, i, j);
  }

  lemma UndecidedShows(score: Score, s: seq<Opr>, stop: nat)
    requires Symmetric(score) && 1 <= stop <= |s| && !BareDecided(score, Bares(s), stop)
    ensures !ArrivalInvisible(score, s, stop)
  {
    hide After, BareAfter, Symmetric, BareDecided;
    var t := UndecidedArrangement(score, Bares(s), stop);
    MapContents(t, Bares(s), Bare);
    BareTwice(s);
    assert SameField(s, t);
    SameFieldLength(s, t);
    AfterIsBare(score, s, stop);
    AfterIsBare(score, t, stop);
    BareFromBare(Bares(s), t);
    assert Bares(After(score, t, |t|, stop)) == BareAfter(score, t, stop) != BareAfter(score, Bares(s), stop);
  }

  lemma BareFromBare(b: seq<Opr>, t: seq<Opr>)
    requires Bares(b) == b && multiset(t) == multiset(b)
    ensures Bares(t) == t
  {
    forall i | 0 <= i < |t|
      ensures Bare(t[i]) == t[i]
    {
      assert t[i] in multiset(t) && t[i] in b;
      var k :| 0 <= k < |b| && b[k] == t[i];
      assert Bares(b)[k] == b[k];
    }
  }

  // ---------- what a caller can see beforehand ----------

  /** Without looking at the score: the order cannot depend on arrival exactly if ties are alike. */
  lemma AnyScoreIff(s: seq<Opr>, stop: nat)
    requires 1 <= stop <= |s|
    ensures (forall score | Symmetric(score) :: ArrivalInvisible(score, s, stop)) <==> TiesAlike(s)
  {
    hide ArrivalInvisible, After, SameField;
    if TiesAlike(s) {
      forall score | Symmetric(score)
        ensures ArrivalInvisible(score, s, stop)
      {
        EliminationPermutes(score, s, |s|, stop);
        TiesAlikeMoves(After(score, s, |s|, stop), s);
        ArrivalInvisibleIff(score, s, stop);
      }
    }
    if forall score | Symmetric(score) :: ArrivalInvisible(score, s, stop) {
      var flat: Score := (f: seq<Opr>, o: Opr, banded: bool) => 0.0;
      assert ArrivalInvisible(flat, s, stop);
      NeverDistinguished(flat, s, stop);
    }
  }

  /** A score that sees no difference between the records leaves all ties to their arrival. */
  lemma NeverDistinguished(score: Score, s: seq<Opr>, stop: nat)
    requires Symmetric(score) && 1 <= stop <= |s| && ArrivalInvisible(score, s, stop)
    requires forall f, x, y, banded | Bare(x) in Bares(s) && Bare(y) in Bares(s) ::
      score(f, x, banded) == score(f, y, banded)
    ensures TiesAlike(s)
  {
    hide ArrivalInvisible, After, SameField, Symmetric;
    ArrivalInvisibleIff(score, s, stop);
    EliminationPermutes(score, s, |s|, stop);
    var r := After(score, s, |s|, stop);
    forall i, j | 0 <= i < j < |r| && r[i].selfReportedDifficulty == r[j].selfReportedDifficulty
      ensures Bare(r[i]) == Bare(r[j])
    {
      var i' := FindBare(r, s, i);
      var j' := FindBare(r, s, j);
      assert Bares(s)[i'] == Bare(r[i]) && Bares(s)[j'] == Bare(r[j]);
    }
    SameFieldSymmetric(r, s);
    TiesAlikeMoves(s, r);
  }
}
