/** Exactly when a graded block shows the order in which its records arrived. */
module BlockOrder {
  import opened Common
  import opened Sequences
  import opened StableSort
  import opened Grading
  import opened Ranking
  import opened Averages
  import opened GradedBlock
  import opened TieBreaking

  // ---------- what the difficulties alone decide ----------

  ghost predicate DistinctWork(s: seq<Opr>) {
    forall i, j | 0 <= i < j < |s| :: s[i].selfReportedDifficulty != s[j].selfReportedDifficulty
  }

  ghost predicate SameWork(s: seq<Opr>, u: seq<Opr>) {
    |s| == |u| && forall i | 0 <= i < |s| :: s[i].selfReportedDifficulty == u[i].selfReportedDifficulty
  }

  /** The same difficulties on records that agree on all prices and have nonces of their own. */
  function Unanimous(s: seq<Opr>): (u: seq<Opr>)
    ensures |u| == |s|
  {
    seq(|s|, (i: nat) requires i < |s| => s[i].(nonce := seq(i, (_: nat) => 0), assets := s[0].assets))
  }

  lemma UnanimousTies(v: Version, s: seq<Opr>, stop: nat)
    requires 1 <= stop <= |s| && ArrivalInvisible(ScoreOf(v), Unanimous(s), stop)
    ensures DistinctWork(s)
  {
    hide ArrivalInvisible, Symmetric;
    VersionsSymmetric(v);
    var u := Unanimous(s);
    forall f, x, y, banded | Bare(x) in Bares(u) && Bare(y) in Bares(u)
      ensures ScoreOf(v)(f, x, banded) == ScoreOf(v)(f, y, banded)
    {
      PricesAgree(s, x);
      PricesAgree(s, y);
      SamePrices(v, f, x, y, banded, |x.assets|);
    }
    NeverDistinguished(ScoreOf(v), u, stop);
    forall i, j | 0 <= i < j < |s|
      ensures s[i].selfReportedDifficulty != s[j].selfReportedDifficulty
    {
      assert |Bare(u[i]).nonce| == i && |Bare(u[j]).nonce| == j;
    }
  }

  lemma PricesAgree(s: seq<Opr>, x: Opr)
    requires s != [] && Bare(x) in Bares(Unanimous(s))
    ensures x.assets == s[0].assets
  {
    var i :| 0 <= i < |s| && Bares(Unanimous(s))[i] == Bare(x);
    assert x.assets == Bare(x).assets == Bare(Unanimous(s)[i]).assets;
  }

  lemma {:induction false} SamePrices(v: Version, f: seq<Opr>, x: Opr, y: Opr, banded: bool, k: nat)
    requires x.assets == y.assets
    ensures GradeUpTo(v, f, x, banded, k) == GradeUpTo(v, f, y, banded, k)
  {
    hide Term, AverageAt;
    if k > 0 {
      SamePrices(v, f, x, y, banded, k - 1);
    }
  }

  /**
    From the difficulties of enough records to grade one can tell that their order does not depend on
    arrival, whatever else they contain, exactly if all difficulties differ.
   */
  lemma DifficultiesDecideIff(v: Version, s: seq<Opr>)
    requires |s| >= WinnerAmount(v)
    ensures (forall u | SameWork(s, u) :: ArrivalInvisible(ScoreOf(v), u, Stop(v))) <==> DistinctWork(s)
  {
    hide ArrivalInvisible, ScoreOf, Symmetric;
    VersionsSymmetric(v);
    if DistinctWork(s) {
      forall u | SameWork(s, u)
        ensures ArrivalInvisible(ScoreOf(v), u, Stop(v))
      {
        assert TiesAlike(u);
        AnyScoreIff(u, Stop(v));
      }
    }
    if forall u | SameWork(s, u) :: ArrivalInvisible(ScoreOf(v), u, Stop(v)) {
      assert SameWork(s, Unanimous(s));
      UnanimousTies(v, s, Stop(v));
    }
  }

  // ---------- selecting and grading bare records ----------

  ghost predicate Identified(a: seq<Opr>) {
    forall i, j | 0 <= i < j < |a| :: Id(a[i]) != Id(a[j])
  }

  /** Not graded before. */
  ghost predicate Unplaced(a: seq<Opr>) {
    forall o <- a :: o.position == 0 && o.payout == 0
  }

  lemma DistinctStays(a: seq<Opr>, b: seq<Opr>)
    requires SameField(a, b) && Identified(a)
    ensures Identified(b) && Distinct(b, {}) == b
  {
    MapContents(Bares(a), Bares(b), Id);
    assert forall i | 0 <= i < |a| :: Map(Bares(a), Id)[i] == Id(a[i]);
    assert forall i | 0 <= i < |b| :: Map(Bares(b), Id)[i] == Id(b[i]);
    SelectionOnce(Map(Bares(b), Id), Map(Bares(a), Id));
    DistinctIdentity(b, {});
  }

  lemma {:induction false} BareHonest(pow: Pow, a: seq<Opr>)
    ensures Bares(HonestOnes(pow, a)) == HonestOnes(pow, Bares(a))
  {
    if a != [] {
      BareHonest(pow, a[1..]);
      assert Bares(a)[1..] == Bares(a[1..]);
      var rest := HonestOnes(pow, a[1..]);
      assert Bares([a[0]] + rest) == [Bare(a[0])] + Bares(rest);
    }
  }

  /** The records a block grades, given the honest ones without their grades. */
  function Selected(h: seq<Opr>, cutoff: nat): seq<Opr> {
    Prefix(Sort(h, ByDifficulty), cutoff)
  }

  function BareBlock(v: Version, h: seq<Opr>, cutoff: nat): seq<Opr> {
    Positioned(v, BareAfter(ScoreOf(v), Selected(h, cutoff), Stop(v)))
  }

  lemma BlockIsBare(v: Version, pow: Pow, b: seq<Opr>, cutoff: nat)
    requires Distinct(b, {}) == b && WinnerAmount(v) <= cutoff && WinnerAmount(v) <= |HonestOnes(pow, b)|
    ensures Bares(GradeBlock(v, pow, b, cutoff)) == BareBlock(v, Bares(HonestOnes(pow, b)), cutoff)
  {
    hide After, ScoreOf, Symmetric, BareAfter, Sort, HonestOnes, TopHonest;
    var h, score := HonestOnes(pow, b), ScoreOf(v);
    var top := TopHonest(pow, b, cutoff);
    TopHonestIs(pow, b, cutoff);
    SortContents(h, ByDifficulty);
    MapSort(h, ByDifficulty, Bare, ByDifficulty);
    assert Bares(top) == Selected(Bares(h), cutoff);
    VersionsSymmetric(v);
    AfterIsBare(score, top, Stop(v));
    var r := After(score, top, |top|, Stop(v));
    assert Bares(Positioned(v, r)) == Positioned(v, Bares(r));
  }

  // ---------- the cutoff ----------

  /** No two records with equal work stand on different sides of the cutoff. */
  ghost predicate CleanCut(s: seq<Opr>, cutoff: nat) {
    forall i, j | 0 <= i < cutoff <= j < |s| :: s[i].selfReportedDifficulty != s[j].selfReportedDifficulty
  }

  lemma {:induction false} FilterAll<T>(s: seq<T>, p: T -> bool)
    requires forall x <- s :: p(x)
    ensures Filter(s, p) == s
  {
    if s != [] {
      assert s[0] in s;
      FilterAll(s[1..], p);
    }
  }

  lemma {:induction false} FilterNone<T>(s: seq<T>, p: T -> bool)
    requires forall x <- s :: !p(x)
    ensures Filter(s, p) == []
  {
    if s != [] {
      assert s[0] in s;
      FilterNone(s[1..], p);
    }
  }

  lemma FilterCut(s: seq<Opr>, c: nat, p: Opr -> bool)
    requires c <= |s| && forall i | 0 <= i < |s| :: p(s[i]) <==> i < c
    ensures Filter(s, p) == s[..c]
  {
    assert s == s[..c] + s[c..];
    FilterConcat(s[..c], s[c..], p);
    FilterAll(s[..c], p);
    FilterNone(s[c..], p);
  }

  lemma SameKeysInOrder(a: seq<Opr>, b: seq<Opr>, i: nat)
    requires Sorted(a, ByDifficulty) && Sorted(b, ByDifficulty) && multiset(a) == multiset(b) && i < |a|
    ensures |a| == |b| && ByDifficulty(a[i]) == ByDifficulty(b[i])
  {
    SameSize(a, b);
    MapContents(a, b, ByDifficulty);
    SortedUnique(Map(a, ByDifficulty), Map(b, ByDifficulty), Self);
    assert Map(a, ByDifficulty)[i] == Map(b, ByDifficulty)[i];
  }

  /** A clean cut separates the same records in every sorted arrangement. */
  lemma CutContents(a: seq<Opr>, b: seq<Opr>, cutoff: nat)
    requires Sorted(a, ByDifficulty) && Sorted(b, ByDifficulty) && multiset(a) == multiset(b)
    requires cutoff >= 1 && CleanCut(a, cutoff)
    ensures multiset(Prefix(a, cutoff)) == multiset(Prefix(b, cutoff))
  {
    SameSize(a, b);
    if cutoff < |a| {
      var limit := ByDifficulty(a[cutoff - 1]);
      var p := (o: Opr) => ByDifficulty(o) <= limit;
      forall i | 0 <= i < |a|
        ensures (p(a[i]) <==> i < cutoff) && (p(b[i]) <==> i < cutoff)
      {
        SameKeysInOrder(a, b, i);
        if i >= cutoff { assert a[cutoff - 1].selfReportedDifficulty != a[i].selfReportedDifficulty; }
      }
      FilterCut(a, cutoff, p);
      FilterCut(b, cutoff, p);
      FilterContents(a, b, p);
    }
  }

  lemma SortedStays(s: seq<Opr>)
    requires Sorted(s, ByDifficulty)
    ensures Sort(s, ByDifficulty) == s
  {
    StableUnique(s, s, ByDifficulty);
  }

  /** Sorting a list whose first part comes before the rest anyway. */
  lemma SortParts<T>(x: seq<T>, y: seq<T>, key: T -> real)
    requires Sorted(y, key) && forall o, u | o in x && u in y :: key(o) <= key(u)
    ensures Sort(x + y, key) == Sort(x, key) + y
  {
    hide Sort, Class;
    var x' := Sort(x, key);
    SortedParts(x, y, key);
    forall k
      ensures Class(x' + y, key, k) == Class(x + y, key, k)
    {
      SortKeepsClass(x, key, k);
      ClassConcat(x', y, key, k);
      ClassConcat(x, y, key, k);
    }
    StableUnique(x' + y, x + y, key);
  }

  lemma SortedParts<T>(x: seq<T>, y: seq<T>, key: T -> real)
    requires Sorted(y, key) && forall o, u | o in x && u in y :: key(o) <= key(u)
    ensures Sorted(Sort(x, key) + y, key)
  {
    hide Sort;
    var x' := Sort(x, key);
    SortSorted(x, key);
    forall o | o in x'
      ensures o in x
    {
      SortMember(x, key, o);
    }
  }

  lemma ClassConcat<T>(a: seq<T>, b: seq<T>, key: T -> real, k: real)
    ensures Class(a + b, key, k) == Class(a, key, k) + Class(b, key, k)
  {
    FilterConcat(a, b, x => key(x) == k);
  }

  // ---------- exactly when a block shows arrival ----------

  /** Places and payouts taken off again. */
  function Unplace(o: Opr): Opr {
    o.(position := 0, payout := 0)
  }

  lemma PlacedBack(v: Version, r: seq<Opr>)
    requires Unplaced(r)
    ensures Map(Positioned(v, r), Unplace) == r
  {
    forall i | 0 <= i < |r|
      ensures Map(Positioned(v, r), Unplace)[i] == r[i]
    {
      assert r[i] in r;
    }
  }

  lemma UnplacedMoves(a: seq<Opr>, b: seq<Opr>)
    requires Unplaced(a) && forall o <- b :: o in multiset(a)
    ensures Unplaced(b)
  {
  }

  lemma SelectedIn(h: seq<Opr>, cutoff: nat)
    ensures forall o <- Selected(h, cutoff) :: o in multiset(h)
    ensures |Selected(h, cutoff)| == if cutoff < |h| then cutoff else |h|
  {
    SortContents(h, ByDifficulty);
    var s := Sort(h, ByDifficulty);
    forall o | o in Selected(h, cutoff)
      ensures o in multiset(h)
    {
      assert o in s && o in multiset(s);
    }
  }

  lemma AllPlaced(score: Score, b: seq<Opr>, k: nat)
    requires 1 <= k <= |b|
    ensures multiset(BareAfter(score, b, k)) == multiset(b)
  {
    hide BareAfter;
    BareLater(score, b, |b|, k);
    AllLeft(score, b);
    assert BareAfter(score, b, k)[..|b|] == BareAfter(score, b, k);
  }

  /** Blocks that look alike rank the same records in the same order. */
  lemma SameBlock(v: Version, h: seq<Opr>, g: seq<Opr>, cutoff: nat)
    requires Unplaced(h) && multiset(g) == multiset(h) && WinnerAmount(v) <= cutoff && WinnerAmount(v) <= |h| == |g|
    requires BareBlock(v, h, cutoff) == BareBlock(v, g, cutoff)
    ensures var b, c := Selected(h, cutoff), Selected(g, cutoff);
      BareAfter(ScoreOf(v), b, Stop(v)) == BareAfter(ScoreOf(v), c, Stop(v)) && multiset(b) == multiset(c)
  {
    hide BareAfter, ScoreOf, Selected, Positioned, Unplaced;
    var b, c := Selected(h, cutoff), Selected(g, cutoff);
    SelectedIn(h, cutoff);
    SelectedIn(g, cutoff);
    AllPlaced(ScoreOf(v), b, Stop(v));
    AllPlaced(ScoreOf(v), c, Stop(v));
    var r, q := BareAfter(ScoreOf(v), b, Stop(v)), BareAfter(ScoreOf(v), c, Stop(v));
    forall o | o in r ensures o in multiset(h) { assert o in multiset(r) && o in b; }
    forall o | o in q ensures o in multiset(h) { assert o in multiset(q) && o in c; }
    UnplacedMoves(h, r);
    UnplacedMoves(h, q);
    PlacedBack(v, r);
    PlacedBack(v, q);
  }

  lemma CleanForces(v: Version, h: seq<Opr>, g: seq<Opr>, cutoff: nat)
    requires multiset(g) == multiset(h) && WinnerAmount(v) <= cutoff && WinnerAmount(v) <= |h|
    requires CleanCut(Sort(h, ByDifficulty), cutoff) && |Selected(h, cutoff)| >= Stop(v)
    requires BareDecided(ScoreOf(v), Selected(h, cutoff), Stop(v))
    ensures BareBlock(v, g, cutoff) == BareBlock(v, h, cutoff)
  {
    hide BareAfter, ScoreOf, Positioned, BareDecided, Symmetric, CleanCut;
    var b, c := Selected(h, cutoff), Selected(g, cutoff);
    SortContents(h, ByDifficulty);
    SortContents(g, ByDifficulty);
    SortSorted(h, ByDifficulty);
    SortSorted(g, ByDifficulty);
    CutContents(Sort(h, ByDifficulty), Sort(g, ByDifficulty), cutoff);
    SameSize(b, c);
    VersionsSymmetric(v);
    DecidedForces(ScoreOf(v), b, c, Stop(v));
  }

  lemma SwappedTies(s: seq<Opr>, i: nat, j: nat)
    requires i < j < |s| && Sorted(s, ByDifficulty) && s[i].selfReportedDifficulty == s[j].selfReportedDifficulty
    ensures Sort(Swapped(s, i, j), ByDifficulty) == Swapped(s, i, j)
  {
    SortedStays(Swapped(s, i, j));
  }

  lemma SwappedAcross(s: seq<Opr>, i: nat, j: nat, c: nat)
    requires i < c <= j < |s| && NoRepeats(s)
    ensures multiset(Swapped(s, i, j)[..c]) != multiset(s[..c])
  {
    var g := Swapped(s, i, j);
    assert g[..c][i] == s[j] && s[j] in multiset(g[..c]);
    assert s[j] !in s[..c];
  }

  /** With a tie across the cutoff, arrival decides who is graded. */
  lemma UncleanShows(v: Version, h: seq<Opr>, cutoff: nat) returns (g: seq<Opr>)
    requires Unplaced(h) && NoRepeats(h) && WinnerAmount(v) <= cutoff && WinnerAmount(v) <= |h|
    requires !CleanCut(Sort(h, ByDifficulty), cutoff)
    ensures multiset(g) == multiset(h) && BareBlock(v, g, cutoff) != BareBlock(v, h, cutoff)
  {
    hide BareBlock, Sort, Swapped, NoRepeats;
    var s := Sort(h, ByDifficulty);
    SortContents(h, ByDifficulty);
    SortSorted(h, ByDifficulty);
    SelectionOnce(s, h);
    var i, j :| 0 <= i < cutoff <= j < |s| && s[i].selfReportedDifficulty == s[j].selfReportedDifficulty;
    g := Swapped(s, i, j);
    SwappedContents(s, i, j);
    SwappedTies(s, i, j);
    SameSize(g, h);
    SwappedAcross(s, i, j, cutoff);
    assert Selected(g, cutoff) == g[..cutoff] && Selected(h, cutoff) == s[..cutoff];
    if BareBlock(v, h, cutoff) == BareBlock(v, g, cutoff) { SameBlock(v, h, g, cutoff); }
  }

  /** The first pass sorts by difficulty anyway. */
  lemma FirstPassSorts(score: Score, t: seq<Opr>)
    requires Symmetric(score)
    ensures BarePass(score, Sort(t, ByDifficulty)) == BarePass(score, t)
  {
    hide Symmetric, Key, Sort;
    var u := Sort(t, ByDifficulty);
    SortContents(t, ByDifficulty);
    SortSorted(t, ByDifficulty);
    SortedStays(u);
    SameKey(score, u, t);
    SameKeys(u, Key(score, u), Key(score, t));
  }

  lemma {:induction false} SortedFirst(score: Score, t: seq<Opr>, k: nat)
    requires Symmetric(score) && 1 <= k <= |t|
    ensures |Sort(t, ByDifficulty)| == |t| && BareAfter(score, Sort(t, ByDifficulty), k) == BareAfter(score, t, k)
    decreases |t| - k
  {
    hide Symmetric, BarePass, Sort;
    var u := Sort(t, ByDifficulty);
    SortContents(t, ByDifficulty);
    if k < |t| {
      SortedFirst(score, t, k + 1);
    } else {
      FirstPassSorts(score, t);
      assert t[..k] == t && u[..k] == u && t[k..] == u[k..] == [];
    }
  }

  /** With a tie that no pass decides, arrival decides the order. */
  lemma UndecidedBlock(v: Version, h: seq<Opr>, cutoff: nat) returns (g: seq<Opr>)
    requires Unplaced(h) && WinnerAmount(v) <= cutoff && WinnerAmount(v) <= |h|
    requires |Selected(h, cutoff)| >= Stop(v) && !BareDecided(ScoreOf(v), Selected(h, cutoff), Stop(v))
    ensures multiset(g) == multiset(h) && BareBlock(v, g, cutoff) != BareBlock(v, h, cutoff)
  {
    hide BareBlock, BareAfter, BareDecided, ScoreOf, Symmetric, Sort;
    VersionsSymmetric(v);
    var s, b := Sort(h, ByDifficulty), Selected(h, cutoff);
    var t := UndecidedArrangement(ScoreOf(v), b, Stop(v));
    SameSize(t, b);
    SortedFirst(ScoreOf(v), t, Stop(v));
    g := Rearranged(h, cutoff, t);
    SameSize(g, h);
    if BareBlock(v, h, cutoff) == BareBlock(v, g, cutoff) { SameBlock(v, h, g, cutoff); }
  }

  /** An arrival order with which t, sorted, is selected. */
  lemma Rearranged(h: seq<Opr>, cutoff: nat, t: seq<Opr>) returns (g: seq<Opr>)
    requires multiset(t) == multiset(Selected(h, cutoff))
    ensures multiset(g) == multiset(h) && Selected(g, cutoff) == Sort(t, ByDifficulty)
  {
    hide Sort;
    var s, n := Sort(h, ByDifficulty), |t|;
    SortContents(h, ByDifficulty);
    SortSorted(h, ByDifficulty);
    SortContents(t, ByDifficulty);
    SameSize(t, Selected(h, cutoff));
    assert Selected(h, cutoff) == s[..n];
    g := t + s[n..];
    assert s == s[..n] + s[n..];
    forall o, u | o in t && u in s[n..]
      ensures ByDifficulty(o) <= ByDifficulty(u)
    {
      assert o in multiset(t) && o in s[..n];
    }
    SortParts(t, s[n..], ByDifficulty);
    assert Prefix(Sort(t, ByDifficulty) + s[n..], cutoff) == Sort(t, ByDifficulty);
  }

  lemma {:induction false} Parts(a: seq<Opr>, p: Opr -> bool, q: Opr -> bool)
    requires forall o <- a :: p(o) <==> !q(o)
    ensures multiset(a) == multiset(Filter(a, p)) + multiset(Filter(a, q))
  {
    if a != [] {
      assert a == [a[0]] + a[1..] && a[0] in a;
      Parts(a[1..], p, q);
    }
  }

  /** Any arrangement of the honest records comes from an arrangement of all of them. */
  lemma AnyHonest(pow: Pow, a: seq<Opr>, g: seq<Opr>) returns (b: seq<Opr>)
    requires multiset(g) == multiset(Bares(HonestOnes(pow, a)))
    ensures SameField(a, b) && Bares(HonestOnes(pow, b)) == g
  {
    var honest, other := (o: Opr) => Honest(pow, o), (o: Opr) => !Honest(pow, o);
    var bare := Bares(a);
    BareHonest(pow, a);
    Parts(bare, honest, other);
    var rest := Filter(bare, other);
    b := g + rest;
    BareTwice(a);
    BareFromBare(bare, b);
    forall o | o in g
      ensures honest(o)
    {
      assert o in multiset(g) && o in HonestOnes(pow, bare);
      FilterMember(bare, honest, o);
    }
    forall o | o in rest
      ensures !honest(o)
    {
      FilterMember(bare, other, o);
    }
    FilterConcat(g, rest, honest);
    FilterAll(g, honest);
    FilterNone(rest, honest);
    BareHonest(pow, b);
  }

  /** The records of a block in the order and with the places and payouts they get, whatever order they arrive in. */
  ghost predicate BlockInvisible(v: Version, pow: Pow, a: seq<Opr>, cutoff: nat) {
    forall b | SameField(a, b) :: Bares(GradeBlock(v, pow, b, cutoff)) == Bares(GradeBlock(v, pow, a, cutoff))
  }

  /**
    Of records that differ in nonce or OPR hash, and of which enough are honest, a graded block does
    not show the order of arrival exactly if no two with equal work stand on different sides of the
    cutoff, and every tie among those graded is decided by a pass.
   */
  lemma BlockInvisibleIff(v: Version, pow: Pow, a: seq<Opr>, cutoff: nat)
    requires Identified(a) && Unplaced(a) && WinnerAmount(v) <= cutoff && WinnerAmount(v) <= |HonestOnes(pow, a)|
    ensures |TopHonest(pow, a, cutoff)| >= WinnerAmount(v)
    ensures BlockInvisible(v, pow, a, cutoff) <==>
      (CleanCut(Sort(HonestOnes(pow, a), ByDifficulty), cutoff)
      && Decided(ScoreOf(v), TopHonest(pow, a, cutoff), Stop(v)))
  {
    hide BareBlock, GradeBlock, HonestOnes, Sort, Decided, BareDecided, ScoreOf, Symmetric, Identified, NoRepeats;
    var h := Bares(HonestOnes(pow, a));
    BareSelection(v, pow, a, cutoff);
    HonestOnce(pow, a);
    VersionsSymmetric(v);
    if CleanCut(Sort(h, ByDifficulty), cutoff) && BareDecided(ScoreOf(v), Selected(h, cutoff), Stop(v)) {
      forall b | SameField(a, b)
        ensures Bares(GradeBlock(v, pow, b, cutoff)) == Bares(GradeBlock(v, pow, a, cutoff))
      {
        HonestSame(pow, a, b);
        BlocksAreBare(v, pow, a, b, cutoff);
        CleanForces(v, h, Bares(HonestOnes(pow, b)), cutoff);
      }
    } else {
      var g;
      if !CleanCut(Sort(h, ByDifficulty), cutoff) { g := UncleanShows(v, h, cutoff); }
      else { g := UndecidedBlock(v, h, cutoff); }
      var b := AnyHonest(pow, a, g);
      BlocksAreBare(v, pow, a, b, cutoff);
      assert SameField(a, b);
    }
  }

  lemma HonestSame(pow: Pow, a: seq<Opr>, b: seq<Opr>)
    requires SameField(a, b)
    ensures SameField(HonestOnes(pow, a), HonestOnes(pow, b))
  {
    BareHonest(pow, a);
    BareHonest(pow, b);
    FilterContents(Bares(a), Bares(b), o => Honest(pow, o));
  }

  lemma BlocksAreBare(v: Version, pow: Pow, a: seq<Opr>, b: seq<Opr>, cutoff: nat)
    requires SameField(a, b) && Identified(a) && WinnerAmount(v) <= cutoff && WinnerAmount(v) <= |HonestOnes(pow, a)|
    ensures Bares(GradeBlock(v, pow, a, cutoff)) == BareBlock(v, Bares(HonestOnes(pow, a)), cutoff)
    ensures Bares(GradeBlock(v, pow, b, cutoff)) == BareBlock(v, Bares(HonestOnes(pow, b)), cutoff)
  {
    hide GradeBlock, BareBlock, HonestOnes, SameField;
    DistinctStays(a, b);
    SameFieldSymmetric(a, b);
    DistinctStays(b, a);
    HonestSame(pow, a, b);
    SameFieldLength(HonestOnes(pow, a), HonestOnes(pow, b));
    BlockIsBare(v, pow, a, cutoff);
    BlockIsBare(v, pow, b, cutoff);
  }

  /** No honest record twice, and none graded before. */
  lemma HonestOnce(pow: Pow, a: seq<Opr>)
    requires Identified(a) && Unplaced(a)
    ensures NoRepeats(Bares(HonestOnes(pow, a))) && Unplaced(Bares(HonestOnes(pow, a)))
  {
    var bare, honest := Bares(a), (o: Opr) => Honest(pow, o);
    BareHonest(pow, a);
    Parts(bare, honest, o => !honest(o));
    assert forall i | 0 <= i < |a| :: Id(bare[i]) == Id(a[i]) && a[i] in a;
    SelectionOnce(HonestOnes(pow, bare), bare);
    forall o | o in HonestOnes(pow, bare)
      ensures o.position == 0 && o.payout == 0
    {
      FilterMember(bare, honest, o);
      var i :| 0 <= i < |a| && bare[i] == o;
      assert Bare(a[i]).position == a[i].position;
    }
  }

  /** The selection and its ties, seen without the grades. */
  lemma BareSelection(v: Version, pow: Pow, a: seq<Opr>, cutoff: nat)
    requires WinnerAmount(v) <= cutoff && WinnerAmount(v) <= |HonestOnes(pow, a)|
    ensures var h, top := Bares(HonestOnes(pow, a)), TopHonest(pow, a, cutoff);
      && |top| == |Selected(h, cutoff)| >= WinnerAmount(v)
      && (CleanCut(Sort(h, ByDifficulty), cutoff) <==> CleanCut(Sort(HonestOnes(pow, a), ByDifficulty), cutoff))
      && (Decided(ScoreOf(v), top, Stop(v)) <==> BareDecided(ScoreOf(v), Selected(h, cutoff), Stop(v)))
  {
    hide Sort, HonestOnes, TopHonest, Decided, BareDecided, ScoreOf, Symmetric;
    var h, top := HonestOnes(pow, a), TopHonest(pow, a, cutoff);
    TopHonestIs(pow, a, cutoff);
    SortContents(h, ByDifficulty);
    MapSort(h, ByDifficulty, Bare, ByDifficulty);
    var s := Sort(h, ByDifficulty);
    assert forall i | 0 <= i < |s| :: Bares(s)[i].selfReportedDifficulty == s[i].selfReportedDifficulty;
    assert Bares(top) == Selected(Bares(h), cutoff);
    VersionsSymmetric(v);
    DecidedIsBare(ScoreOf(v), top, Stop(v));
  }

  // ---------- blocks that show it ----------

  /** Two different records that quote the same prices with equal work always show in which order they came. */
  lemma TwinsShow(v: Version, pow: Pow, a: seq<Opr>, cutoff: nat, x: Opr, y: Opr)
    requires Identified(a) && Unplaced(a) && WinnerAmount(v) <= cutoff && WinnerAmount(v) <= |HonestOnes(pow, a)|
    requires x in TopHonest(pow, a, cutoff) && y in TopHonest(pow, a, cutoff) && Bare(x) != Bare(y)
    requires x.selfReportedDifficulty == y.selfReportedDifficulty && x.assets == y.assets
    ensures !BlockInvisible(v, pow, a, cutoff)
  {
    hide BlockInvisible, TopHonest, After, Symmetric, SameField, CleanCut, Identified, Unplaced, HonestOnes;
    BlockInvisibleIff(v, pow, a, cutoff);
    var top := TopHonest(pow, a, cutoff);
    var r := After(ScoreOf(v), top, |top|, Stop(v));
    EliminationPermutes(ScoreOf(v), top, |top|, Stop(v));
    SameFieldSymmetric(r, top);
    var k :| 0 <= k < |top| && top[k] == x;
    var l :| 0 <= l < |top| && top[l] == y;
    var i := FindBare(top, r, k);
    var j := FindBare(top, r, l);
    SameGrades(v, x, y, r[i], r[j]);
    if i < j { NotDecided(v, top, i, j); } else { NotDecided(v, top, j, i); }
  }

  lemma SameGrades(v: Version, x: Opr, y: Opr, x': Opr, y': Opr)
    requires x.selfReportedDifficulty == y.selfReportedDifficulty && x.assets == y.assets
    requires Bare(x') == Bare(x) && Bare(y') == Bare(y)
    ensures x'.selfReportedDifficulty == y'.selfReportedDifficulty
    ensures forall f, banded :: ScoreOf(v)(f, x', banded) == ScoreOf(v)(f, y', banded)
  {
    assert Bare(x').assets == Bare(x).assets && Bare(y').assets == Bare(y).assets;
    assert Bare(x').selfReportedDifficulty == Bare(x).selfReportedDifficulty;
    assert Bare(y').selfReportedDifficulty == Bare(y).selfReportedDifficulty;
    forall f, banded
      ensures ScoreOf(v)(f, x', banded) == ScoreOf(v)(f, y', banded)
    {
      SamePrices(v, f, x', y', banded, |x'.assets|);
    }
  }

  lemma NotDecided(v: Version, top: seq<Opr>, i: nat, j: nat)
    requires Stop(v) <= |top| && i < j < |top|
    requires var r := After(ScoreOf(v), top, |top|, Stop(v));
      && Bare(r[i]) != Bare(r[j]) && r[i].selfReportedDifficulty == r[j].selfReportedDifficulty
      && forall f, banded :: ScoreOf(v)(f, r[i], banded) == ScoreOf(v)(f, r[j], banded)
    ensures !Decided(ScoreOf(v), top, Stop(v))
  {
    hide After, ScoreOf, Survivors;
  }

  /** Just enough records to win, alike but for their nonces. */
  function Twins(v: Version): (a: seq<Opr>)
    ensures |a| == WinnerAmount(v)
  {
    seq(WinnerAmount(v), (i: nat) => Opr([], seq(i, (_: nat) => 0), [], 0, 0, [], [], 0.0, 0, 0))
  }

  /** A proof of work that is zero for everything. */
  function NoWork(data: seq<byte>): uint64 {
    0
  }

  lemma TwinsIdentified(v: Version)
    ensures Identified(Twins(v)) && Unplaced(Twins(v))
  {
    var a := Twins(v);
    assert forall i | 0 <= i < |a| :: |Id(a[i])| == i;
  }

  lemma TwinsHonest(v: Version)
    ensures HonestOnes(NoWork, Twins(v)) == Twins(v)
  {
    FilterAll(Twins(v), o => Honest(NoWork, o));
  }

  lemma TwinsSelected(v: Version, i: nat)
    requires i < WinnerAmount(v)
    ensures Twins(v)[i] in TopHonest(NoWork, Twins(v), WinnerAmount(v))
  {
    hide TopHonest, Twins;
    var a, n := Twins(v), WinnerAmount(v);
    TwinsHonest(v);
    TopHonestIs(NoWork, a, n);
    SortContents(a, ByDifficulty);
    SortMember(a, ByDifficulty, a[i]);
  }

  /** So there is a block for every version, graded in full, that shows it. */
  lemma SomeBlockShows(v: Version)
    ensures !BlockInvisible(v, NoWork, Twins(v), WinnerAmount(v))
  {
    hide BlockInvisible, TopHonest, Identified, Unplaced, HonestOnes;
    var a := Twins(v);
    TwinsIdentified(v);
    TwinsHonest(v);
    TwinsSelected(v, 0);
    TwinsSelected(v, 1);
    assert |Bare(a[0]).nonce| == 0 && |Bare(a[1]).nonce| == 1;
    TwinsShow(v, NoWork, a, WinnerAmount(v), a[0], a[1]);
  }
}
