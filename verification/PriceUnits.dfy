/**
  What a grade measures: relative differences from the average. Units of price do not matter, and a
  price that is x above or below the average, in proportion, costs the fourth power of x.
 */
module PriceUnits {
  import opened Common
  import opened StableSort
  import opened Grading
  import opened Averages

  // ---------- another unit for one asset ----------

  function Scaled(c: real, x: real): real {
    c * x
  }

  function Times(c: real): real -> real {
    (x: real) => Scaled(c, x)
  }

  /** The record with the price of asset k in a unit c times smaller. */
  function InUnit(k: nat, c: real): Opr -> Opr {
    (o: Opr) => if k < |o.assets| then o.(assets := o.assets[k := Scaled(c, o.assets[k])]) else o
  }

  /** A quantity of asset i after the change of the unit of asset k. */
  function Converted(k: nat, c: real, i: nat, x: real): real {
    if i == k then Scaled(c, x) else x
  }

  lemma PriceInUnit(k: nat, c: real, o: Opr, i: nat)
    ensures Price(InUnit(k, c)(o), i) == Converted(k, c, i, Price(o, i))
    ensures |InUnit(k, c)(o).assets| == |o.assets|
  {
  }

  lemma SumStep(c: real, x: real, y: real)
    ensures Scaled(c, x + y) == Scaled(c, x) + Scaled(c, y)
  {
  }

  lemma {:induction false} SumTimes(s: seq<real>, c: real)
    ensures Sum(Map(s, Times(c))) == Scaled(c, Sum(s))
  {
    hide Scaled;
    if s == [] {
      assert Scaled(c, 0.0) == 0.0 by { ScaledZero(c); }
    } else {
      var n := |s| - 1;
      SumTimes(s[..n], c);
      assert Map(s, Times(c))[..n] == Map(s[..n], Times(c));
      SumStep(c, Sum(s[..n]), s[n]);
    }
  }

  lemma ScaledZero(c: real)
    ensures Scaled(c, 0.0) == 0.0
  {
  }

  lemma AbsTimes(c: real, x: real)
    requires c > 0.0
    ensures Abs(Scaled(c, x)) == Scaled(c, Abs(x))
  {
    if x >= 0.0 { assert c * x >= 0.0; } else { assert c * x < 0.0; }
  }

  lemma ScaledOrder(c: real, x: real, y: real)
    requires c > 0.0 && x <= y
    ensures Scaled(c, x) <= Scaled(c, y)
  {
    assert c * (y - x) >= 0.0;
  }

  lemma ScaledQuotient(c: real, x: real, d: real)
    requires d > 0.0
    ensures Scaled(c, x) / d == Scaled(c, x / d)
  {
  }

  /** Sorting commutes with what keeps the order. */
  lemma SortMonotone(s: seq<real>, f: real -> real)
    requires forall x, y | x <= y :: f(x) <= f(y)
    ensures Sort(Map(s, f), Self) == Map(Sort(s, Self), f)
  {
    hide Sort;
    var t, sorted := Map(s, f), Sort(s, Self);
    SortContents(s, Self);
    SortContents(t, Self);
    SortSorted(s, Self);
    SortSorted(t, Self);
    var a := Map(sorted, f);
    forall i, j | 0 <= i < j < |a|
      ensures Self(a[i]) <= Self(a[j])
    {
      assert Self(sorted[i]) <= Self(sorted[j]);
    }
    MapContents(sorted, s, f);
    SortedUnique(a, Sort(t, Self), Self);
  }

  /** Sorting does not see the unit. */
  lemma SortTimes(s: seq<real>, c: real)
    requires c > 0.0
    ensures Sort(Map(s, Times(c)), Self) == Map(Sort(s, Self), Times(c))
  {
    hide Sort, Scaled;
    forall x, y | x <= y
      ensures Times(c)(x) <= Times(c)(y)
    {
      ScaledOrder(c, x, y);
    }
    SortMonotone(s, Times(c));
  }

  // ---------- averages ----------

  lemma AbsColumnInUnit(s: seq<Opr>, k: nat, c: real, i: nat)
    requires c > 0.0
    ensures AbsColumn(Map(s, InUnit(k, c)), i) == if i == k then Map(AbsColumn(s, i), Times(c)) else AbsColumn(s, i)
  {
    hide Abs, InUnit, Price, Scaled;
    forall j | 0 <= j < |s|
      ensures Abs(Price(Map(s, InUnit(k, c))[j], i)) == Converted(k, c, i, Abs(Price(s[j], i)))
    {
      PriceInUnit(k, c, s[j], i);
      AbsTimes(c, Price(s[j], i));
    }
  }

  lemma MeanInUnit(s: seq<Opr>, k: nat, c: real, i: nat)
    requires c > 0.0
    ensures MeanAt(Map(s, InUnit(k, c)), i) == Converted(k, c, i, MeanAt(s, i))
  {
    hide InUnit, AbsColumn, Times, Sum, Scaled;
    AbsColumnInUnit(s, k, c, i);
    SumTimes(AbsColumn(s, i), c);
    ScaledZero(c);
    if s != [] { ScaledQuotient(c, Sum(AbsColumn(s, i)), |s| as real); }
  }

  lemma TrimmedTimes(data: seq<real>, p: nat, c: real)
    requires c > 0.0 && data != [] && (|data| > 3 ==> 2 * p < |data|)
    ensures TrimmedMean(Map(data, Times(c)), p) == Scaled(c, TrimmedMean(data, p))
  {
    hide Sort, Sum, Scaled;
    var sorted, scaled := Sort(data, Self), Sort(Map(data, Times(c)), Self);
    SortContents(data, Self);
    SortContents(Map(data, Times(c)), Self);
    SortTimes(data, c);
    if |data| > 3 {
      var kept, n := sorted[p..|data| - p], |data| - 2 * p;
      assert scaled[p..|data| - p] == Map(kept, Times(c));
      SumTimes(kept, c);
      ScaledQuotient(c, Sum(kept), n as real);
    }
  }

  lemma TrimmedInUnit(s: seq<Opr>, k: nat, c: real, i: nat)
    requires c > 0.0
    ensures TrimmedAt(Map(s, InUnit(k, c)), i) == Converted(k, c, i, TrimmedAt(s, i))
  {
    hide TrimmedMean, InUnit, Price, Scaled;
    var t := Map(s, InUnit(k, c));
    forall j | 0 <= j < |s|
      ensures Column(t, i)[j] == Converted(k, c, i, Column(s, i)[j])
    {
      PriceInUnit(k, c, s[j], i);
    }
    ScaledZero(c);
    if i == k {
      assert Column(t, i) == Map(Column(s, i), Times(c));
      if s != [] { TrimmedTimes(Column(s, i), TrimCount(|s|), c); }
    } else {
      assert Column(t, i) == Column(s, i);
    }
  }

  /** The average of an asset is in the unit of its prices. */
  lemma AverageInUnit(v: Version, s: seq<Opr>, k: nat, c: real, i: nat)
    requires c > 0.0
    ensures AverageAt(v, Map(s, InUnit(k, c)), i) == Converted(k, c, i, AverageAt(v, s, i))
  {
    hide MeanAt, TrimmedAt, InUnit, Converted;
    MeanInUnit(s, k, c, i);
    TrimmedInUnit(s, k, c, i);
  }

  // ---------- scores ----------

  lemma DeviationInUnit(c: real, x: real, avg: real)
    requires c > 0.0 && avg > 0.0
    ensures Scaled(c, avg) > 0.0 && Deviation(Scaled(c, x), Scaled(c, avg)) == Deviation(x, avg)
  {
    assert c * avg > 0.0;
    var d := Deviation(x, avg);
    assert x - avg == d * avg;
    assert c * x - c * avg == d * (c * avg);
  }

  lemma NotPositive(c: real, avg: real)
    requires c > 0.0 && avg <= 0.0
    ensures Scaled(c, avg) <= 0.0
  {
    ScaledOrder(c, avg, 0.0);
  }

  lemma TermInUnit(v: Version, c: real, x: real, avg: real, banded: bool)
    requires c > 0.0
    ensures Term(v, Scaled(c, x), Scaled(c, avg), banded) == Term(v, x, avg, banded)
  {
    hide Deviation, Fourth, Abs, Scaled;
    if avg > 0.0 { DeviationInUnit(c, x, avg); } else { NotPositive(c, avg); }
  }

  lemma {:induction false} GradeInUnit(v: Version, s: seq<Opr>, o: Opr, k: nat, c: real, banded: bool, n: nat)
    requires c > 0.0
    ensures GradeUpTo(v, Map(s, InUnit(k, c)), InUnit(k, c)(o), banded, n) == GradeUpTo(v, s, o, banded, n)
  {
    hide Term, AverageAt, InUnit, Price, Scaled;
    if n > 0 {
      GradeInUnit(v, s, o, k, c, banded, n - 1);
      AverageInUnit(v, s, k, c, n - 1);
      PriceInUnit(k, c, o, n - 1);
      TermInUnit(v, c, Price(o, n - 1), AverageAt(v, s, n - 1), banded);
    }
  }

  /** No score changes when the prices of one asset are given in another unit. */
  lemma ScoreInUnit(v: Version, s: seq<Opr>, o: Opr, k: nat, c: real, banded: bool)
    requires c > 0.0
    ensures ScoreOf(v)(Map(s, InUnit(k, c)), InUnit(k, c)(o), banded) == ScoreOf(v)(s, o, banded)
  {
    PriceInUnit(k, c, o, 0);
    GradeInUnit(v, s, o, k, c, banded, |o.assets|);
  }

  lemma PassInUnit(v: Version, s: seq<Opr>, k: nat, c: real, banded: bool)
    requires c > 0.0
    ensures Pass(ScoreOf(v), Map(s, InUnit(k, c)), banded) == Map(Pass(ScoreOf(v), s, banded), InUnit(k, c))
  {
    hide ScoreOf, Sort;
    var f, graded := InUnit(k, c), Regrade(ScoreOf(v), s, banded);
    forall i | 0 <= i < |s|
      ensures Regrade(ScoreOf(v), Map(s, f), banded)[i] == f(graded[i])
    {
      ScoreInUnit(v, s, s[i], k, c, banded);
    }
    assert Regrade(ScoreOf(v), Map(s, f), banded) == Map(graded, f);
    MapSort(graded, ByDifficulty, f, ByDifficulty);
    MapSort(Sort(graded, ByDifficulty), ByGrade, f, ByGrade);
  }

  /** So the whole elimination goes the same way, grade for grade, whatever unit an asset is priced in. */
  lemma {:induction false} OrderInUnit(v: Version, s: seq<Opr>, n: nat, stop: nat, k: nat, c: real)
    requires c > 0.0 && 1 <= stop && n <= |s|
    ensures After(ScoreOf(v), Map(s, InUnit(k, c)), n, stop) == Map(After(ScoreOf(v), s, n, stop), InUnit(k, c))
    decreases n + 1 - stop
  {
    hide ScoreOf, Pass, InUnit;
    if stop <= n {
      OrderInUnit(v, s, n, stop + 1, k, c);
      var t, f := After(ScoreOf(v), s, n, stop + 1), InUnit(k, c);
      PassInUnit(v, t[..stop], k, c, stop >= 25);
      assert Map(t, f)[..stop] == Map(t[..stop], f) && Map(t, f)[stop..] == Map(t[stop..], f);
    }
  }

  // ---------- what a price costs ----------

  lemma DeviationOf(x: real, avg: real)
    requires avg > 0.0
    ensures Deviation((1.0 + x) * avg, avg) == x
  {
    assert (1.0 + x) * avg - avg == x * avg;
    Cancelled(x, avg);
  }

  lemma Cancelled(x: real, d: real)
    requires d > 0.0
    ensures x * d / d == x
  {
  }

  lemma FourthOfAbs(x: real)
    ensures Fourth(Abs(x)) == Fourth(x)
  {
    if x < 0.0 {
      FourthIsSquareSquared(x);
      FourthIsSquareSquared(-x);
      assert (-x) * (-x) == x * x;
    }
  }

  lemma ProductPositive(a: real, b: real, c: real)
    requires a > 0.0 && b > 0.0 && c == a * b
    ensures c > 0.0
  {
  }

  lemma SquarePositive(x: real, y: real)
    requires x != 0.0 && y == x * x
    ensures y > 0.0
  {
    if x > 0.0 {
      ProductPositive(x, x, y);
    } else {
      var z := -x;
      assert z * z == x * x;
      ProductPositive(z, z, y);
    }
  }

  lemma FourthIsSquare(x: real, y: real)
    requires y == x * x
    ensures Fourth(x) == y * y
  {
  }

  lemma FourthZero(x: real)
    ensures Fourth(x) >= 0.0 && (Fourth(x) == 0.0 <==> x == 0.0)
  {
    hide Fourth;
    if x == 0.0 {
      FourthIsSquare(0.0, 0.0);
    } else {
      var y := x * x;
      FourthIsSquare(x, y);
      SquarePositive(x, y);
      SquarePositive(y, y * y);
    }
  }

  /**
    A price that is x off the average, in proportion, costs the fourth power of x in V1 and wherever
    there is no band; with the band the first hundredth is free and the rest counts alike.
   */
  lemma CostOf(v: Version, x: real, avg: real, banded: bool)
    requires avg > 0.0
    ensures v == V1 || !banded ==> Term(v, (1.0 + x) * avg, avg, banded) == x * x * x * x
    ensures v != V1 && banded ==>
      var e := (if x < 0.0 then -x else x) - 0.01;
      Term(v, (1.0 + x) * avg, avg, banded) == if e <= 0.0 then 0.0 else e * e * e * e
  {
    hide Deviation;
    DeviationOf(x, avg);
    FourthOfAbs(x);
  }

  lemma Inside(price: real, avg: real)
    requires avg > 0.0
    ensures -0.01 <= Deviation(price, avg) <= 0.01 <==> 0.99 * avg <= price <= 1.01 * avg
  {
    var d := Deviation(price, avg);
    assert price - avg == d * avg;
    if d <= 0.01 { assert (0.01 - d) * avg >= 0.0; } else { assert (d - 0.01) * avg > 0.0; }
    if d >= -0.01 { assert (d + 0.01) * avg >= 0.0; } else { assert (-0.01 - d) * avg > 0.0; }
  }

  /** With the band exactly the prices within a hundredth of the average are free. */
  lemma FreeIff(v: Version, price: real, avg: real)
    requires avg > 0.0 && v != V1
    ensures Term(v, price, avg, true) == 0.0 <==> 0.99 * avg <= price <= 1.01 * avg
  {
    hide Deviation, Fourth;
    Inside(price, avg);
    FourthZero(Abs(Deviation(price, avg)) - 0.01);
    FourthZero(0.0);
  }

  lemma FreeTerm(v: Version, price: real, avg: real, banded: bool)
    ensures Term(v, price, avg, banded) >= 0.0
    ensures avg <= 0.0 || price == avg ==> Term(v, price, avg, banded) == 0.0
  {
    hide Fourth;
    if avg > 0.0 {
      var d := Deviation(price, avg);
      FourthZero(d);
      FourthZero(Abs(d) - Band(banded));
      FourthZero(0.0);
      if price == avg { assert d == 0.0; }
    }
  }

  /** Prices at the average cost nothing, and neither do assets without a positive one. */
  lemma {:induction false} FreeUpTo(v: Version, s: seq<Opr>, o: Opr, banded: bool, n: nat)
    requires forall i | 0 <= i < n && AverageAt(v, s, i) > 0.0 :: Price(o, i) == AverageAt(v, s, i)
    ensures GradeUpTo(v, s, o, banded, n) == 0.0
  {
    hide AverageAt, Price, Term;
    if n > 0 {
      FreeUpTo(v, s, o, banded, n - 1);
      FreeTerm(v, Price(o, n - 1), AverageAt(v, s, n - 1), banded);
    }
  }

  lemma {:induction false} OneOffUpTo(v: Version, s: seq<Opr>, o: Opr, banded: bool, k: nat, n: nat)
    requires k < n
    requires forall i | 0 <= i < n && i != k && AverageAt(v, s, i) > 0.0 :: Price(o, i) == AverageAt(v, s, i)
    ensures GradeUpTo(v, s, o, banded, n) == Term(v, Price(o, k), AverageAt(v, s, k), banded)
  {
    hide AverageAt, Price, Term;
    if k == n - 1 {
      FreeUpTo(v, s, o, banded, k);
    } else {
      OneOffUpTo(v, s, o, banded, k, n - 1);
      FreeTerm(v, Price(o, n - 1), AverageAt(v, s, n - 1), banded);
    }
  }

  /** A record that is x off the average of one asset, whichever, and at the average of all others. */
  lemma OneOff(v: Version, s: seq<Opr>, o: Opr, banded: bool, k: nat, x: real)
    requires k < |o.assets| && AverageAt(v, s, k) > 0.0 && o.assets[k] == (1.0 + x) * AverageAt(v, s, k)
    requires forall i | 0 <= i < |o.assets| && i != k && AverageAt(v, s, i) > 0.0 :: o.assets[i] == AverageAt(v, s, i)
    ensures v == V1 || !banded ==> ScoreOf(v)(s, o, banded) == x * x * x * x
    ensures v != V1 && banded ==>
      var e := (if x < 0.0 then -x else x) - 0.01;
      ScoreOf(v)(s, o, banded) == if e <= 0.0 then 0.0 else e * e * e * e
  {
    hide AverageAt, Term;
    var avg := AverageAt(v, s, k);
    OneOffUpTo(v, s, o, banded, k, |o.assets|);
    CostOf(v, x, avg, banded);
    assert ScoreOf(v)(s, o, banded) == GradeUpTo(v, s, o, banded, |o.assets|);
    assert Price(o, k) == o.assets[k] == (1.0 + x) * avg;
    assert GradeUpTo(v, s, o, banded, |o.assets|) == Term(v, Price(o, k), avg, banded);
  }

  lemma {:induction false} FreeUpToIff(v: Version, s: seq<Opr>, o: Opr, n: nat)
    requires v != V1
    ensures GradeUpTo(v, s, o, true, n) >= 0.0
    ensures GradeUpTo(v, s, o, true, n) == 0.0 <==>
      forall i | 0 <= i < n && AverageAt(v, s, i) > 0.0 ::
        0.99 * AverageAt(v, s, i) <= Price(o, i) <= 1.01 * AverageAt(v, s, i)
  {
    hide AverageAt, Price, Term;
    if n > 0 {
      FreeUpToIff(v, s, o, n - 1);
      var price, avg := Price(o, n - 1), AverageAt(v, s, n - 1);
      FreeTerm(v, price, avg, true);
      if avg > 0.0 { FreeIff(v, price, avg); }
    }
  }

  /** With the band the best possible score is zero, and it is had exactly with all prices within a hundredth. */
  lemma PerfectIff(v: Version, s: seq<Opr>, o: Opr)
    requires v != V1
    ensures ScoreOf(v)(s, o, true) >= 0.0
    ensures ScoreOf(v)(s, o, true) == 0.0 <==>
      forall i | 0 <= i < |o.assets| && AverageAt(v, s, i) > 0.0 ::
        0.99 * AverageAt(v, s, i) <= o.assets[i] <= 1.01 * AverageAt(v, s, i)
  {
    hide AverageAt;
    FreeUpToIff(v, s, o, |o.assets|);
  }

  // ---------- what an average is ----------

  lemma {:induction false} SumReplaced(s: seq<real>, j: nat, x: real)
    requires j < |s|
    ensures Sum(s[j := x]) == Sum(s) + x - s[j]
  {
    var n := |s| - 1;
    if j < n {
      SumReplaced(s[..n], j, x);
      assert s[j := x][..n] == s[..n][j := x];
    } else {
      assert s[j := x][..n] == s[..n];
    }
  }

  lemma SameDivisor(a: real, b: real, n: real)
    requires n > 0.0
    ensures a / n - b / n == (a - b) / n
  {
  }

  /** The mean of equal prices is that price, and one record moves it by its share of the change. */
  lemma MeanMoves(s: seq<Opr>, i: nat, j: nat, o: Opr)
    requires j < |s|
    ensures MeanAt(s[j := o], i) - MeanAt(s, i) == (Abs(Price(o, i)) - Abs(Price(s[j], i))) / |s| as real
    ensures (forall k | 0 <= k < |s| :: Abs(Price(s[k], i)) == Abs(Price(o, i))) ==> MeanAt(s, i) == Abs(Price(o, i))
  {
    hide Price, Sum;
    var a, t, n := AbsColumn(s, i), s[j := o], |s| as real;
    assert AbsColumn(t, i) == a[j := Abs(Price(o, i))];
    SumReplaced(a, j, Abs(Price(o, i)));
    SameDivisor(Sum(AbsColumn(t, i)), Sum(a), n);
    if forall k | 0 <= k < |s| :: Abs(Price(s[k], i)) == Abs(Price(o, i)) {
      SumBounds(a, Abs(Price(o, i)), Abs(Price(o, i)));
      QuotientBounds(Sum(a), |s|, Abs(Price(o, i)), Abs(Price(o, i)));
    }
  }

  lemma SortedStays(s: seq<real>)
    requires Sorted(s, Self)
    ensures Sort(s, Self) == s
  {
    StableUnique(s, s, Self);
  }

  /**
    Of more than three prices in order, each that is not trimmed moves the trimmed mean by its share of
    the change, and the trimmed ones do not move it at all.
   */
  lemma TrimmedMoves(data: seq<real>, p: nat, j: nat, x: real)
    requires |data| > 3 && 2 * p < |data| && j < |data| && Sorted(data, Self) && Sorted(data[j := x], Self)
    ensures TrimmedMean(data[j := x], p) - TrimmedMean(data, p)
      == if p <= j < |data| - p then (x - data[j]) / (|data| - 2 * p) as real else 0.0
  {
    hide Sum, Sort, Sorted;
    var t, m := data[j := x], |data| - p;
    SortedStays(data);
    SortedStays(t);
    if p <= j < m {
      assert t[p..m] == data[p..m][j - p := x];
      SumReplaced(data[p..m], j - p, x);
      SameDivisor(Sum(t[p..m]), Sum(data[p..m]), (|data| - 2 * p) as real);
    } else {
      assert t[p..m] == data[p..m];
    }
  }
}
