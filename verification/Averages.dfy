/**
  The averages and grades of the versions, in exact arithmetic (modules/grader/v1_util.go,
  v2_util.go, v5_util.go and the older opr/grading.go).
 */
module Averages {
  import opened Common
  import opened Sequences
  import opened StableSort
  import opened Grading
  import opened Ranking

  /** The i-th price of a record; validated records list a price for every asset of the version. */
  function Price(o: Opr, i: nat): real {
    if i < |o.assets| then o.assets[i] else 0.0
  }

  function Abs(x: real): real {
    if x >= 0.0 then x else -x
  }

  function Sum(s: seq<real>): real {
    if s == [] then 0.0 else Sum(s[..|s| - 1]) + s[|s| - 1]
  }

  function Column(s: seq<Opr>, i: nat): (c: seq<real>)
    ensures |c| == |s|
  {
    Map(s, (o: Opr) => Price(o, i))
  }

  function AbsColumn(s: seq<Opr>, i: nat): (c: seq<real>)
    ensures |c| == |s|
  {
    Map(s, (o: Opr) => Abs(Price(o, i)))
  }

  /** Versions 1 to 4: the mean of the absolute values. */
  function MeanAt(s: seq<Opr>, i: nat): real {
    if s == [] then 0.0 else Sum(AbsColumn(s, i)) / |s| as real
  }

  function Self(x: real): real {
    x
  }

  /** The mean without the p lowest and the p highest values; the middle one for three or fewer. */
  function TrimmedMean(data: seq<real>, p: nat): real
    requires data != [] && (|data| > 3 ==> 2 * p < |data|)
  {
    var sorted := Sort(data, Self);
    SortContents(data, Self);
    if |data| <= 3 then sorted[|data| / 2]
    else Sum(sorted[p..|data| - p]) / (|data| - 2 * p) as real
  }

  /** int(float64(n) * 0.1) + 1 */
  function TrimCount(n: nat): nat {
    n / 10 + 1
  }

  /** Version 5: a tenth of the records, rounded down, and one more are trimmed on each side. */
  function TrimmedAt(s: seq<Opr>, i: nat): real {
    if s == [] then 0.0 else TrimmedMean(Column(s, i), TrimCount(|s|))
  }

  // ---------- grades ----------

  function Fourth(d: real): real {
    d * d * d * d
  }

  /** The difference from the average, relative to it. */
  function Deviation(v: real, avg: real): real
    requires avg > 0.0
  {
    (v - avg) / avg
  }

  function TermV1(v: real, avg: real): real {
    if avg > 0.0 then Fourth(Deviation(v, avg)) else 0.0
  }

  function TermV2(v: real, avg: real, band: real): real {
    if avg > 0.0 then
      var d := Abs(Deviation(v, avg));
      Fourth(if d <= band then 0.0 else d - band)
    else 0.0
  }

  function ApplyBand(diff: real, band: real): real {
    if Abs(diff) <= band then 0.0 else Abs(diff) - band
  }

  /** The older code applies the band only when there is one, and keeps the sign otherwise. */
  function TermLegacy(v: real, avg: real, band: real): real {
    if avg > 0.0 then
      var d := Deviation(v, avg);
      Fourth(if band > 0.0 then ApplyBand(d, band) else d)
    else 0.0
  }

  const BAND: real := 0.01

  function Band(banded: bool): real {
    if banded then BAND else 0.0
  }

  datatype Version = V1 | V2 | V5

  function AverageAt(v: Version, s: seq<Opr>, i: nat): real {
    if v == V5 then TrimmedAt(s, i) else MeanAt(s, i)
  }

  function Term(v: Version, price: real, avg: real, banded: bool): real {
    if v == V1 then TermV1(price, avg) else TermV2(price, avg, Band(banded))
  }

  /** The sum over the first k assets. */
  function GradeUpTo(v: Version, s: seq<Opr>, o: Opr, banded: bool, k: nat): real {
    if k == 0 then 0.0
    else GradeUpTo(v, s, o, banded, k - 1) + Term(v, Price(o, k - 1), AverageAt(v, s, k - 1), banded)
  }

  function ScoreOf(v: Version): Score {
    (s: seq<Opr>, o: Opr, banded: bool) => GradeUpTo(v, s, o, banded, |o.assets|)
  }

  function LegacyUpTo(v: Version, s: seq<Opr>, o: Opr, banded: bool, k: nat): real {
    if k == 0 then 0.0
    else
      var term := TermLegacy(Price(o, k - 1), AverageAt(v, s, k - 1), Band(banded && v != V1));
      LegacyUpTo(v, s, o, banded, k - 1) + term
  }

  function LegacyScoreOf(v: Version): Score {
    (s: seq<Opr>, o: Opr, banded: bool) => LegacyUpTo(v, s, o, banded, |o.assets|)
  }

  /** The two ways of writing a term agree: the fourth power does not see a sign. */
  lemma TermsAgree(v: Version, price: real, avg: real, banded: bool)
    ensures TermLegacy(price, avg, Band(banded && v != V1)) == Term(v, price, avg, banded)
  {
    if avg > 0.0 {
      var d := Deviation(price, avg);
      assert Fourth(-d) == Fourth(d) by { assert (-d) * (-d) == d * d; FourthIsSquareSquared(d); FourthIsSquareSquared(-d); }
      assert Abs(d) <= 0.0 ==> d == 0.0;
    }
  }

  lemma FourthIsSquareSquared(d: real)
    ensures Fourth(d) == (d * d) * (d * d)
  {
  }

  lemma {:induction false} ScoresAgree(v: Version, s: seq<Opr>, o: Opr, banded: bool, k: nat)
    ensures LegacyUpTo(v, s, o, banded, k) == GradeUpTo(v, s, o, banded, k)
  {
    if k > 0 {
      ScoresAgree(v, s, o, banded, k - 1);
      TermsAgree(v, Price(o, k - 1), AverageAt(v, s, k - 1), banded);
    }
  }

  // ---------- symmetry ----------

  lemma {:induction false} SumConcat(a: seq<real>, b: seq<real>)
    ensures Sum(a + b) == Sum(a) + Sum(b)
  {
    if b == [] {
      assert a + b == a;
    } else {
      assert (a + b)[..|a + b| - 1] == a + b[..|b| - 1];
      SumConcat(a, b[..|b| - 1]);
    }
  }

  lemma {:induction false} SumContents(a: seq<real>, b: seq<real>)
    requires multiset(a) == multiset(b)
    ensures Sum(a) == Sum(b)
  {
    if a == [] {
      assert |multiset(b)| == 0;
    } else {
      var i := FindFirst(a, b);
      SumContents(a[1..], Without(b, i));
      assert a == [a[0]] + a[1..] && b == b[..i] + ([b[i]] + b[i + 1..]);
      SumConcat([a[0]], a[1..]);
      SumConcat(b[..i], [b[i]] + b[i + 1..]);
      SumConcat([b[i]], b[i + 1..]);
      SumConcat(b[..i], b[i + 1..]);
    }
  }

  lemma ColumnsContents(a: seq<Opr>, b: seq<Opr>, i: nat)
    requires SameField(a, b)
    ensures multiset(Column(a, i)) == multiset(Column(b, i))
    ensures multiset(AbsColumn(a, i)) == multiset(AbsColumn(b, i))
  {
    var price, abs := (o: Opr) => Price(o, i), (o: Opr) => Abs(Price(o, i));
    MapContents(Bares(a), Bares(b), price);
    MapContents(Bares(a), Bares(b), abs);
    assert Map(Bares(a), price) == Column(a, i) && Map(Bares(b), price) == Column(b, i);
    assert Map(Bares(a), abs) == AbsColumn(a, i) && Map(Bares(b), abs) == AbsColumn(b, i);
  }

  lemma AverageSymmetric(v: Version, a: seq<Opr>, b: seq<Opr>, i: nat)
    requires SameField(a, b)
    ensures AverageAt(v, a, i) == AverageAt(v, b, i)
  {
    hide SameField, Column, AbsColumn, Sum, Sort;
    ColumnsContents(a, b, i);
    SameFieldLength(a, b);
    SumContents(AbsColumn(a, i), AbsColumn(b, i));
    SortOfPermutation(Column(a, i), Column(b, i), Self);
  }

  lemma {:induction false} GradeSymmetric(v: Version, a: seq<Opr>, b: seq<Opr>, x: Opr, y: Opr, banded: bool, k: nat)
    requires SameField(a, b) && x.assets == y.assets
    ensures GradeUpTo(v, a, x, banded, k) == GradeUpTo(v, b, y, banded, k)
  {
    hide AverageAt, Term, SameField;
    if k > 0 {
      GradeSymmetric(v, a, b, x, y, banded, k - 1);
      AverageSymmetric(v, a, b, k - 1);
    }
  }

  /** So the ranking theorem applies to every version. */
  lemma VersionsSymmetric(v: Version)
    ensures Symmetric(ScoreOf(v))
  {
    hide SameField;
    forall a, b, x, y, banded | SameField(a, b) && Bare(x) == Bare(y)
      ensures ScoreOf(v)(a, x, banded) == ScoreOf(v)(b, y, banded)
    {
      assert Bare(x).assets == Bare(y).assets;
      GradeSymmetric(v, a, b, x, y, banded, |x.assets|);
    }
  }

  /**
    In exact arithmetic every version's final order is a ranking of its records, and where no two
    different records report the same work it does not depend on their order before.
   */
  lemma VersionRanking(v: Version, s: seq<Opr>, t: seq<Opr>, stop: nat)
    requires 1 <= stop <= |s| && SameField(s, t)
    ensures |s| == |t| && IsRanking(ScoreOf(v), After(ScoreOf(v), s, |s|, stop), stop)
    ensures TiesAlike(s) ==>
      Bares(After(ScoreOf(v), s, |s|, stop)) == Bares(After(ScoreOf(v), t, |t|, stop))
  {
    hide SameField, ScoreOf, TiesAlike, After, IsRanking, Symmetric;
    var score := ScoreOf(v);
    VersionsSymmetric(v);
    SameFieldLength(s, t);
    EliminationRanks(score, s, stop);
    EliminationRanks(score, t, stop);
    var r, q := After(score, s, |s|, stop), After(score, t, |t|, stop);
    EliminationPermutes(score, s, |s|, stop);
    EliminationPermutes(score, t, |t|, stop);
    SameFieldSymmetric(q, t);
    SameFieldTransitive(r, s, t);
    SameFieldTransitive(r, t, q);
    if TiesAlike(s) {
      TiesAlikeMoves(r, s);
      RankingUnique(score, r, q, stop);
    }
  }

  // ---------- robustness of the trimmed mean ----------

  function Above(data: seq<real>, hi: real): seq<real> {
    Filter(data, x => x > hi)
  }

  function Below(data: seq<real>, lo: real): seq<real> {
    Filter(data, x => x < lo)
  }

  /** The number of trimmed values never reaches the number of values. */
  lemma DivisorPositive(n: nat)
    requires n >= 4
    ensures n - 2 * TrimCount(n) > 0
  {
  }

  lemma {:induction false} AllKept(s: seq<real>, p: real -> bool)
    requires forall i | 0 <= i < |s| :: p(s[i])
    ensures Filter(s, p) == s
  {
    if s != [] {
      AllKept(s[1..], p);
    }
  }

  /** Where at most p values are below lo, the value at index p of the sorted list is not. */
  lemma NotBelow(s: seq<real>, p: nat, lo: real)
    requires Sorted(s, Self) && |Below(s, lo)| <= p < |s|
    ensures s[p] >= lo
  {
    if s[p] < lo {
      var f := (x: real) => x < lo;
      assert s == s[..p + 1] + s[p + 1..];
      FilterConcat(s[..p + 1], s[p + 1..], f);
      AllKept(s[..p + 1], f);
      assert false;
    }
  }

  lemma NotAbove(s: seq<real>, p: nat, hi: real)
    requires Sorted(s, Self) && |Above(s, hi)| <= p < |s|
    ensures s[|s| - 1 - p] <= hi
  {
    var k := |s| - 1 - p;
    if s[k] > hi {
      var f := (x: real) => x > hi;
      assert s == s[..k] + s[k..];
      FilterConcat(s[..k], s[k..], f);
      AllKept(s[k..], f);
      assert false;
    }
  }

  lemma {:induction false} SumBounds(s: seq<real>, lo: real, hi: real)
    requires forall i | 0 <= i < |s| :: lo <= s[i] <= hi
    ensures |s| as real * lo <= Sum(s) <= |s| as real * hi
  {
    if s != [] {
      SumBounds(s[..|s| - 1], lo, hi);
    }
  }

  lemma QuotientBounds(sum: real, n: nat, lo: real, hi: real)
    requires n > 0 && n as real * lo <= sum <= n as real * hi
    ensures lo <= sum / n as real <= hi
  {
    var q := sum / n as real;
    assert q * n as real == sum;
  }

  /**
    As many misreported prices as are trimmed cannot move the average out of the range of the honest
    ones: with at most p values above hi and at most p below lo the average is in [lo, hi].
   */
  lemma TrimmedRobust(data: seq<real>, lo: real, hi: real)
    requires |data| >= 3
    requires |Above(data, hi)| <= |data| / 10 + 1 && |Below(data, lo)| <= |data| / 10 + 1
    ensures |data| > 3 ==> 2 * TrimCount(|data|) < |data|
    ensures lo <= TrimmedMean(data, TrimCount(|data|)) <= hi
  {
    hide Sum, Sort, Above, Below, Sorted;
    var n, p, s := |data|, TrimCount(|data|), Sort(data, Self);
    Middle(data, p, lo, hi);
    if n > 3 {
      SortContents(data, Self);
      KeptBounds(s, p, lo, hi);
      QuotientBounds(Sum(s[p..n - p]), n - 2 * p, lo, hi);
    }
  }

  lemma Middle(data: seq<real>, p: nat, lo: real, hi: real)
    requires p < |data| && |Above(data, hi)| <= p && |Below(data, lo)| <= p
    ensures var s := Sort(data, Self); |s| == |data| && Sorted(s, Self) && lo <= s[p] && s[|s| - 1 - p] <= hi
  {
    hide Above, Below, Sorted, Sort;
    var s := Sort(data, Self);
    SortSorted(data, Self);
    SortContents(data, Self);
    OutlierCounts(data, s, lo, hi);
    NotBelow(s, p, lo);
    NotAbove(s, p, hi);
  }

  lemma OutlierCounts(a: seq<real>, b: seq<real>, lo: real, hi: real)
    requires multiset(a) == multiset(b)
    ensures |Above(a, hi)| == |Above(b, hi)| && |Below(a, lo)| == |Below(b, lo)|
  {
    FilterContents(a, b, x => x > hi);
    FilterContents(a, b, x => x < lo);
    SameSize(Above(a, hi), Above(b, hi));
    SameSize(Below(a, lo), Below(b, lo));
  }

  lemma KeptBounds(s: seq<real>, p: nat, lo: real, hi: real)
    requires Sorted(s, Self) && 2 * p < |s| && lo <= s[p] && s[|s| - 1 - p] <= hi
    ensures (|s| - 2 * p) as real * lo <= Sum(s[p..|s| - p]) <= (|s| - 2 * p) as real * hi
  {
    var kept := s[p..|s| - p];
    forall i | 0 <= i < |kept|
      ensures lo <= kept[i] <= hi
    {
      assert i > 0 ==> Self(s[p]) <= Self(s[p + i]);
      assert p + i < |s| - 1 - p ==> Self(s[p + i]) <= Self(s[|s| - 1 - p]);
    }
    SumBounds(kept, lo, hi);
  }

  // ---------- the loops ----------

  /** Every record lists the same number of prices. */
  ghost predicate Validated(s: seq<Opr>, width: nat) {
    forall o <- s :: |o.assets| == width
  }

  /** averageV1: sums column by column while walking over the records, then divides. */
  method AverageV1(oprs: seq<Opr>) returns (avg: seq<real>)
    requires oprs != [] && Validated(oprs, |oprs[0].assets|)
    ensures |avg| == |oprs[0].assets| && forall i | 0 <= i < |avg| :: avg[i] == MeanAt(oprs, i)
  {
    var width := |oprs[0].assets|;
    avg := seq(width, _ => 0.0);
    for n := 0 to |oprs|
      invariant |avg| == width && forall i | 0 <= i < width :: avg[i] == Sum(AbsColumn(oprs[..n], i))
    {
      ghost var before := avg;
      assert oprs[n] in oprs;
      for i := 0 to width
        invariant |avg| == width
        invariant forall j | 0 <= j < i :: avg[j] == before[j] + Abs(Price(oprs[n], j))
        invariant forall j | i <= j < width :: avg[j] == before[j]
      {
        var value := oprs[n].assets[i];
        avg := avg[i := if value >= 0.0 then avg[i] + value else avg[i] - value];
      }
      forall i | 0 <= i < width
        ensures avg[i] == Sum(AbsColumn(oprs[..n + 1], i))
      {
        assert AbsColumn(oprs[..n + 1], i)[..n] == AbsColumn(oprs[..n], i);
      }
    }
    assert oprs[..|oprs|] == oprs;
    var total := |oprs| as real;
    for i := 0 to width
      invariant |avg| == width
      invariant forall j | 0 <= j < i :: avg[j] == MeanAt(oprs, j)
      invariant forall j | i <= j < width :: avg[j] == Sum(AbsColumn(oprs, j))
    {
      avg := avg[i := avg[i] / total];
    }
  }

  method TrimmedMeanFloat(data: seq<real>, p: nat) returns (mean: real)
    requires data != [] && (|data| > 3 ==> 2 * p < |data|)
    ensures mean == TrimmedMean(data, p)
  {
    var sorted := Sort(data, Self);
    SortContents(data, Self);
    var length := |data|;
    if length <= 3 {
      return sorted[length / 2];
    }
    var sum := 0.0;
    for i := p to length - p
      invariant sum == Sum(sorted[p..i])
    {
      assert sorted[p..i + 1][..i - p] == sorted[p..i];
      sum := sum + sorted[i];
    }
    return sum / (length - 2 * p) as real;
  }

  /** averageV5: collects the columns, then takes the trimmed mean of each. */
  method AverageV5(oprs: seq<Opr>) returns (avg: seq<real>)
    requires oprs != [] && Validated(oprs, |oprs[0].assets|)
    ensures |avg| == |oprs[0].assets| && forall i | 0 <= i < |avg| :: avg[i] == TrimmedAt(oprs, i)
  {
    var width := |oprs[0].assets|;
    var data: seq<seq<real>> := seq(width, _ => []);
    for n := 0 to |oprs|
      invariant |data| == width && forall i | 0 <= i < width :: data[i] == Column(oprs[..n], i)
    {
      ghost var before := data;
      assert oprs[n] in oprs;
      for i := 0 to width
        invariant |data| == width
        invariant forall j | 0 <= j < i :: data[j] == before[j] + [Price(oprs[n], j)]
        invariant forall j | i <= j < width :: data[j] == before[j]
      {
        data := data[i := data[i] + [oprs[n].assets[i]]];
      }
      forall i | 0 <= i < width
        ensures data[i] == Column(oprs[..n + 1], i)
      {
        assert data[i] == Column(oprs[..n], i) + [Price(oprs[n], i)];
      }
    }
    assert oprs[..|oprs|] == oprs;
    avg := [];
    for i := 0 to width
      invariant |avg| == i && forall j | 0 <= j < i :: avg[j] == TrimmedAt(oprs, j)
    {
      var mean := TrimmedMeanFloat(data[i], TrimCount(|data[i]|));
      avg := avg + [mean];
    }
  }

  method Average(v: Version, oprs: seq<Opr>) returns (avg: seq<real>)
    requires oprs != [] && Validated(oprs, |oprs[0].assets|)
    ensures |avg| == |oprs[0].assets| && forall i | 0 <= i < |avg| :: avg[i] == AverageAt(v, oprs, i)
  {
    if v == V5 {
      avg := AverageV5(oprs);
    } else {
      avg := AverageV1(oprs);
    }
  }

  /** gradeV1 and gradeV2/gradeV5: the grade of one record against the averages. */
  method GradeRecord(v: Version, ghost s: seq<Opr>, avg: seq<real>, o: Opr, banded: bool) returns (graded: Opr)
    requires |avg| == |o.assets| && forall i | 0 <= i < |avg| :: avg[i] == AverageAt(v, s, i)
    ensures graded == o.(grade := ScoreOf(v)(s, o, banded))
  {
    hide AverageAt, Fourth, Deviation;
    var grade := 0.0;
    for i := 0 to |o.assets|
      invariant grade == GradeUpTo(v, s, o, banded, i)
    {
      if avg[i] > 0.0 {
        var d := Deviation(o.assets[i], avg[i]);
        if v != V1 {
          d := Abs(d);
          var band := Band(banded);
          d := if d <= band then 0.0 else d - band;
        }
        grade := grade + Fourth(d);
      }
    }
    graded := o.(grade := grade);
  }
}
