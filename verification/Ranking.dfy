/**
  What the final order means without the procedure. In exact arithmetic, where a score does not
  depend on the order of the survivors, elimination yields an order in which no record is better than
  any record above it, judged by the field that was left when it was placed; and where no two different
  records report the same work there is only one such order.
 */
module Ranking {
  import opened Common
  import opened StableSort
  import opened Grading

  /** The score looks at who the survivors are, not at their order or earlier grades. */
  ghost predicate Symmetric(score: Score) {
    forall a, b, x, y, banded | SameField(a, b) && Bare(x) == Bare(y) :: score(a, x, banded) == score(b, y, banded)
  }

  /** A better score against the field, or the same score and at least as much work. */
  predicate NoWorse(score: Score, field: seq<Opr>, x: Opr, y: Opr) {
    var p, q := score(field, x, |field| >= 25), score(field, y, |field| >= 25);
    p < q || (p == q && x.selfReportedDifficulty >= y.selfReportedDifficulty)
  }

  /** The field that judges the first n records: themselves, but never fewer than `stop`. */
  function Judges(r: seq<Opr>, n: nat, stop: nat): seq<Opr>
    requires n <= |r| && stop <= |r|
  {
    if n < stop then r[..stop] else r[..n]
  }

  ghost predicate IsRanking(score: Score, r: seq<Opr>, stop: nat) {
    stop <= |r| && forall n, j | 0 <= j < n - 1 && n <= |r| :: NoWorse(score, Judges(r, n, stop), r[j], r[n - 1])
  }

  /** Records that report the same work are the same record. */
  ghost predicate TiesAlike(s: seq<Opr>) {
    forall i, j | 0 <= i < |s| && 0 <= j < |s| && s[i].selfReportedDifficulty == s[j].selfReportedDifficulty ::
      Bare(s[i]) == Bare(s[j])
  }

  /** A record of one arrangement is found in the other. */
  lemma FindBare(a: seq<Opr>, b: seq<Opr>, i: nat) returns (j: nat)
    requires SameField(a, b) && i < |a|
    ensures j < |b| && Bare(b[j]) == Bare(a[i])
  {
    assert Bares(a)[i] in multiset(Bares(a));
    assert Bares(a)[i] in Bares(b);
    j :| j < |Bares(b)| && Bares(b)[j] == Bares(a)[i];
  }

  /** What a pass computes, seen through a symmetric score. */
  lemma PassNoWorse(score: Score, s: seq<Opr>, i: nat, j: nat)
    requires Symmetric(score) && i <= j < |s|
    ensures var r := Pass(score, s, |s| >= 25); NoWorse(score, r, r[i], r[j])
  {
    if i < j {
      var banded := |s| >= 25;
      var r := Pass(score, s, banded);
      PassResult(score, s, banded);
      PassOrdered(score, s, banded);
      hide Pass, SameField;
      var x := PassMember(score, s, banded, i);
      var y := PassMember(score, s, banded, j);
      assert score(r, r[i], banded) == score(s, x, banded) == r[i].grade;
      assert score(r, r[j], banded) == score(s, y, banded) == r[j].grade;
      assert NoBetter(r[j], r[i]);
    }
  }

  lemma TiesAlikeMoves(r: seq<Opr>, s: seq<Opr>)
    requires SameField(r, s) && TiesAlike(s)
    ensures TiesAlike(r)
  {
    hide SameField;
    forall i, j | 0 <= i < |r| && 0 <= j < |r| && r[i].selfReportedDifficulty == r[j].selfReportedDifficulty
      ensures Bare(r[i]) == Bare(r[j])
    {
      var i' := FindBare(r, s, i);
      var j' := FindBare(r, s, j);
      assert Bare(s[i']).selfReportedDifficulty == Bare(r[i]).selfReportedDifficulty;
      assert Bare(s[j']).selfReportedDifficulty == Bare(r[j]).selfReportedDifficulty;
    }
  }

  lemma NoWorseInField(score: Score, f: seq<Opr>, g: seq<Opr>, x: Opr, y: Opr, x': Opr, y': Opr)
    requires Symmetric(score) && SameField(f, g) && Bare(x) == Bare(x') && Bare(y) == Bare(y')
    requires NoWorse(score, f, x, y)
    ensures NoWorse(score, g, x', y')
  {
    hide SameField;
    var banded := |f| >= 25;
    assert |g| == |f| by { SameFieldLength(f, g); }
    assert score(f, x, banded) == score(g, x', banded) && score(f, y, banded) == score(g, y', banded);
    assert Bare(x).selfReportedDifficulty == Bare(x').selfReportedDifficulty;
    assert Bare(y).selfReportedDifficulty == Bare(y').selfReportedDifficulty;
  }

  lemma SameFieldLength(f: seq<Opr>, g: seq<Opr>)
    requires SameField(f, g)
    ensures |f| == |g|
  {
    assert |multiset(Bares(f))| == |f| && |multiset(Bares(g))| == |g|;
  }

  /** At its own pass the record at index n - 1 is no better than any survivor that stays above it. */
  lemma PlacedLast(score: Score, s: seq<Opr>, stop: nat, n: nat, j: nat)
    requires Symmetric(score) && 1 <= stop <= n <= |s| && j < n - 1
    ensures var r := After(score, s, |s|, stop); NoWorse(score, r[..n], r[j], r[n - 1])
  {
    hide Pass, SameField, After, NoWorse;
    var r, survivors := After(score, s, |s|, stop), Survivors(score, s, |s|, n);
    var graded := Pass(score, survivors, |survivors| >= 25);
    Eliminated(score, s, |s|, n, stop);
    PassResult(score, survivors, |survivors| >= 25);
    SameFieldSymmetric(graded, survivors);
    SameFieldTransitive(r[..n], survivors, graded);
    var i := FindBare(r[..n], graded, j);
    PassNoWorse(score, survivors, i, n - 1);
    SameFieldSymmetric(r[..n], graded);
    NoWorseInField(score, graded, r[..n], graded[i], graded[n - 1], r[j], r[n - 1]);
  }

  lemma SameFieldSymmetric(a: seq<Opr>, b: seq<Opr>)
    requires SameField(a, b)
    ensures SameField(b, a)
  {
  }

  /** Elimination yields a ranking, whatever the records report. */
  lemma EliminationRanks(score: Score, s: seq<Opr>, stop: nat)
    requires Symmetric(score) && 1 <= stop <= |s|
    ensures IsRanking(score, After(score, s, |s|, stop), stop)
  {
    hide NoWorse, After, Symmetric;
    var r := After(score, s, |s|, stop);
    forall n, j | 0 <= j < n - 1 && n <= |r|
      ensures NoWorse(score, Judges(r, n, stop), r[j], r[n - 1])
    {
      if n >= stop {
        PlacedLast(score, s, stop, n, j);
      } else {
        PlacedByLastPass(score, s, stop, j, n - 1);
      }
    }
  }

  lemma PlacedByLastPass(score: Score, s: seq<Opr>, stop: nat, i: nat, j: nat)
    requires Symmetric(score) && 1 <= stop <= |s| && i < j < stop
    ensures var r := After(score, s, |s|, stop); NoWorse(score, r[..stop], r[i], r[j])
  {
    hide NoWorse, Symmetric, Pass;
    var survivors := Survivors(score, s, |s|, stop);
    assert After(score, s, |s|, stop)[..stop] == Pass(score, survivors, stop >= 25);
    PassNoWorse(score, survivors, i, j);
  }

  /** Where ties are alike there is only one ranking: whoever ranks the records otherwise breaks the rule. */
  lemma RankingUnique(score: Score, r: seq<Opr>, q: seq<Opr>, stop: nat)
    requires Symmetric(score) && SameField(r, q) && TiesAlike(r)
    requires IsRanking(score, r, stop) && IsRanking(score, q, stop)
    ensures Bares(r) == Bares(q)
  {
    hide SameField, TiesAlike;
    SameFieldLength(r, q);
    assert r[..|r|] == r && q[..|q|] == q;
    var n := |r|;
    while n > 0
      invariant 0 <= n <= |r| == |q|
      invariant SameField(r[..n], q[..n])
      invariant n < stop ==> SameField(r[..stop], q[..stop])
      invariant forall i | n <= i < |r| :: Bare(r[i]) == Bare(q[i])
    {
      SameLast(score, r, q, stop, n);
      n := n - 1;
    }
  }

  lemma SameLast(score: Score, r: seq<Opr>, q: seq<Opr>, stop: nat, n: nat)
    requires Symmetric(score) && TiesAlike(r) && IsRanking(score, r, stop) && IsRanking(score, q, stop)
    requires 0 < n <= |r| == |q| && SameField(r[..n], q[..n]) && SameField(Judges(r, n, stop), Judges(q, n, stop))
    ensures Bare(r[n - 1]) == Bare(q[n - 1])
    ensures SameField(r[..n - 1], q[..n - 1])
  {
    hide SameField, NoWorse, Symmetric;
    assert Bare(r[n - 1]) == Bare(q[n - 1]) by {
      var j := FindBare(r[..n], q[..n], n - 1);
      SameFieldSymmetric(r[..n], q[..n]);
      var i := FindBare(q[..n], r[..n], n - 1);
      if i < n - 1 && j < n - 1 {
        EqualWork(score, Judges(r, n, stop), Judges(q, n, stop), r[i], r[n - 1], q[j], q[n - 1]);
      }
    }
    SameRest(r[..n], q[..n], n - 1);
    assert r[..n][..n - 1] == r[..n - 1] && q[..n][..n - 1] == q[..n - 1];
  }

  /** If x is no worse than y in one field and y no worse than x in the same field rearranged, their work is equal. */
  lemma EqualWork(score: Score, f: seq<Opr>, g: seq<Opr>, x: Opr, y: Opr, y': Opr, x': Opr)
    requires Symmetric(score) && SameField(f, g) && Bare(x) == Bare(x') && Bare(y) == Bare(y')
    requires NoWorse(score, f, x, y) && NoWorse(score, g, y', x')
    ensures x.selfReportedDifficulty == y.selfReportedDifficulty
  {
    hide SameField;
    NoWorseInField(score, f, g, x, y, x', y');
    assert Bare(x).selfReportedDifficulty == Bare(x').selfReportedDifficulty;
    assert Bare(y).selfReportedDifficulty == Bare(y').selfReportedDifficulty;
  }

  lemma SameRest(r: seq<Opr>, q: seq<Opr>, n: nat)
    requires SameField(r, q) && |r| == |q| == n + 1 && Bare(r[n]) == Bare(q[n])
    ensures SameField(r[..n], q[..n])
  {
    WithoutSame(Bares(r), Bares(q), n, n);
    assert Without(Bares(r), n) == Bares(r[..n]) && Without(Bares(q), n) == Bares(q[..n]);
  }
}
