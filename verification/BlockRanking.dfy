/** What a graded block says about each of its records, and what it has to do with the chain. */
module BlockRanking {
  import opened Common
  import opened StableSort
  import opened Grading
  import opened Ranking
  import opened Averages
  import opened GradedBlock
  import opened LegacyGrading
  import opened Ledger
  import opened Staking

  // ---------- scores read prices only ----------

  ghost predicate SamePrices(s: seq<Opr>, t: seq<Opr>) {
    |s| == |t| && forall i | 0 <= i < |s| :: s[i].assets == t[i].assets
  }

  lemma {:induction false} GradeReadsPrices(v: Version, s: seq<Opr>, t: seq<Opr>, o: Opr, o': Opr, banded: bool, k: nat)
    requires SamePrices(s, t) && o.assets == o'.assets
    ensures GradeUpTo(v, s, o, banded, k) == GradeUpTo(v, t, o', banded, k)
  {
    hide Term, AverageAt;
    if k > 0 {
      GradeReadsPrices(v, s, t, o, o', banded, k - 1);
      AverageReadsPrices(v, s, t, k - 1);
    }
  }

  lemma AverageReadsPrices(v: Version, s: seq<Opr>, t: seq<Opr>, i: nat)
    requires SamePrices(s, t)
    ensures AverageAt(v, s, i) == AverageAt(v, t, i)
  {
    assert Column(s, i) == Column(t, i) && AbsColumn(s, i) == AbsColumn(t, i);
  }

  lemma ScoreReadsPrices(v: Version, s: seq<Opr>, t: seq<Opr>, o: Opr, o': Opr, banded: bool)
    requires SamePrices(s, t) && o.assets == o'.assets
    ensures ScoreOf(v)(s, o, banded) == ScoreOf(v)(t, o', banded)
  {
    GradeReadsPrices(v, s, t, o, o', banded, |o.assets|);
  }

  // ---------- the graded block ----------

  /** The records that the n-th was graded against: the first n, in V1 never fewer than 10. */
  function FieldOf(v: Version, r: seq<Opr>, n: nat): seq<Opr>
    requires n <= |r| && |r| >= 10
  {
    if v == V1 && n < 10 then r[..10] else r[..n]
  }

  /** Record n - 1 is no better than record j, by score against that field and then by work. */
  ghost predicate Outranks(v: Version, r: seq<Opr>, j: nat, n: nat)
    requires j < n <= |r| && |r| >= 10
  {
    var field := FieldOf(v, r, n);
    var p, q := ScoreOf(v)(field, r[j], |field| >= 25), ScoreOf(v)(field, r[n - 1], |field| >= 25);
    p < q || (p == q && r[j].selfReportedDifficulty >= r[n - 1].selfReportedDifficulty)
  }

  /** The grade a pass leaves is the score against the field of that pass. */
  lemma GradeKept(v: Version, s: seq<Opr>, n: nat)
    requires Stop(v) <= |s| && 1 <= n <= |s|
    ensures var r, stop := After(ScoreOf(v), s, |s|, Stop(v)), Stop(v);
      var field := Judges(r, n, stop);
      r[n - 1].grade == ScoreOf(v)(field, r[n - 1], |field| >= 25)
  {
    hide ScoreOf, After, Pass, SameField, Symmetric;
    var score, stop := ScoreOf(v), Stop(v);
    VersionsSymmetric(v);
    var r := After(score, s, |s|, stop);
    if n >= stop {
      Eliminated(score, s, |s|, n, stop);
      var survivors := Survivors(score, s, |s|, n);
      var x :| x in survivors && r[n - 1] == x.(grade := score(survivors, x, n >= 25));
      SymmetricScore(score, survivors, r[..n], x, r[n - 1], n >= 25);
    } else {
      LastPassGrades(v, s, n);
    }
  }

  lemma SymmetricScore(score: Score, f: seq<Opr>, g: seq<Opr>, x: Opr, y: Opr, banded: bool)
    requires Symmetric(score) && SameField(g, f) && Bare(x) == Bare(y)
    ensures score(f, x, banded) == score(g, y, banded)
  {
    SameFieldSymmetric(g, f);
  }

  lemma LastPassGrades(v: Version, s: seq<Opr>, n: nat)
    requires 1 <= n < Stop(v) <= |s|
    ensures var r, stop := After(ScoreOf(v), s, |s|, Stop(v)), Stop(v);
      r[n - 1].grade == ScoreOf(v)(r[..stop], r[n - 1], stop >= 25)
  {
    hide ScoreOf, Pass, SameField, Symmetric;
    var score, stop := ScoreOf(v), Stop(v);
    VersionsSymmetric(v);
    var survivors, r := Survivors(score, s, |s|, stop), After(score, s, |s|, stop);
    assert r[..stop] == Pass(score, survivors, stop >= 25);
    PassResult(score, survivors, stop >= 25);
    var x := PassMember(score, survivors, stop >= 25, n - 1);
    assert r[..stop][n - 1] == r[n - 1];
    SymmetricScore(score, survivors, r[..stop], x, r[n - 1], stop >= 25);
  }

  /**
    A block that is graded at all: place by place, each record carries its score against the field it
    was placed in, no better than any record above it; and its position and payout.
   */
  lemma BlockRanked(v: Version, pow: Pow, s: seq<Opr>, cutoff: int, n: nat)
    requires cutoff >= 1 && |GradeBlock(v, pow, s, cutoff)| >= (if v == V1 then 10 else 25)
    requires 1 <= n <= |GradeBlock(v, pow, s, cutoff)|
    ensures var r := GradeBlock(v, pow, s, cutoff);
      && (forall j | 0 <= j < n - 1 :: Outranks(v, r, j, n))
      && r[n - 1].grade == ScoreOf(v)(FieldOf(v, r, n), r[n - 1], |FieldOf(v, r, n)| >= 25)
      && r[n - 1].position == n - 1 && r[n - 1].payout == PlaceReward(v, n - 1)
  {
    hide TopHonest, Distinct, After, ScoreOf, IsRanking, NoWorse, PlaceReward, Payout, Symmetric;
    var top := TopHonest(pow, Distinct(s, {}), cutoff);
    AtMost(pow, Distinct(s, {}), cutoff);
    var q, r := After(ScoreOf(v), top, |top|, Stop(v)), GradeBlock(v, pow, s, cutoff);
    assert r == Positioned(v, q);
    VersionsSymmetric(v);
    EliminationRanks(ScoreOf(v), top, Stop(v));
    GradeKept(v, top, n);
    PlaceRewardIs(v, n - 1);
    var field, bare := FieldOf(v, r, n), Judges(q, n, Stop(v));
    assert SamePrices(field, bare);
    ScoreReadsPrices(v, field, bare, r[n - 1], q[n - 1], |field| >= 25);
    forall j | 0 <= j < n - 1
      ensures Outranks(v, r, j, n)
    {
      ScoreReadsPrices(v, field, bare, r[j], q[j], |field| >= 25);
      RankedPair(v, q, j, n);
    }
  }

  lemma RankedPair(v: Version, q: seq<Opr>, j: nat, n: nat)
    requires IsRanking(ScoreOf(v), q, Stop(v)) && j < n - 1 && n <= |q|
    ensures Stop(v) <= |q|
    ensures var field := Judges(q, n, Stop(v));
      var x, y := ScoreOf(v)(field, q[j], |field| >= 25), ScoreOf(v)(field, q[n - 1], |field| >= 25);
      x < y || (x == y && q[j].selfReportedDifficulty >= q[n - 1].selfReportedDifficulty)
  {
    hide ScoreOf;
    assert NoWorse(ScoreOf(v), Judges(q, n, Stop(v)), q[j], q[n - 1]);
  }

  lemma AtMost(pow: Pow, s: seq<Opr>, cutoff: int)
    requires cutoff >= 1
    ensures |TopHonest(pow, s, cutoff)| <= cutoff
  {
    TopHonestIs(pow, s, cutoff);
  }

  // ---------- the blocks of the chain ----------

  lemma {:induction false} DistinctShorter(s: seq<Opr>, seen: set<seq<byte>>)
    ensures |Distinct(s, seen)| <= |s|
  {
    if s != [] {
      DistinctShorter(s[1..], if Id(s[0]) in seen then seen else seen + {Id(s[0])});
    }
  }

  lemma GradedAtMost(v: Version, pow: Pow, s: seq<Opr>)
    ensures |GradeBlock(v, pow, s, 50)| <= |s|
  {
    hide After, ScoreOf;
    var d := Distinct(s, {});
    DistinctShorter(s, {});
    TopHonestIs(pow, d, 50);
    FilterShorter(d, o => Honest(pow, o));
    SortContents(HonestOnes(pow, d), ByDifficulty);
  }

  /**
    An entry block of the chain holds a valid OPR block exactly if the block grader finds winners among
    its valid records, and then its records, their order and their grades are that grader's.
   */
  lemma ChainBlockIs(net: Network, chain: seq<EBlock>, k: nat)
    requires k < |chain|
    ensures var height := chain[k].height;
      var oprs := ReadAll(net, chain[k].entries, height, PreviousWinners(net, ValidBlocks(net, chain[..k]), height));
      var graded := GradeBlock(net.version(height), net.pow, oprs, 50);
      && (BlockAt(net, chain, k).Some? <==> |graded| >= (if net.version(height) == V1 then 10 else 25))
      && (BlockAt(net, chain, k).Some? ==>
        && BlockAt(net, chain, k).value.oprs == oprs && BlockAt(net, chain, k).value.dbht == height
        && Map(BlockAt(net, chain, k).value.graded, Shared) == Map(graded, Shared))
  {
    hide LegacyGrade, GradeBlock, PreviousWinners, ReadAll, ValidBlocks, Shared;
    var height := chain[k].height;
    var oprs := ReadAll(net, chain[k].entries, height, PreviousWinners(net, ValidBlocks(net, chain[..k]), height));
    GradersAgree(net.version(height), net.pow, oprs);
    GradedAtMost(net.version(height), net.pow, oprs);
    PlaceRewardIs(net.version(height), 0);
  }

  // ---------- staking blocks ----------

  /** Passes over the first n records do not look behind them. */
  lemma {:induction false} AfterFront(score: Score, s: seq<Opr>, n: nat, k: nat)
    requires 1 <= k && n <= |s|
    ensures After(score, s, n, k) == After(score, s[..n], n, k) + s[n..]
    decreases n + 1 - k
  {
    hide Pass;
    if k > n {
      assert s == s[..n] + s[n..];
    } else {
      AfterFront(score, s, n, k + 1);
      var t, u := After(score, s, n, k + 1), After(score, s[..n], n, k + 1);
      assert t[..k] == u[..k] && t[k..] == u[k..] + s[n..];
    }
  }

  lemma RankedV5(s: seq<Opr>, k: nat, j: nat)
    requires j < k <= |s|
    ensures var r := After(ScoreOf(V5), s, |s|, 1);
      && r[k - 1].grade == ScoreOf(V5)(r[..k], r[k - 1], k >= 25)
      && ScoreOf(V5)(r[..k], r[j], k >= 25) <= r[k - 1].grade
  {
    hide ScoreOf, After, IsRanking, Symmetric;
    VersionsSymmetric(V5);
    EliminationRanks(ScoreOf(V5), s, 1);
    GradeKept(V5, s, k);
    if j < k - 1 { RankedPair(V5, After(ScoreOf(V5), s, |s|, 1), j, k); }
  }

  /**
    In a graded staking block each record up to the cutoff carries its grade against those up to its
    own place, and none of these has a larger one.
   */
  lemma StakeRanked(s: seq<Opr>, cutoff: int, k: nat, j: nat)
    requires NoWork(s) && |StakeBlockOf(s, cutoff)| >= 25 && j < k <= |StakeBlockOf(s, cutoff)| && k <= cutoff
    ensures var r := StakeBlockOf(s, cutoff);
      && r[k - 1].grade == ScoreOf(V5)(r[..k], r[k - 1], k >= 25)
      && ScoreOf(V5)(r[..k], r[j], k >= 25) <= r[k - 1].grade
  {
    hide ScoreOf, After, StakeAfter, DistinctAddresses;
    var d := DistinctAddresses(s, {});
    DistinctAddressesResult(s, {});
    var n, r := First(d, cutoff), StakeBlockOf(s, cutoff);
    StakeIsElimination(d, n, 1);
    AfterFront(ScoreOf(V5), d, n, 1);
    var q := After(ScoreOf(V5), d[..n], n, 1);
    RankedV5(d[..n], k, j);
    assert SamePrices(r[..k], q[..k]);
    ScoreReadsPrices(V5, r[..k], q[..k], r[k - 1], q[k - 1], k >= 25);
    ScoreReadsPrices(V5, r[..k], q[..k], r[j], q[j], k >= 25);
  }
}
