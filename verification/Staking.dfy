/**
  Grading staking records (modules/graderStake): the elimination of the oracle graders without
  proof of work. A staking record is a record whose work is zero.
 */
module Staking {
  import opened Common
  import opened Sequences
  import opened StableSort
  import opened Grading
  import opened Averages
  import opened GradedBlock

  const STAKE_WINNERS: nat := 25

  function StakePayout(index: int): int {
    if index < 0 || index >= STAKE_WINNERS then 0 else 180 * COIN
  }

  /** Keeps the first record of each coinbase address. */
  function DistinctAddresses(s: seq<Opr>, seen: set<seq<byte>>): seq<Opr> {
    if s == [] then []
    else if s[0].address in seen then DistinctAddresses(s[1..], seen)
    else [s[0]] + DistinctAddresses(s[1..], seen + {s[0].address})
  }

  /** One pass: grade everyone, sort by grade; equal grades stay in the order they were in. */
  function StakePass(s: seq<Opr>, banded: bool): (r: seq<Opr>)
    ensures |r| == |s|
  {
    SortContents(Regrade(ScoreOf(V5), s, banded), ByGrade);
    Sort(Regrade(ScoreOf(V5), s, banded), ByGrade)
  }

  function StakeAfter(s: seq<Opr>, n: nat, k: nat): (r: seq<Opr>)
    requires 1 <= k && n <= |s|
    ensures |r| == |s|
    decreases n + 1 - k
  {
    if k > n then s
    else
      var t := StakeAfter(s, n, k + 1);
      StakePass(t[..k], k >= 25) + t[k..]
  }

  function StakePositioned(s: seq<Opr>): (r: seq<Opr>)
    ensures |r| == |s|
  {
    seq(|s|, i requires 0 <= i < |s| => s[i].(position := i, payout := StakePayout(i)))
  }

  /** The graded block. Records past the cutoff are kept behind the graded ones. */
  function StakeGraded(s: seq<Opr>, cutoff: int): seq<Opr> {
    if |s| < STAKE_WINNERS then s else StakePositioned(StakeAfter(s, First(s, cutoff), 1))
  }

  function StakeBlockOf(s: seq<Opr>, cutoff: int): seq<Opr> {
    StakeGraded(DistinctAddresses(s, {}), cutoff)
  }

  // ---------- the same elimination ----------

  ghost predicate NoWork(s: seq<Opr>) {
    forall o <- s :: o.selfReportedDifficulty == 0
  }

  lemma {:induction false} SortConstant(s: seq<Opr>)
    requires NoWork(s)
    ensures Sort(s, ByDifficulty) == s
  {
    if s != [] {
      assert forall o <- s[1..] :: o in s;
      SortConstant(s[1..]);
      if |s| > 1 { assert s[1] in s && s[0] in s; }
      assert s == [s[0]] + s[1..];
    }
  }

  lemma StakePassIsPass(s: seq<Opr>, banded: bool)
    requires NoWork(s)
    ensures StakePass(s, banded) == Pass(ScoreOf(V5), s, banded) && NoWork(StakePass(s, banded))
  {
    hide ScoreOf;
    var graded, r := Regrade(ScoreOf(V5), s, banded), StakePass(s, banded);
    forall o | o in graded
      ensures o.selfReportedDifficulty == 0
    {
      var j :| 0 <= j < |graded| && graded[j] == o;
      assert s[j] in s;
    }
    SortConstant(graded);
    forall o | o in r
      ensures o.selfReportedDifficulty == 0
    {
      SortMember(graded, ByGrade, o);
    }
  }

  /** Without work to compare, the oracle graders' elimination is exactly this one. */
  lemma {:induction false} StakeIsElimination(s: seq<Opr>, n: nat, k: nat)
    requires NoWork(s) && 1 <= k && n <= |s|
    ensures StakeAfter(s, n, k) == After(ScoreOf(V5), s, n, k) && NoWork(StakeAfter(s, n, k))
    decreases n + 1 - k
  {
    hide ScoreOf, StakePass, Pass;
    if k <= n {
      StakeIsElimination(s, n, k + 1);
      var t := StakeAfter(s, n, k + 1);
      assert forall o <- t[..k] :: o in t;
      assert forall o <- t[k..] :: o in t;
      StakePassIsPass(t[..k], k >= 25);
    }
  }

  /** Pass k leaves the worst of its survivors, by the grade of that pass, at index k - 1 for good. */
  lemma StakeEliminated(s: seq<Opr>, n: nat, k: nat)
    requires NoWork(s) && 1 <= k <= n <= |s|
    ensures var survivors, final := StakeAfter(s, n, k + 1)[..k], StakeAfter(s, n, 1);
      var graded := StakePass(survivors, k >= 25);
      && SameField(final[..k], survivors)
      && final[k - 1] == graded[k - 1]
      && (forall i | 0 <= i < k :: graded[i].grade <= final[k - 1].grade)
  {
    hide ScoreOf, StakePass, Pass, SameField;
    StakeIsElimination(s, n, 1);
    StakeIsElimination(s, n, k + 1);
    var t := StakeAfter(s, n, k + 1);
    assert forall o <- t[..k] :: o in t;
    StakePassIsPass(t[..k], k >= 25);
    Eliminated(ScoreOf(V5), s, n, k, 1);
  }

  // ---------- no address twice ----------

  function Addresses(s: seq<Opr>): (r: seq<seq<byte>>)
    ensures |r| == |s|
  {
    Map(s, (o: Opr) => o.address)
  }

  lemma {:induction false} DistinctAddressesResult(s: seq<Opr>, seen: set<seq<byte>>)
    ensures var r := DistinctAddresses(s, seen);
      && (forall o <- r :: o in s && o.address !in seen)
      && NoRepeats(Addresses(r))
  {
    if s != [] {
      assert s == [s[0]] + s[1..];
      if s[0].address in seen {
        DistinctAddressesResult(s[1..], seen);
      } else {
        DistinctAddressesResult(s[1..], seen + {s[0].address});
        NewAddressFirst(s[0], DistinctAddresses(s[1..], seen + {s[0].address}));
      }
    }
  }

  lemma NewAddressFirst(o: Opr, rest: seq<Opr>)
    requires NoRepeats(Addresses(rest)) && forall x <- rest :: x.address != o.address
    ensures NoRepeats(Addresses([o] + rest))
  {
    var r := Addresses([o] + rest);
    forall a, b | 0 <= a < b < |r|
      ensures r[a] != r[b]
    {
      assert r[b] == Addresses(rest)[b - 1] == rest[b - 1].address && rest[b - 1] in rest;
      if a > 0 { assert r[a] == Addresses(rest)[a - 1]; }
    }
  }

  /** The first record of an address is never dropped. */
  lemma {:induction false} FirstOfAddressKept(s: seq<Opr>, seen: set<seq<byte>>, i: nat)
    requires i < |s| && s[i].address !in seen && forall j | 0 <= j < i :: s[j].address != s[i].address
    ensures s[i] in DistinctAddresses(s, seen)
  {
    if i > 0 {
      FirstOfAddressKept(s[1..], if s[0].address in seen then seen else seen + {s[0].address}, i - 1);
    }
  }

  lemma StakePassAddresses(s: seq<Opr>, banded: bool)
    ensures multiset(Addresses(StakePass(s, banded))) == multiset(Addresses(s))
  {
    hide ScoreOf, Sort;
    var graded := Regrade(ScoreOf(V5), s, banded);
    SortContents(graded, ByGrade);
    MapContents(StakePass(s, banded), graded, (o: Opr) => o.address);
    assert Addresses(graded) == Addresses(s);
  }

  lemma AddressesConcat(a: seq<Opr>, b: seq<Opr>)
    ensures Addresses(a + b) == Addresses(a) + Addresses(b)
  {
  }

  lemma {:induction false} StakeAfterAddresses(s: seq<Opr>, n: nat, k: nat)
    requires 1 <= k && n <= |s|
    ensures multiset(Addresses(StakeAfter(s, n, k))) == multiset(Addresses(s))
    decreases n + 1 - k
  {
    hide StakePass, Addresses;
    if k <= n {
      StakeAfterAddresses(s, n, k + 1);
      var t := StakeAfter(s, n, k + 1);
      StakePassAddresses(t[..k], k >= 25);
      AddressesConcat(t[..k], t[k..]);
      AddressesConcat(StakePass(t[..k], k >= 25), t[k..]);
      assert t == t[..k] + t[k..];
    }
  }

  /** However the passes reorder the records, no address is placed, and so paid, twice. */
  lemma OneRewardPerAddress(s: seq<Opr>, cutoff: int)
    ensures NoRepeats(Addresses(StakeBlockOf(s, cutoff)))
  {
    hide StakeAfter;
    var d := DistinctAddresses(s, {});
    DistinctAddressesResult(s, {});
    if |d| >= STAKE_WINNERS {
      var n := First(d, cutoff);
      var r := StakeAfter(d, n, 1);
      StakeAfterAddresses(d, n, 1);
      SelectionOnce(Addresses(r), Addresses(d));
      assert Addresses(StakePositioned(r)) == Addresses(r);
    }
  }

  /** Every record of a graded block knows its place, and the first 25 get 180 PEG each. */
  lemma StakePlaces(s: seq<Opr>, cutoff: int, i: nat)
    requires |StakeBlockOf(s, cutoff)| >= 25 && i < |StakeBlockOf(s, cutoff)|
    ensures StakeBlockOf(s, cutoff)[i].position == i
    ensures StakeBlockOf(s, cutoff)[i].payout == if i <= 24 then 18_000_000_000 else 0
  {
    hide StakeAfter, DistinctAddresses;
  }

  function StakePaidToFirst(n: nat): int {
    if n == 0 then 0 else StakePaidToFirst(n - 1) + StakePayout(n - 1)
  }

  lemma {:induction false} StakeEvenly(n: nat)
    ensures StakePaidToFirst(n) == 180 * COIN * Min(n, STAKE_WINNERS)
  {
    if n > 0 { StakeEvenly(n - 1); }
  }

  lemma {:induction false} StakePositionedPays(s: seq<Opr>)
    ensures TotalPaid(StakePositioned(s)) == StakePaidToFirst(|s|)
  {
    if s != [] {
      var n := |s| - 1;
      assert StakePositioned(s)[..n] == StakePositioned(s[..n]);
      StakePositionedPays(s[..n]);
    }
  }

  /** With enough stakers a block pays exactly 4500 PEG. */
  lemma StakeBlockPaysReward(s: seq<Opr>, cutoff: int)
    requires |StakeBlockOf(s, cutoff)| >= STAKE_WINNERS
    ensures TotalPaid(StakeBlockOf(s, cutoff)) == 4500 * COIN
  {
    hide StakeAfter;
    var d := DistinctAddresses(s, {});
    var r := StakeAfter(d, First(d, cutoff), 1);
    StakePositionedPays(r);
    StakeEvenly(|r|);
  }

  // ---------- the block object ----------

  class StakeBlock {
    var sprs: seq<Opr>
    var cutoff: int
    var count: nat

    constructor (cutoff: int)
      ensures this.cutoff == cutoff && sprs == [] && count == 0
    {
      this.cutoff, sprs, count := cutoff, [], 0;
    }

    method CloneSprs(s: seq<Opr>)
      modifies this`sprs, this`count
      ensures sprs == s && count == |s|
    {
      sprs := [];
      for n := 0 to |s|
        invariant sprs == s[..n]
      {
        sprs := sprs + [s[n]];
      }
      count := |s|;
    }

    method FilterDuplicates()
      modifies this`sprs
      ensures sprs == DistinctAddresses(old(sprs), {})
    {
      var filtered: seq<Opr> := [];
      var added: set<seq<byte>> := {};
      for n := 0 to |sprs|
        invariant sprs == old(sprs)
        invariant filtered + DistinctAddresses(sprs[n..], added) == DistinctAddresses(sprs, {})
      {
        var v := sprs[n];
        assert sprs[n..][1..] == sprs[n + 1..];
        if v.address !in added {
          assert filtered + ([v] + DistinctAddresses(sprs[n + 1..], added + {v.address}))
            == (filtered + [v]) + DistinctAddresses(sprs[n + 1..], added + {v.address});
          filtered := filtered + [v];
          added := added + {v.address};
        }
      }
      sprs := filtered;
    }

    /** The elimination loop, over the first `cutoff` records in the order they arrived. */
    method Grade(ghost width: nat)
      requires Validated(sprs, width)
      modifies this`sprs, this`cutoff
      ensures sprs == StakeGraded(old(sprs), old(cutoff))
    {
      hide StakePass, ScoreOf, StakePositioned;
      if |sprs| < STAKE_WINNERS {
        return;
      }
      if cutoff > |sprs| {
        cutoff := |sprs|;
      }
      ghost var n, s := First(sprs, cutoff), sprs;
      var i := cutoff;
      while i >= 1
        invariant i <= cutoff == Min(old(cutoff), |s|)
        invariant i < 0 ==> i == cutoff
        invariant |sprs| == |s| && Validated(sprs, width)
        invariant sprs == StakeAfter(s, n, if i < 1 then 1 else i + 1)
      {
        OnePass(i, width);
        i := i - 1;
      }
      AssignPositions();
    }

    method OnePass(i: nat, ghost width: nat)
      requires 1 <= i <= |sprs| && Validated(sprs, width)
      modifies this`sprs
      ensures sprs == StakePass(old(sprs)[..i], i >= 25) + old(sprs)[i..]
      ensures Validated(sprs, width)
    {
      hide ScoreOf, Sort, AverageAt;
      ghost var survivors, tail := sprs[..i], sprs[i..];
      assert forall o :: o in survivors || o in tail ==> o in sprs;
      assert sprs[0] in sprs;
      var avg := Average(V5, sprs[..i]);
      RegradePrefix(i, avg);
      StakePassKeepsWidth(survivors, i >= 25, width);
      assert sprs[..i] == Regrade(ScoreOf(V5), survivors, i >= 25) && sprs[i..] == tail;
      sprs := Sort(sprs[..i], ByGrade) + sprs[i..];
    }

    method RegradePrefix(i: nat, avg: seq<real>)
      requires i <= |sprs| && forall o <- sprs[..i] :: |o.assets| == |avg|
      requires forall k | 0 <= k < |avg| :: avg[k] == AverageAt(V5, sprs[..i], k)
      modifies this`sprs
      ensures sprs == Regrade(ScoreOf(V5), old(sprs)[..i], i >= 25) + old(sprs)[i..]
    {
      hide ScoreOf, AverageAt;
      ghost var s, survivors := sprs, sprs[..i];
      for j := 0 to i
        invariant |sprs| == |s|
        invariant forall k | 0 <= k < j :: sprs[k] == s[k].(grade := ScoreOf(V5)(survivors, s[k], i >= 25))
        invariant forall k | j <= k < |s| :: sprs[k] == s[k]
      {
        assert sprs[j] == survivors[j] && survivors[j] in survivors;
        var graded := GradeRecord(V5, survivors, avg, sprs[j], i >= 25);
        sprs := sprs[j := graded];
      }
    }

    method AssignPositions()
      modifies this`sprs
      ensures sprs == StakePositioned(old(sprs))
    {
      ghost var s := sprs;
      for k := 0 to |sprs|
        invariant |sprs| == |s|
        invariant forall i | 0 <= i < k :: sprs[i] == StakePositioned(s)[i]
        invariant forall i | k <= i < |s| :: sprs[i] == s[i]
      {
        sprs := sprs[k := sprs[k].(position := k, payout := StakePayout(k))];
      }
    }
  }

  lemma StakePassKeepsWidth(s: seq<Opr>, banded: bool, width: nat)
    requires Validated(s, width)
    ensures Validated(StakePass(s, banded), width)
  {
    hide ScoreOf;
    var graded, r := Regrade(ScoreOf(V5), s, banded), StakePass(s, banded);
    forall o | o in r
      ensures |o.assets| == width
    {
      SortMember(graded, ByGrade, o);
      var j :| 0 <= j < |graded| && graded[j] == o;
      assert s[j] in s;
    }
  }

  method GradeCustom(s: seq<Opr>, cutoff: int, ghost width: nat) returns (block: StakeBlock)
    requires Validated(s, width)
    ensures fresh(block) && block.count == |s| && block.sprs == StakeBlockOf(s, cutoff)
  {
    hide StakeGraded;
    block := new StakeBlock(cutoff);
    block.CloneSprs(s);
    block.FilterDuplicates();
    DistinctAddressesResult(s, {});
    block.Grade(width);
  }
}
