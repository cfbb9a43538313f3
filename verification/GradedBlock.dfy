/**
  Grading a block: the pipeline of GradeCustom and the block object its steps update
  (modules/grader/baseGradedBlock.go, v1/v2/v5GradedBlock.go, v1/v2/v5grader.go).
 */
module GradedBlock {
  import opened Common
  import opened StableSort
  import opened Grading
  import opened Averages

  const COIN: int := 100_000_000

  /** How many win, and so are needed. */
  function WinnerAmount(v: Version): nat {
    if v == V1 then 10 else 25
  }

  /** The last pass grades this many records. */
  function Stop(v: Version): nat {
    if v == V1 then 10 else 1
  }

  function Payout(v: Version, index: int): int {
    if index < 0 || index >= WinnerAmount(v) then 0
    else if v == V1 then (if index == 0 then 800 else if index == 1 then 600 else 450) * COIN
    else if v == V2 then 200 * COIN
    else 360 * COIN
  }

  function Positioned(v: Version, s: seq<Opr>): (r: seq<Opr>)
    ensures |r| == |s|
  {
    seq(|s|, i requires 0 <= i < |s| => s[i].(position := i, payout := Payout(v, i)))
  }

  function Min(a: int, b: int): int {
    if a < b then a else b
  }

  /** The number of records the first pass grades; none for a negative cutoff. */
  function First(s: seq<Opr>, cutoff: int): nat {
    if cutoff < 0 then 0 else Min(cutoff, |s|)
  }

  /** The grading of a selected list, left alone when there are too few. */
  function Graded(v: Version, s: seq<Opr>, cutoff: int): seq<Opr> {
    if |s| < WinnerAmount(v) then s
    else Positioned(v, After(ScoreOf(v), s, First(s, cutoff), Stop(v)))
  }

  function GradeBlock(v: Version, pow: Pow, s: seq<Opr>, cutoff: int): seq<Opr> {
    Graded(v, TopHonest(pow, Distinct(s, {}), cutoff), cutoff)
  }

  function Winners(v: Version, graded: seq<Opr>): seq<Opr> {
    if |graded| < WinnerAmount(v) then [] else graded[..WinnerAmount(v)]
  }

  // ---------- what a graded block pays ----------

  /** Winners and nobody else are paid, and an earlier place never less than a later one. */
  lemma PayoutOrder(v: Version, i: int, j: int)
    ensures Payout(v, i) > 0 <==> 0 <= i < WinnerAmount(v)
    ensures 0 <= i <= j ==> Payout(v, i) >= Payout(v, j)
  {
  }

  /** What a place is worth, in the smallest unit of PEG. */
  function PlaceReward(v: Version, place: int): int {
    match v
    case V1 => if place == 0 then 80_000_000_000 else if place == 1 then 60_000_000_000
      else if 2 <= place <= 9 then 45_000_000_000 else 0
    case V2 => if 0 <= place <= 24 then 20_000_000_000 else 0
    case V5 => if 0 <= place <= 24 then 36_000_000_000 else 0
  }

  lemma PlaceRewardIs(v: Version, place: int)
    ensures Payout(v, place) == PlaceReward(v, place)
    ensures WinnerAmount(v) == if v == V1 then 10 else 25
  {
  }

  function TotalPaid(s: seq<Opr>): int {
    if s == [] then 0 else TotalPaid(s[..|s| - 1]) + s[|s| - 1].payout
  }

  function BlockReward(v: Version): int {
    if v == V5 then 9000 * COIN else 5000 * COIN
  }

  function PaidToFirst(v: Version, n: nat): int {
    if n == 0 then 0 else PaidToFirst(v, n - 1) + Payout(v, n - 1)
  }

  lemma {:induction false} WinnersShareReward(v: Version, n: nat)
    requires n >= WinnerAmount(v)
    ensures PaidToFirst(v, n) == BlockReward(v)
  {
    if n > WinnerAmount(v) {
      WinnersShareReward(v, n - 1);
    } else if v == V1 {
      FirstTen(10);
    } else {
      Evenly(v, 25);
    }
  }

  lemma {:induction false} FirstTen(n: nat)
    requires 2 <= n <= 10
    ensures PaidToFirst(V1, n) == (1400 + 450 * (n - 2)) * COIN
  {
    if n > 2 {
      FirstTen(n - 1);
    } else {
      assert PaidToFirst(V1, 0) == 0 && PaidToFirst(V1, 1) == 800 * COIN;
    }
  }

  lemma {:induction false} Evenly(v: Version, n: nat)
    requires v != V1 && n <= 25
    ensures PaidToFirst(v, n) == n * Payout(v, 0)
  {
    if n > 0 {
      Evenly(v, n - 1);
    }
  }

  lemma {:induction false} PositionedPays(v: Version, s: seq<Opr>)
    ensures TotalPaid(Positioned(v, s)) == PaidToFirst(v, |s|)
  {
    if s != [] {
      var n := |s| - 1;
      assert Positioned(v, s)[..n] == Positioned(v, s[..n]);
      PositionedPays(v, s[..n]);
    }
  }

  /** A block with enough honest records pays exactly the block reward, whatever the cutoff was. */
  lemma BlockPaysReward(v: Version, pow: Pow, s: seq<Opr>, cutoff: int)
    requires |GradeBlock(v, pow, s, cutoff)| >= WinnerAmount(v)
    ensures TotalPaid(GradeBlock(v, pow, s, cutoff)) == BlockReward(v)
  {
    var top := TopHonest(pow, Distinct(s, {}), cutoff);
    var r := After(ScoreOf(v), top, First(top, cutoff), Stop(v));
    PositionedPays(v, r);
    WinnersShareReward(v, |r|);
  }

  /** Two arrival orders of the same records give the same graded block. */
  lemma BlockOrderIndependent(v: Version, pow: Pow, a: seq<Opr>, b: seq<Opr>, cutoff: int)
    requires cutoff >= 1 && multiset(a) == multiset(b) && Unambiguous(pow, a)
    ensures GradeBlock(v, pow, a, cutoff) == GradeBlock(v, pow, b, cutoff)
  {
    ArrivalOrder(pow, a, b, cutoff);
  }

  /** The winner set is fixed by the pass that leaves that many records; later passes only order it. */
  lemma WinnerSet(v: Version, s: seq<Opr>)
    requires |s| >= WinnerAmount(v)
    ensures var r := After(ScoreOf(v), s, |s|, Stop(v));
      SameField(r[..WinnerAmount(v)], After(ScoreOf(v), s, |s|, WinnerAmount(v) + 1)[..WinnerAmount(v)])
  {
    LaterPassesReorder(ScoreOf(v), s, |s|, WinnerAmount(v), Stop(v));
  }

  /** One turn of the selection loop. */
  lemma TakeStep(pow: Pow, s: seq<Opr>, limit: int)
    requires s != []
    ensures !Honest(pow, s[0]) ==>
      TakeHonest(pow, s, limit) == TakeHonest(pow, s[1..], limit) && Hashed(pow, s, limit) == 1 + Hashed(pow, s[1..], limit)
    ensures Honest(pow, s[0]) && limit <= 1 ==> TakeHonest(pow, s, limit) == [s[0]] && Hashed(pow, s, limit) == 1
    ensures Honest(pow, s[0]) && limit > 1 ==>
      && TakeHonest(pow, s, limit) == [s[0]] + TakeHonest(pow, s[1..], limit - 1)
      && Hashed(pow, s, limit) == 1 + Hashed(pow, s[1..], limit - 1)
  {
  }

  lemma NothingTaken(pow: Pow)
    ensures forall l: int :: TakeHonest(pow, [], l) == [] && Hashed(pow, [], l) == 0
  {
  }

  // ---------- the block object ----------

  class Block {
    const version: Version
    const pow: Pow
    var oprs: seq<Opr>
    var cutoff: int
    var count: nat
    var shorthashes: seq<seq<byte>>

    constructor (version: Version, pow: Pow, cutoff: int)
      ensures this.version == version && this.pow == pow && this.cutoff == cutoff
      ensures oprs == [] && count == 0 && shorthashes == []
    {
      this.version, this.pow, this.cutoff := version, pow, cutoff;
      oprs, count, shorthashes := [], 0, [];
    }

    /** The records are values here, so the clones are the records. */
    method CloneOprs(s: seq<Opr>)
      modifies this`oprs, this`count
      ensures oprs == s && count == |s|
    {
      oprs := [];
      for n := 0 to |s|
        invariant oprs == s[..n]
      {
        oprs := oprs + [s[n]];
      }
      count := |s|;
    }

    method FilterDuplicates()
      modifies this`oprs
      ensures oprs == Distinct(old(oprs), {})
    {
      var filtered: seq<Opr> := [];
      var added: set<seq<byte>> := {};
      for n := 0 to |oprs|
        invariant oprs == old(oprs)
        invariant filtered + Distinct(oprs[n..], added) == Distinct(oprs, {})
      {
        var v := oprs[n];
        assert oprs[n..][1..] == oprs[n + 1..];
        var id := Id(v);
        if id !in added {
          assert filtered + ([v] + Distinct(oprs[n + 1..], added + {id}))
            == (filtered + [v]) + Distinct(oprs[n + 1..], added + {id});
          filtered := filtered + [v];
          added := added + {id};
        }
      }
      oprs := filtered;
    }

    /** Hashes records in order of claimed difficulty until enough honest ones are found. */
    method SortByDifficulty(limit: int) returns (hashes: nat)
      modifies this`oprs
      ensures oprs == TopHonest(pow, old(oprs), limit)
      ensures hashes == Hashed(pow, Sort(old(oprs), ByDifficulty), limit)
    {
      hide TakeHonest, Hashed;
      oprs := Sort(oprs, ByDifficulty);
      ghost var sorted := oprs;
      var topX: seq<Opr> := [];
      hashes := 0;
      NothingTaken(pow);
      assert oprs[0..] == oprs && oprs[|oprs|..] == [];
      for n := 0 to |oprs|
        invariant oprs == sorted
        invariant topX != [] ==> |topX| < limit
        invariant topX + TakeHonest(pow, oprs[n..], limit - |topX|) == TakeHonest(pow, oprs, limit)
        invariant hashes + Hashed(pow, oprs[n..], limit - |topX|) == Hashed(pow, oprs, limit)
      {
        assert oprs[n..][1..] == oprs[n + 1..];
        TakeStep(pow, oprs[n..], limit - |topX|);
        var o := oprs[n];
        var diff := pow(o.oprHash + o.nonce);
        hashes := hashes + 1;
        if diff != o.selfReportedDifficulty {
          continue;
        }
        ghost var rest := TakeHonest(pow, oprs[n + 1..], limit - |topX| - 1);
        assert topX + ([o] + rest) == (topX + [o]) + rest;
        topX := topX + [o];
        if |topX| >= limit {
          break;
        }
      }
      oprs := topX;
    }

    /** The elimination loop. */
    method Grade(ghost width: nat)
      requires Validated(oprs, width)
      modifies this`oprs, this`cutoff
      ensures oprs == Graded(version, old(oprs), old(cutoff))
      ensures cutoff == if |old(oprs)| < WinnerAmount(version) then old(cutoff) else Min(old(cutoff), |old(oprs)|)
    {
      hide Pass, ScoreOf, Positioned, Validated;
      if |oprs| < WinnerAmount(version) {
        return;
      }
      if cutoff > |oprs| {
        cutoff := |oprs|;
      }
      ghost var n, s, score := First(oprs, cutoff), oprs, ScoreOf(version);
      var i := cutoff;
      while i >= Stop(version)
        invariant i <= cutoff == Min(old(cutoff), |s|)
        invariant i < Stop(version) - 1 ==> i == cutoff
        invariant |oprs| == |s| && Validated(oprs, width)
        invariant oprs == After(score, s, n, if i < Stop(version) then Stop(version) else i + 1)
      {
        OnePass(i, width);
        i := i - 1;
      }
      AssignPositions();
    }

    /**
      One pass: averages over the first i records, their grades, and the two stable sorts. The
      averages are taken before any grade of the pass is written.
     */
    method OnePass(i: nat, ghost width: nat)
      requires 1 <= i <= |oprs| && Validated(oprs, width)
      modifies this`oprs
      ensures oprs == Pass(ScoreOf(version), old(oprs)[..i], i >= 25) + old(oprs)[i..]
      ensures Validated(oprs, width)
    {
      hide ScoreOf, Sort, AverageAt;
      ghost var survivors, tail := oprs[..i], oprs[i..];
      assert forall o :: o in survivors || o in tail ==> o in oprs;
      assert oprs[0] in oprs;
      var avg := Average(version, oprs[..i]);
      RegradePrefix(i, avg);
      ghost var graded := Regrade(ScoreOf(version), survivors, i >= 25);
      SortContents(graded, ByDifficulty);
      SortContents(Sort(graded, ByDifficulty), ByGrade);
      oprs := Sort(oprs[..i], ByDifficulty) + oprs[i..];
      assert oprs[..i] == Sort(graded, ByDifficulty) && oprs[i..] == tail;
      oprs := Sort(oprs[..i], ByGrade) + oprs[i..];
      PassKeepsWidth(ScoreOf(version), survivors, i >= 25, width);
    }

    method RegradePrefix(i: nat, avg: seq<real>)
      requires i <= |oprs| && forall o <- oprs[..i] :: |o.assets| == |avg|
      requires forall k | 0 <= k < |avg| :: avg[k] == AverageAt(version, oprs[..i], k)
      modifies this`oprs
      ensures oprs == Regrade(ScoreOf(version), old(oprs)[..i], i >= 25) + old(oprs)[i..]
    {
      hide ScoreOf, AverageAt;
      ghost var s, survivors := oprs, oprs[..i];
      for j := 0 to i
        invariant |oprs| == |s|
        invariant forall k | 0 <= k < j :: oprs[k] == s[k].(grade := ScoreOf(version)(survivors, s[k], i >= 25))
        invariant forall k | j <= k < |s| :: oprs[k] == s[k]
      {
        assert oprs[j] == survivors[j] && survivors[j] in survivors;
        var graded := GradeRecord(version, survivors, avg, oprs[j], i >= 25);
        oprs := oprs[j := graded];
      }
    }

    method AssignPositions()
      modifies this`oprs
      ensures oprs == Positioned(version, old(oprs))
    {
      ghost var s := oprs;
      for k := 0 to |oprs|
        invariant |oprs| == |s|
        invariant forall i | 0 <= i < k :: oprs[i] == Positioned(version, s)[i]
        invariant forall i | k <= i < |s| :: oprs[i] == s[i]
      {
        oprs := oprs[k := oprs[k].(position := k, payout := Payout(version, k))];
      }
    }

    method CreateShortHashes(amount: nat)
      requires |oprs| >= amount
      modifies this`shorthashes
      ensures shorthashes == ShortHashes(oprs[..amount])
      ensures forall i | 0 <= i < amount && |oprs[i].entryHash| >= 8 :: shorthashes[i] == oprs[i].entryHash[..8]
    {
      var shortHashes: seq<seq<byte>> := [];
      for i := 0 to amount
        invariant shortHashes == ShortHashes(oprs[..i])
      {
        shortHashes := shortHashes + [Prefix(oprs[i].entryHash, 8)];
      }
      shorthashes := shortHashes;
    }
  }

  function ShortHashes(s: seq<Opr>): (r: seq<seq<byte>>)
    ensures |r| == |s|
  {
    Map(s, (o: Opr) => Prefix(o.entryHash, 8))
  }

  lemma PassKeepsWidth(score: Score, s: seq<Opr>, banded: bool, width: nat)
    requires Validated(s, width)
    ensures Validated(Pass(score, s, banded), width)
  {
    var r := Pass(score, s, banded);
    forall o | o in r
      ensures |o.assets| == width
    {
      var i :| 0 <= i < |r| && r[i] == o;
      var x := PassMember(score, s, banded, i);
    }
  }

  /** What is graded was submitted. */
  lemma SelectedFrom(pow: Pow, s: seq<Opr>, limit: int, o: Opr)
    requires o in TopHonest(pow, Distinct(s, {}), limit)
    ensures o in s
  {
    var d := Distinct(s, {});
    TakeHonestMember(pow, Sort(d, ByDifficulty), limit, o);
    SortMember(d, ByDifficulty, o);
    DistinctResult(s, {});
  }

  lemma {:induction false} TakeHonestMember(pow: Pow, s: seq<Opr>, limit: int, o: Opr)
    requires o in TakeHonest(pow, s, limit)
    ensures o in s && Honest(pow, o)
  {
    if o != s[0] || !Honest(pow, s[0]) {
      TakeHonestMember(pow, s[1..], if Honest(pow, s[0]) then limit - 1 else limit, o);
    }
  }

  /** GradeCustom: the previous winners stay announced when there are too few records. */
  method GradeCustom(v: Version, pow: Pow, s: seq<Opr>, prevWinners: seq<seq<byte>>, cutoff: int, ghost width: nat)
    returns (block: Block)
    requires Validated(s, width)
    ensures fresh(block) && block.count == |s|
    ensures block.oprs == GradeBlock(v, pow, s, cutoff)
    ensures block.shorthashes ==
      if |block.oprs| < WinnerAmount(v) then prevWinners else ShortHashes(Winners(v, block.oprs))
  {
    hide TopHonest, Distinct, Graded;
    block := new Block(v, pow, cutoff);
    block.CloneOprs(s);
    block.FilterDuplicates();
    var hashes := block.SortByDifficulty(cutoff);
    forall o | o in block.oprs
      ensures |o.assets| == width
    {
      SelectedFrom(pow, s, cutoff, o);
    }
    block.Grade(width);
    if |block.oprs| < WinnerAmount(v) {
      block.shorthashes := prevWinners;
    } else {
      block.CreateShortHashes(WinnerAmount(v));
    }
  }
}
