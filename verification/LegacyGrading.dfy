/**
  The older copy of the grading procedure (opr/grading.go), which the syncing grader runs, and its
  agreement with the module graders.
 */
module LegacyGrading {
  import opened Common
  import opened StableSort
  import opened Grading
  import opened Averages
  import opened GradedBlock

  /** The older code computes and stores the difficulty, and sorts the passes by it. */
  function Hash(pow: Pow, o: Opr): Opr {
    o.(difficulty := pow(o.oprHash + o.nonce))
  }

  function ByComputed(o: Opr): real {
    -(o.difficulty as real)
  }

  /** The first `room` records whose claim matches what is computed. */
  function Select(pow: Pow, s: seq<Opr>, room: nat): seq<Opr> {
    if s == [] then []
    else
      var o := Hash(pow, s[0]);
      if o.difficulty != o.selfReportedDifficulty then Select(pow, s[1..], room)
      else if room <= 1 then [o]
      else [o] + Select(pow, s[1..], room - 1)
  }

  function LegacyPass(v: Version, s: seq<Opr>, banded: bool): (r: seq<Opr>)
    ensures |r| == |s|
  {
    var graded := Regrade(LegacyScoreOf(v), s, banded);
    SortContents(graded, ByComputed);
    SortContents(Sort(graded, ByComputed), ByGrade);
    Sort(Sort(graded, ByComputed), ByGrade)
  }

  function LegacyAfter(v: Version, s: seq<Opr>, k: nat): (r: seq<Opr>)
    requires 1 <= k
    ensures |r| == |s|
    decreases |s| + 1 - k
  {
    if k > |s| then s
    else
      var t := LegacyAfter(v, s, k + 1);
      LegacyPass(v, t[..k], k >= 25) + t[k..]
  }

  /** GradeMinimum: nothing when too few distinct records arrived, otherwise the graded top 50. */
  function LegacyGrade(v: Version, pow: Pow, s: seq<Opr>): seq<Opr> {
    var list := Distinct(s, {});
    if |list| < WinnerAmount(v) then []
    else LegacyAfter(v, Select(pow, Sort(list, ByDifficulty), 50), Stop(v))
  }

  /** FetchOPRBlock discards a graded list that is too short. */
  function LegacyWinners(v: Version, graded: seq<Opr>): seq<Opr> {
    if |graded| < WinnerAmount(v) then [] else graded[..WinnerAmount(v)]
  }

  /** What both implementations say about a record: everything but bookkeeping only one of them has. */
  function Shared(o: Opr): Opr {
    o.(difficulty := 0, position := 0, payout := 0)
  }

  // ---------- agreement ----------

  ghost predicate AllHonest(pow: Pow, s: seq<Opr>) {
    forall o <- s :: Honest(pow, o)
  }

  lemma {:induction false} SelectIsTake(pow: Pow, s: seq<Opr>, room: nat)
    ensures Select(pow, s, room) == Map(TakeHonest(pow, s, room), (o: Opr) => Hash(pow, o))
  {
    if s != [] {
      if !Honest(pow, s[0]) {
        SelectIsTake(pow, s[1..], room);
      } else if room > 1 {
        SelectIsTake(pow, s[1..], room - 1);
      }
    }
  }

  lemma ScoresOfHashed(v: Version, pow: Pow, s: seq<Opr>, o: Opr, banded: bool)
    ensures LegacyScoreOf(v)(Map(s, (x: Opr) => Hash(pow, x)), Hash(pow, o), banded) == ScoreOf(v)(s, o, banded)
  {
    var h := (x: Opr) => Hash(pow, x);
    ScoresAgree(v, Map(s, h), h(o), banded, |o.assets|);
    SameColumns(v, pow, s, o, banded, |o.assets|);
  }

  lemma {:induction false} SameColumns(v: Version, pow: Pow, s: seq<Opr>, o: Opr, banded: bool, k: nat)
    ensures GradeUpTo(v, Map(s, (x: Opr) => Hash(pow, x)), Hash(pow, o), banded, k) == GradeUpTo(v, s, o, banded, k)
  {
    if k > 0 {
      SameColumns(v, pow, s, o, banded, k - 1);
      var t := Map(s, (x: Opr) => Hash(pow, x));
      assert Column(t, k - 1) == Column(s, k - 1) && AbsColumn(t, k - 1) == AbsColumn(s, k - 1);
    }
  }

  /** One pass of either implementation does the same to honest records. */
  lemma PassesAgree(v: Version, pow: Pow, s: seq<Opr>, banded: bool)
    requires AllHonest(pow, s)
    ensures LegacyPass(v, Map(s, (o: Opr) => Hash(pow, o)), banded)
      == Map(Pass(ScoreOf(v), s, banded), (o: Opr) => Hash(pow, o))
    ensures AllHonest(pow, Pass(ScoreOf(v), s, banded))
  {
    var h := (o: Opr) => Hash(pow, o);
    var graded := Regrade(ScoreOf(v), s, banded);
    forall i | 0 <= i < |s|
      ensures Regrade(LegacyScoreOf(v), Map(s, h), banded)[i] == h(graded[i])
    {
      ScoresOfHashed(v, pow, s, s[i], banded);
    }
    assert Regrade(LegacyScoreOf(v), Map(s, h), banded) == Map(graded, h);
    forall o | o in graded
      ensures Honest(pow, o)
    {
      var i :| 0 <= i < |graded| && graded[i] == o;
      assert s[i] in s;
    }
    MapSort(graded, ByDifficulty, h, ByComputed);
    MapSort(Sort(graded, ByDifficulty), ByGrade, h, ByGrade);
    forall o | o in Pass(ScoreOf(v), s, banded)
      ensures Honest(pow, o)
    {
      SortMember(Sort(graded, ByDifficulty), ByGrade, o);
      SortMember(graded, ByDifficulty, o);
    }
  }

  lemma {:induction false} EliminationsAgree(v: Version, pow: Pow, s: seq<Opr>, k: nat)
    requires AllHonest(pow, s) && 1 <= k
    ensures LegacyAfter(v, Map(s, (o: Opr) => Hash(pow, o)), k)
      == Map(After(ScoreOf(v), s, |s|, k), (o: Opr) => Hash(pow, o))
    ensures AllHonest(pow, After(ScoreOf(v), s, |s|, k))
    decreases |s| + 1 - k
  {
    hide Pass, LegacyPass, ScoreOf;
    if k <= |s| {
      EliminationsAgree(v, pow, s, k + 1);
      StepsAgree(v, pow, After(ScoreOf(v), s, |s|, k + 1), k);
    }
  }

  lemma StepsAgree(v: Version, pow: Pow, t: seq<Opr>, k: nat)
    requires AllHonest(pow, t) && k <= |t|
    ensures var h, banded := (o: Opr) => Hash(pow, o), k >= 25;
      LegacyPass(v, Map(t, h)[..k], banded) + Map(t, h)[k..] == Map(Pass(ScoreOf(v), t[..k], banded) + t[k..], h)
    ensures AllHonest(pow, Pass(ScoreOf(v), t[..k], k >= 25) + t[k..])
  {
    hide Pass, LegacyPass, ScoreOf, Hash;
    var h := (o: Opr) => Hash(pow, o);
    assert forall o :: o in t[..k] || o in t[k..] ==> o in t;
    PassesAgree(v, pow, t[..k], k >= 25);
    var p := Pass(ScoreOf(v), t[..k], k >= 25);
    assert Map(t, h)[..k] == Map(t[..k], h) && Map(t, h)[k..] == Map(t[k..], h);
    assert Map(p + t[k..], h) == Map(p, h) + Map(t[k..], h);
  }

  /**
    The two implementations agree for every list of submissions: either both have no winners, or
    they grade the same records in the same order with the same grades.
   */
  lemma GradersAgree(v: Version, pow: Pow, s: seq<Opr>)
    ensures var graded, legacy := GradeBlock(v, pow, s, 50), LegacyGrade(v, pow, s);
      && (|graded| >= WinnerAmount(v) <==> |legacy| >= WinnerAmount(v))
      && (|graded| >= WinnerAmount(v) ==> Map(graded, Shared) == Map(legacy, Shared))
      && Map(Winners(v, graded), Shared) == Map(LegacyWinners(v, legacy), Shared)
  {
    hide After, LegacyAfter, ScoreOf, Distinct, TakeHonest, Select, Sort;
    var list := Distinct(s, {});
    var sorted := Sort(list, ByDifficulty);
    var top := TakeHonest(pow, sorted, 50);
    var h := (o: Opr) => Hash(pow, o);
    SelectIsTake(pow, sorted, 50);
    forall o | o in top
      ensures Honest(pow, o)
    {
      TakeHonestMember(pow, sorted, 50, o);
    }
    TakeHonestLength(pow, sorted, 50);
    SortContents(list, ByDifficulty);
    EliminationsAgree(v, pow, top, Stop(v));
    var graded, legacy := GradeBlock(v, pow, s, 50), LegacyGrade(v, pow, s);
    if |top| >= WinnerAmount(v) {
      var r := After(ScoreOf(v), top, |top|, Stop(v));
      assert graded == Positioned(v, r) && legacy == Map(r, h);
      forall i | 0 <= i < |r|
        ensures Map(graded, Shared)[i] == Map(legacy, Shared)[i]
      {
        assert graded[i] == r[i].(position := i, payout := Payout(v, i));
        assert legacy[i] == Hash(pow, r[i]);
      }
      var w := WinnerAmount(v);
      assert Map(graded, Shared) == Map(legacy, Shared);
      assert Map(graded[..w], Shared) == Map(graded, Shared)[..w];
      assert Map(legacy[..w], Shared) == Map(legacy, Shared)[..w];
    }
  }

  lemma {:induction false} TakeHonestLength(pow: Pow, s: seq<Opr>, limit: nat)
    requires limit >= 1
    ensures |TakeHonest(pow, s, limit)| <= limit && |TakeHonest(pow, s, limit)| <= |s|
  {
    if s != [] {
      if !Honest(pow, s[0]) {
        TakeHonestLength(pow, s[1..], limit);
      } else if limit > 1 {
        TakeHonestLength(pow, s[1..], limit - 1);
      }
    }
  }

  // ---------- the loops ----------

  method RemoveDuplicateSubmissions(list: seq<Opr>) returns (nlist: seq<Opr>)
    ensures nlist == Distinct(list, {})
  {
    nlist := [];
    var added: set<seq<byte>> := {};
    for n := 0 to |list|
      invariant nlist + Distinct(list[n..], added) == Distinct(list, {})
    {
      assert list[n..][1..] == list[n + 1..];
      var id := Id(list[n]);
      if id !in added {
        assert nlist + ([list[n]] + Distinct(list[n + 1..], added + {id}))
          == (nlist + [list[n]]) + Distinct(list[n + 1..], added + {id});
        nlist := nlist + [list[n]];
        added := added + {id};
      }
    }
  }

  method GradeMinimum(v: Version, pow: Pow, orderedList: seq<Opr>, ghost width: nat) returns (top50: seq<Opr>)
    requires Validated(orderedList, width)
    ensures top50 == LegacyGrade(v, pow, orderedList)
  {
    hide LegacyPass, Sort, Select, Distinct;
    var list := RemoveDuplicateSubmissions(orderedList);
    if |list| < WinnerAmount(v) {
      return [];
    }
    list := Sort(list, ByDifficulty);
    top50 := SelectHonest(pow, list);
    SelectedWidth(pow, orderedList, width);
    ghost var selected := top50;
    var i := |top50|;
    while i >= Stop(v)
      invariant i <= |selected| == |top50|
      invariant i < Stop(v) - 1 ==> i == |selected|
      invariant Validated(top50, width)
      invariant top50 == LegacyAfter(v, selected, if i < Stop(v) then Stop(v) else i + 1)
    {
      PrefixWidth(top50, i, width);
      var pass := OnePass(v, top50[..i], width);
      JoinWidth(pass, top50[i..], width);
      top50 := pass + top50[i..];
      i := i - 1;
    }
  }

  /** The averages of the first i records, their grades, and the two stable sorts. */
  method OnePass(v: Version, list: seq<Opr>, ghost width: nat) returns (r: seq<Opr>)
    requires list != [] && Validated(list, width)
    ensures r == LegacyPass(v, list, |list| >= 25) && Validated(r, width)
  {
    hide LegacyScoreOf, Sort, AverageAt;
    assert list[0] in list;
    var avg := Average(v, list);
    var band := if v != V1 && |list| >= 25 then BAND else 0.0;
    r := list;
    for j := 0 to |list|
      invariant |r| == |list|
      invariant forall k | 0 <= k < j :: r[k] == list[k].(grade := LegacyScoreOf(v)(list, list[k], |list| >= 25))
      invariant forall k | j <= k < |list| :: r[k] == list[k]
    {
      assert list[j] in list;
      var graded := CalculateGrade(v, list, avg, r[j], band, |list| >= 25);
      r := r[j := graded];
    }
    assert r == Regrade(LegacyScoreOf(v), list, |list| >= 25);
    LegacyPassKeepsWidth(v, list, |list| >= 25, width);
    r := Sort(Sort(r, ByComputed), ByGrade);
  }

  /** The grade of one record against the averages; without a band the sign of a difference is kept. */
  method CalculateGrade(v: Version, ghost s: seq<Opr>, avg: seq<real>, o: Opr, band: real, ghost banded: bool)
    returns (graded: Opr)
    requires |avg| == |o.assets| && forall i | 0 <= i < |avg| :: avg[i] == AverageAt(v, s, i)
    requires band == Band(banded && v != V1)
    ensures graded == o.(grade := LegacyScoreOf(v)(s, o, banded))
  {
    hide AverageAt, Fourth, Deviation, ApplyBand;
    var grade := 0.0;
    for i := 0 to |o.assets|
      invariant grade == LegacyUpTo(v, s, o, banded, i)
    {
      if avg[i] > 0.0 {
        var d := Deviation(o.assets[i], avg[i]);
        if band > 0.0 {
          d := ApplyBand(d, band);
        }
        grade := grade + Fourth(d);
      }
    }
    graded := o.(grade := grade);
  }

  // ---------- every record keeps its prices ----------

  lemma PrefixWidth(s: seq<Opr>, i: nat, width: nat)
    requires Validated(s, width) && i <= |s|
    ensures Validated(s[..i], width) && Validated(s[i..], width)
  {
    assert forall o <- s[..i] :: o in s;
    assert forall o <- s[i..] :: o in s;
  }

  lemma JoinWidth(a: seq<Opr>, b: seq<Opr>, width: nat)
    requires Validated(a, width) && Validated(b, width)
    ensures Validated(a + b, width)
  {
  }

  lemma LegacyPassKeepsWidth(v: Version, s: seq<Opr>, banded: bool, width: nat)
    requires Validated(s, width)
    ensures Validated(LegacyPass(v, s, banded), width)
  {
    hide LegacyScoreOf;
    var graded := Regrade(LegacyScoreOf(v), s, banded);
    forall o | o in LegacyPass(v, s, banded)
      ensures |o.assets| == width
    {
      SortMember(Sort(graded, ByComputed), ByGrade, o);
      SortMember(graded, ByComputed, o);
      var j :| 0 <= j < |graded| && graded[j] == o;
      assert s[j] in s;
    }
  }

  lemma SelectedWidth(pow: Pow, s: seq<Opr>, width: nat)
    requires Validated(s, width)
    ensures Validated(Select(pow, Sort(Distinct(s, {}), ByDifficulty), 50), width)
  {
    var d := Distinct(s, {});
    DistinctResult(s, {});
    forall o | o in Sort(d, ByDifficulty)
      ensures |o.assets| == width
    {
      SortMember(d, ByDifficulty, o);
    }
    SelectKeepsWidth(pow, Sort(d, ByDifficulty), 50, width);
  }

  lemma {:induction false} SelectKeepsWidth(pow: Pow, s: seq<Opr>, room: nat, width: nat)
    requires Validated(s, width)
    ensures Validated(Select(pow, s, room), width)
  {
    if s != [] {
      assert s[0] in s;
      PrefixWidth(s, 1, width);
      SelectKeepsWidth(pow, s[1..], if room > 0 then room - 1 else 0, width);
      SelectKeepsWidth(pow, s[1..], room, width);
    }
  }

  // ---------- the selection loop ----------

  method SelectHonest(pow: Pow, list: seq<Opr>) returns (top50: seq<Opr>)
    ensures top50 == Select(pow, list, 50)
  {
    top50 := [];
    for n := 0 to |list|
      invariant |top50| < 50
      invariant top50 + Select(pow, list[n..], 50 - |top50|) == Select(pow, list, 50)
    {
      assert list[n..][1..] == list[n + 1..];
      var opr := Hash(pow, list[n]);
      if opr.selfReportedDifficulty != opr.difficulty {
        continue;
      }
      ghost var rest := Select(pow, list[n + 1..], 50 - |top50| - 1);
      assert top50 + ([opr] + rest) == (top50 + [opr]) + rest;
      top50 := top50 + [opr];
      if |top50| == 50 {
        break;
      }
    }
  }
}
