/** The best nonces of a miner, and the best of all miners (opr/aggregator.go). */
module Aggregator {
  import opened Common
  import opened Sequences
  import opened StableSort
  import opened Grading

  datatype UniqueOPRData = UniqueOPRData(nonce: seq<byte>, difficulty: uint64)

  function Difficulty(u: UniqueOPRData): uint64 {
    u.difficulty
  }

  function Difficulties(s: seq<UniqueOPRData>): (r: seq<uint64>)
    ensures |r| == |s|
  {
    Map(s, Difficulty)
  }

  function Negated(d: uint64): real {
    -(d as real)
  }

  /** The k largest of s, largest first. */
  function Top(k: nat, s: seq<uint64>): seq<uint64> {
    Prefix(Sort(s, Negated), k)
  }

  lemma DistinctKeys(s: seq<uint64>)
    ensures Injective(s, Negated)
  {
  }

  lemma TopOfContents(k: nat, a: seq<uint64>, b: seq<uint64>)
    requires multiset(a) == multiset(b)
    ensures Top(k, a) == Top(k, b)
  {
    DistinctKeys(a);
    SortOfPermutation(a, b, Negated);
  }

  ghost predicate Descending(s: seq<uint64>) {
    forall i, j | 0 <= i < j < |s| :: s[i] >= s[j]
  }

  /** Inserting what is no larger than the first k of a descending list leaves those k alone. */
  lemma {:induction false} InsertBelow(x: uint64, d: seq<uint64>, k: nat)
    requires Descending(d) && k <= |d| && (k > 0 ==> d[k - 1] >= x)
    ensures |Insert(x, d, Negated)| == |d| + 1 && Insert(x, d, Negated)[..k] == d[..k]
  {
    InsertContents(x, d, Negated);
    if k > 0 {
      var r := Insert(x, d, Negated);
      if Negated(x) <= Negated(d[0]) {
        assert forall i | 0 <= i < k :: d[i] == x;
        assert forall i | 0 <= i < k :: r[i] == x;
      } else {
        InsertBelow(x, d[1..], k - 1);
        assert r[..k] == [d[0]] + Insert(x, d[1..], Negated)[..k - 1];
        assert d[..k] == [d[0]] + d[1..][..k - 1];
      }
    }
  }

  lemma SortDescends(s: seq<uint64>)
    ensures Descending(Sort(s, Negated)) && |Sort(s, Negated)| == |s|
  {
    SortSorted(s, Negated);
    SortContents(s, Negated);
    var d := Sort(s, Negated);
    assert forall i, j | 0 <= i < j < |d| :: Negated(d[i]) <= Negated(d[j]);
  }

  /** What is kept is descending, part of what there was, and nothing left out is larger. */
  lemma TopIs(k: nat, s: seq<uint64>)
    ensures |Top(k, s)| == if k < |s| then k else |s|
    ensures Descending(Top(k, s))
    ensures multiset(Top(k, s)) <= multiset(s)
    ensures forall x, t | x in multiset(s) - multiset(Top(k, s)) && t in Top(k, s) :: x <= t
  {
    hide Sort;
    SortDescends(s);
    SortContents(s, Negated);
    var d, n := Sort(s, Negated), |Top(k, s)|;
    assert Top(k, s) == d[..n];
    CutDescending(d, n);
  }

  /** The front of a descending list against what is left out. */
  lemma CutDescending(d: seq<uint64>, n: nat)
    requires Descending(d) && n <= |d|
    ensures multiset(d[..n]) <= multiset(d)
    ensures forall x, t | x in multiset(d) - multiset(d[..n]) && t in d[..n] :: x <= t
  {
    assert d == d[..n] + d[n..];
    LeftOut(d[..n], d[n..]);
    forall x, t | x in d[n..] && t in d[..n]
      ensures x <= t
    {
      var i :| 0 <= i < |d| - n && d[n..][i] == x;
      var j :| 0 <= j < n && d[..n][j] == t;
      assert d[j] >= d[n + i];
    }
  }

  lemma LeftOut(a: seq<uint64>, b: seq<uint64>)
    ensures multiset(a) <= multiset(a + b)
    ensures forall x | x in multiset(a + b) - multiset(a) :: x in b
  {
    assert multiset(a + b) - multiset(a) == multiset(b);
  }

  /** k of the elements of s, at the front of its descending order, are no smaller than x. */
  ghost predicate Dominated(k: nat, x: uint64, s: seq<uint64>) {
    k <= |s| && |Sort(s, Negated)| == |s| && (k > 0 ==> Sort(s, Negated)[k - 1] >= x)
  }

  /** An element that k others match or beat does not change the k largest. */
  lemma TopIgnores(k: nat, x: uint64, s: seq<uint64>)
    requires Dominated(k, x, s)
    ensures Top(k, [x] + s) == Top(k, s)
  {
    SortDescends(s);
    SortDescends([x] + s);
    assert ([x] + s)[1..] == s;
    InsertBelow(x, Sort(s, Negated), k);
  }

  /** Adding elements keeps domination. */
  lemma StillDominated(k: nat, x: uint64, s: seq<uint64>, y: uint64)
    requires Dominated(k, x, s)
    ensures Dominated(k, x, [y] + s)
  {
    SortDescends(s);
    SortDescends([y] + s);
    assert ([y] + s)[1..] == s;
    InsertRaises(y, Sort(s, Negated), k);
  }

  lemma {:induction false} InsertRaises(y: uint64, d: seq<uint64>, k: nat)
    requires Descending(d) && k <= |d|
    ensures |Insert(y, d, Negated)| == |d| + 1
    ensures k > 0 ==> Insert(y, d, Negated)[k - 1] >= d[k - 1]
  {
    if d != [] && Negated(y) > Negated(d[0]) {
      InsertRaises(y, d[1..], if k > 0 then k - 1 else 0);
      InsertContents(y, d, Negated);
    }
  }

  lemma {:induction false} StillDominatedAll(k: nat, x: uint64, s: seq<uint64>, more: seq<uint64>)
    requires Dominated(k, x, s)
    ensures Dominated(k, x, more + s)
  {
    if more == [] {
      assert more + s == s;
    } else {
      StillDominatedAll(k, x, s, more[1..]);
      StillDominated(k, x, more[1..] + s, more[0]);
      assert more + s == [more[0]] + (more[1..] + s);
    }
  }

  /** Elements dominated by s add nothing to what s and others contribute. */
  lemma {:induction false} TopIgnoresAll(k: nat, xs: seq<uint64>, s: seq<uint64>, more: seq<uint64>)
    requires forall i | 0 <= i < |xs| :: Dominated(k, xs[i], s)
    ensures Top(k, xs + (more + s)) == Top(k, more + s)
  {
    if xs == [] {
      assert xs + (more + s) == more + s;
    } else {
      TopIgnoresAll(k, xs[1..], s, more);
      StillDominatedAll(k, xs[0], s, xs[1..] + more);
      assert xs[1..] + more + s == xs[1..] + (more + s);
      TopIgnores(k, xs[0], xs[1..] + (more + s));
      assert xs + (more + s) == [xs[0]] + (xs[1..] + (more + s));
    }
  }

  lemma {:induction false} SortOfDescending(d: seq<uint64>)
    requires Descending(d)
    ensures Sort(d, Negated) == d
  {
    if d != [] {
      SortOfDescending(d[1..]);
      assert d == [d[0]] + d[1..];
    }
  }

  /** Keeping the j largest of one part loses nothing of the k largest of the whole, for k <= j. */
  lemma TopOfParts(k: nat, j: nat, part: seq<uint64>, rest: seq<uint64>)
    requires k <= j
    ensures Top(k, rest + Top(j, part)) == Top(k, rest + part)
  {
    var d := Sort(part, Negated);
    SortDescends(part);
    SortContents(part, Negated);
    var kept := Top(j, part);
    if |d| > j {
      var lost := d[j..];
      assert d == kept + lost;
      SortOfDescending(kept);
      forall i | 0 <= i < |lost|
        ensures Dominated(k, lost[i], kept)
      {
        assert lost[i] == d[j + i];
      }
      TopIgnoresAll(k, lost, kept, rest);
      assert multiset(lost + (rest + kept)) == multiset(rest) + multiset(d) == multiset(rest + part);
      TopOfContents(k, lost + (rest + kept), rest + part);
    } else {
      assert kept == d;
      TopOfContents(k, rest + kept, rest + part);
    }
  }

  // ---------- the ranking object ----------

  /** The list has the k best of what was offered, and nothing that was not. */
  ghost predicate Stands(k: nat, list: seq<UniqueOPRData>, offered: seq<UniqueOPRData>) {
    Top(k, Difficulties(list)) == Top(k, Difficulties(offered)) && multiset(list) <= multiset(offered)
  }

  class NonceRanking {
    const Keep: nat
    var List: seq<UniqueOPRData>      // the slots in use
    var MinimumDifficulty: uint64
    var WorstDiff: uint64
    var WorstIndex: nat
    var taken: nat
    ghost var offered: seq<UniqueOPRData>   // everything not below the minimum, in order

    /** The worst difficulty is at the true minimum, and the list holds the best of what was offered. */
    ghost predicate Valid()
      reads this
    {
      && Keep >= 1 && taken == |List| == (if |offered| < Keep then |offered| else Keep)
      && WorstIsWorst()
      && Stands(Keep, List, offered)
    }

    ghost predicate WorstIsWorst()
      reads this
    {
      && (|List| > 0 ==> WorstIndex < |List| && List[WorstIndex].difficulty == WorstDiff)
      && (forall i | 0 <= i < |List| :: List[i].difficulty >= WorstDiff)
    }

    constructor (keep: nat)
      requires keep >= 1
      ensures Valid() && Keep == keep && offered == [] && MinimumDifficulty == 0
    {
      Keep, List, MinimumDifficulty, WorstDiff, WorstIndex, taken, offered := keep, [], 0, 0, 0, 0, [];
    }

    /** The nonce is copied out of the caller's slice, which the miner goes on counting in. */
    method AddNonce(nonce: array<byte>, difficulty: uint64) returns (added: bool)
      requires Valid()
      modifies this
      ensures Valid() && MinimumDifficulty == old(MinimumDifficulty)
      ensures offered
        == old(offered) + if difficulty < MinimumDifficulty then [] else [UniqueOPRData(nonce[..], difficulty)]
      ensures added <==>
        difficulty >= MinimumDifficulty && (|old(List)| < Keep || difficulty >= old(WorstDiff))
      ensures !added ==> List == old(List)
    {
      hide Stands;
      if difficulty < MinimumDifficulty {
        return false;
      }
      added := Offer(UniqueOPRData(nonce[..], difficulty));
    }

    /** A nonce that meets the minimum. */
    method Offer(u: UniqueOPRData) returns (added: bool)
      requires Valid()
      modifies this
      ensures Valid() && MinimumDifficulty == old(MinimumDifficulty) && offered == old(offered) + [u]
      ensures added <==> |old(List)| < Keep || u.difficulty >= old(WorstDiff)
      ensures !added ==> List == old(List)
    {
      hide Stands, Top, Difficulties;
      ghost var before := offered;
      offered := offered + [u];
      if taken < Keep {
        RoomKeepsTop(Keep, List, before, u);
        TakeSlot(u);
        return true;
      }
      if u.difficulty < WorstDiff {
        RejectedKeepsTop(Keep, List, before, u);
        return false;
      }
      ReplacedKeepsTop(Keep, List, before, WorstIndex, u);
      ReplaceWorst(u);
      return true;
    }

    /** The next free slot; a first or worse entry becomes the worst. */
    method TakeSlot(u: UniqueOPRData)
      requires taken == |List| && WorstIsWorst()
      modifies this`List, this`WorstDiff, this`WorstIndex, this`taken
      ensures List == old(List) + [u] && taken == |List| && WorstIsWorst()
    {
      List := List + [u];
      if taken == 0 || u.difficulty < WorstDiff {
        WorstDiff := u.difficulty;
        WorstIndex := taken;
      }
      taken := taken + 1;
    }

    /** The full list: the worst slot is overwritten and the worst looked up again. */
    method ReplaceWorst(u: UniqueOPRData)
      requires |List| > 0 && WorstIsWorst()
      modifies this`List, this`WorstDiff, this`WorstIndex
      ensures List == old(List)[old(WorstIndex) := u] && WorstIsWorst()
    {
      List := List[WorstIndex := u];
      WorstDiff := u.difficulty;
      for i := 0 to |List|
        invariant List == old(List)[old(WorstIndex) := u]
        invariant WorstIndex < |List| && List[WorstIndex].difficulty == WorstDiff
        invariant forall k | 0 <= k < i :: List[k].difficulty >= WorstDiff
      {
        if List[i].difficulty < WorstDiff {
          WorstDiff := List[i].difficulty;
          WorstIndex := i;
        }
      }
    }

    /** Sorts the list; the position of the worst is stale afterwards, so this ends the ranking's life. */
    method GetNonces() returns (r: seq<UniqueOPRData>)
      requires Valid()
      modifies this`List
      ensures r == List && SortedByRank(r) && multiset(r) == multiset(old(List))
      ensures Difficulties(r) == Top(Keep, Difficulties(offered))
      ensures multiset(r) <= multiset(offered)
    {
      assert List[..taken] == List;
      List := SortNonceRanks(List[..taken]);
      RankedDifficulties(Keep, List, old(List));
      return List;
    }
  }

  ghost predicate SortedByRank(s: seq<UniqueOPRData>) {
    forall i, j | 0 <= i < j < |s| :: s[i].difficulty >= s[j].difficulty
  }

  /** sort.Slice is not stable: callers may rely on the order by difficulty only. */
  method SortNonceRanks(list: seq<UniqueOPRData>) returns (r: seq<UniqueOPRData>)
    ensures multiset(r) == multiset(list) && SortedByRank(r)
  {
    var key := (u: UniqueOPRData) => Negated(u.difficulty);
    r := Sort(list, key);
    SortContents(list, key);
    SortSorted(list, key);
    assert forall i, j | 0 <= i < j < |r| :: key(r[i]) <= key(r[j]);
  }

  lemma DifficultiesAppend(s: seq<UniqueOPRData>, u: UniqueOPRData)
    ensures Difficulties(s + [u]) == Difficulties(s) + [u.difficulty]
  {
  }

  lemma RankedDifficulties(k: nat, r: seq<UniqueOPRData>, list: seq<UniqueOPRData>)
    requires multiset(r) == multiset(list) && SortedByRank(r) && |list| <= k
    ensures Difficulties(r) == Top(k, Difficulties(list))
  {
    MapContents(r, list, Difficulty);
    TopOfContents(k, Difficulties(r), Difficulties(list));
    SortOfDescending(Difficulties(r));
    SameSize(r, list);
  }

  /** The list so far stands for everything offered so far. */
  lemma AppendBoth(k: nat, list: seq<UniqueOPRData>, offered: seq<UniqueOPRData>, u: UniqueOPRData)
    requires Top(k, Difficulties(list)) == Top(k, Difficulties(offered))
    ensures Top(k, Difficulties(list + [u])) == Top(k, Difficulties(offered + [u]))
  {
    var x, a, b := [u.difficulty], Difficulties(list), Difficulties(offered);
    DifficultiesAppend(list, u);
    DifficultiesAppend(offered, u);
    TopOfContents(k, a + x, x + a);
    TopOfContents(k, b + x, x + b);
    TopOfParts(k, k, a, x);
    TopOfParts(k, k, b, x);
  }

  lemma RoomKeepsTop(k: nat, list: seq<UniqueOPRData>, offered: seq<UniqueOPRData>, u: UniqueOPRData)
    requires Stands(k, list, offered)
    ensures Stands(k, list + [u], offered + [u])
  {
    AppendBoth(k, list, offered, u);
  }

  lemma AllDominate(k: nat, x: uint64, s: seq<uint64>)
    requires k == |s| && forall i | 0 <= i < |s| :: s[i] >= x
    ensures Dominated(k, x, s)
  {
    var d := Sort(s, Negated);
    SortContents(s, Negated);
    SortDescends(s);
    if k > 0 {
      assert d[k - 1] in multiset(d) && d[k - 1] in s;
    }
  }

  lemma RejectedKeepsTop(k: nat, list: seq<UniqueOPRData>, offered: seq<UniqueOPRData>, u: UniqueOPRData)
    requires Stands(k, list, offered)
    requires |list| == k && forall i | 0 <= i < k :: list[i].difficulty >= u.difficulty
    ensures Stands(k, list, offered + [u])
  {
    AppendBoth(k, list, offered, u);
    AllDominate(k, u.difficulty, Difficulties(list));
    TopIgnores(k, u.difficulty, Difficulties(list));
    DifficultiesAppend(list, u);
    TopOfContents(k, Difficulties(list) + [u.difficulty], [u.difficulty] + Difficulties(list));
  }

  lemma ReplacedKeepsTop(k: nat, list: seq<UniqueOPRData>, offered: seq<UniqueOPRData>, w: nat, u: UniqueOPRData)
    requires Stands(k, list, offered)
    requires |list| == k && w < k && u.difficulty >= list[w].difficulty
    requires forall i | 0 <= i < k :: list[i].difficulty >= list[w].difficulty
    ensures Stands(k, list[w := u], offered + [u])
  {
    hide Top;
    var next, replaced := list[w := u], list[w];
    AppendBoth(k, list, offered, u);
    AllDominate(k, replaced.difficulty, Difficulties(next));
    TopIgnores(k, replaced.difficulty, Difficulties(next));
    ReplacedContents(list, w, u);
    MapContents(list + [u], [replaced] + next, Difficulty);
    assert Difficulties([replaced] + next) == [replaced.difficulty] + Difficulties(next);
    TopOfContents(k, Difficulties(list + [u]), Difficulties([replaced] + next));
  }

  lemma ReplacedContents(list: seq<UniqueOPRData>, w: nat, u: UniqueOPRData)
    requires w < |list|
    ensures multiset(list[w := u]) == multiset(list) - multiset{list[w]} + multiset{u}
    ensures multiset(list + [u]) == multiset([list[w]] + list[w := u])
  {
  }

  // ---------- merging ----------

  /** Everything offered to any of the rankings; a cancelled miner sent none. */
  ghost function AllOffered(rankings: seq<NonceRanking?>): seq<UniqueOPRData>
    reads rankings
  {
    if rankings == [] then []
    else
      var last := rankings[|rankings| - 1];
      AllOffered(rankings[..|rankings| - 1]) + if last == null then [] else last.offered
  }

  ghost predicate Mergeable(keep: nat, rankings: seq<NonceRanking?>)
    reads rankings
  {
    && (forall i, j | 0 <= i < j < |rankings| :: rankings[i] != null ==> rankings[i] != rankings[j])
    && (forall i | 0 <= i < |rankings| && rankings[i] != null :: rankings[i].Valid() && rankings[i].Keep >= keep)
  }

  lemma JoinStands(k: nat, list: seq<UniqueOPRData>, offered: seq<UniqueOPRData>, j: nat,
      r: seq<UniqueOPRData>, more: seq<UniqueOPRData>)
    requires Stands(k, list, offered) && k <= j
    requires Difficulties(r) == Top(j, Difficulties(more)) && multiset(r) <= multiset(more)
    ensures Stands(k, list + r, offered + more)
  {
    hide Top;
    var a, b, c := Difficulties(list), Difficulties(offered), Difficulties(more);
    assert Difficulties(list + r) == a + Top(j, c);
    assert Difficulties(offered + more) == b + c;
    TopOfParts(k, j, c, a);
    TopOfContents(k, a + c, c + a);
    TopOfContents(k, b + c, c + b);
    TopOfParts(k, k, a, c);
    TopOfParts(k, k, b, c);
  }

  /** The lists of all rankings in one, each of them sorted in place on the way. */
  method Gather(keep: nat, rankings: seq<NonceRanking?>) returns (list: seq<UniqueOPRData>)
    requires Mergeable(keep, rankings)
    modifies rankings
    ensures Stands(keep, list, AllOffered(rankings))
    ensures forall j | 0 <= j < |rankings| && rankings[j] != null :: rankings[j].offered == old(rankings[j].offered)
  {
    hide Stands;
    list := [];
    assert Stands(keep, list, AllOffered([])) by { NothingStands(keep); }
    for i := 0 to |rankings|
      invariant forall j | 0 <= j < |rankings| && rankings[j] != null :: rankings[j].offered == old(rankings[j].offered)
      invariant forall j | i <= j < |rankings| && rankings[j] != null :: rankings[j].Valid()
      invariant Stands(keep, list, AllOffered(rankings[..i]))
    {
      assert rankings[..i + 1][..i] == rankings[..i];
      var l := rankings[i];
      if l != null {
        ghost var before := AllOffered(rankings[..i]);
        SameOffered(rankings[..i]);
        var nonces := l.GetNonces();
        SameOffered(rankings[..i]);
        JoinStands(keep, list, before, l.Keep, nonces, l.offered);
        list := list + nonces;
      } else {
        assert AllOffered(rankings[..i]) + [] == AllOffered(rankings[..i]);
      }
    }
    assert rankings[..|rankings|] == rankings;
  }

  lemma NothingStands(k: nat)
    ensures Stands(k, [], [])
  {
  }

  /** A new ranking fed with a list. */
  method Rebuild(keep: nat, list: seq<UniqueOPRData>) returns (n: NonceRanking)
    requires keep >= 1
    ensures fresh(n) && n.Valid() && n.Keep == keep && n.offered == list
  {
    hide Stands, Top;
    n := new NonceRanking(keep);
    for i := 0 to |list|
      invariant n.Valid() && n.Keep == keep && n.MinimumDifficulty == 0 && fresh(n)
      invariant n.offered == list[..i]
    {
      var v := list[i];
      var nonce := new byte[|v.nonce|](k requires 0 <= k < |v.nonce| => v.nonce[k]);
      assert nonce[..] == v.nonce;
      var added := n.AddNonce(nonce, v.difficulty);
    }
    assert list[..|list|] == list;
  }

  /**
    MergeNonceRankings: the merged ranking stands for everything offered to any miner, provided no
    miner kept fewer than the merge keeps.
   */
  method MergeNonceRankings(keep: nat, rankings: seq<NonceRanking?>) returns (n: NonceRanking)
    requires keep >= 1 && Mergeable(keep, rankings)
    modifies rankings
    ensures fresh(n) && n.Valid() && n.Keep == keep
    ensures Stands(keep, n.offered, AllOffered(rankings))
    ensures AllOffered(rankings) == old(AllOffered(rankings))
  {
    var gathered := Gather(keep, rankings);
    var list := SortNonceRanks(gathered);
    n := Rebuild(keep, list);
    SameOffered(rankings);
    Reordered(keep, list, gathered, AllOffered(rankings));
  }

  lemma Reordered(k: nat, list: seq<UniqueOPRData>, gathered: seq<UniqueOPRData>, offered: seq<UniqueOPRData>)
    requires multiset(list) == multiset(gathered) && Stands(k, gathered, offered)
    ensures Stands(k, list, offered)
  {
    MapContents(list, gathered, Difficulty);
    TopOfContents(k, Difficulties(list), Difficulties(gathered));
  }

  twostate lemma SameOffered(rankings: seq<NonceRanking?>)
    requires forall j | 0 <= j < |rankings| && rankings[j] != null :: rankings[j].offered == old(rankings[j].offered)
    ensures AllOffered(rankings) == old(AllOffered(rankings))
  {
    if rankings != [] {
      SameOffered(rankings[..|rankings| - 1]);
    }
  }

  /** What collectAndWrite writes: the best of everything offered to any miner, best first. */
  method CollectTop(keep: nat, rankings: seq<NonceRanking?>) returns (nonces: seq<UniqueOPRData>)
    requires keep >= 1 && Mergeable(keep, rankings)
    modifies rankings
    ensures AllOffered(rankings) == old(AllOffered(rankings))
    ensures Difficulties(nonces) == Top(keep, Difficulties(AllOffered(rankings)))
    ensures multiset(nonces) <= multiset(AllOffered(rankings))
  {
    hide Top, Difficulties;
    var final := MergeNonceRankings(keep, rankings);
    nonces := final.GetNonces();
  }
}
