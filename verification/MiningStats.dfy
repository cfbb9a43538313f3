/** The mining statistics of the latest blocks (mining/stats.go). */
module MiningStats {
  import opened Common
  import opened Sequences
  import opened StableSort

  const MAX_GLOBAL_STATS_BUCKETS: nat := 250

  /** What one coordinator reports for a block: the hashes of each of its miners. */
  datatype GroupMinerStats = GroupMinerStats(blockHeight: int, id: string, miners: map<nat, nat>)

  datatype StatisticBucket = StatisticBucket(blockHeight: int, groupStats: map<string, GroupMinerStats>)

  function ByHeight(b: StatisticBucket): real {
    -(b.blockHeight as real)
  }

  /** The latest report of each coordinator for a block. */
  function GroupsOf(log: seq<GroupMinerStats>, height: int): map<string, GroupMinerStats> {
    if log == [] then map[]
    else
      var g, earlier := log[|log| - 1], GroupsOf(log[..|log| - 1], height);
      if g.blockHeight == height then earlier[g.id := g] else earlier
  }

  ghost predicate Reported(log: seq<GroupMinerStats>, height: int) {
    exists i :: 0 <= i < |log| && log[i].blockHeight == height
  }

  predicate Holds(list: seq<StatisticBucket>, height: int) {
    exists i :: 0 <= i < |list| && list[i].blockHeight == height
  }

  /** Strictly descending heights. */
  ghost predicate Descending(list: seq<StatisticBucket>) {
    forall i, j | 0 <= i < j < |list| :: list[i].blockHeight > list[j].blockHeight
  }

  /** What was reported is held, unless the list is full of higher blocks. */
  ghost predicate KeepsHighest(list: seq<StatisticBucket>, log: seq<GroupMinerStats>) {
    && |list| <= MAX_GLOBAL_STATS_BUCKETS
    && (forall h | Reported(log, h) ::
      Holds(list, h) || (|list| == MAX_GLOBAL_STATS_BUCKETS && h < list[|list| - 1].blockHeight))
    && (forall i | 0 <= i < |list| :: Reported(log, list[i].blockHeight))
  }

  ghost predicate Complete(list: seq<StatisticBucket>, log: seq<GroupMinerStats>) {
    forall i | 0 <= i < |list| :: list[i].groupStats == GroupsOf(log, list[i].blockHeight)
  }

  // ---------- inserting ----------

  lemma SortDescends(list: seq<StatisticBucket>, b: StatisticBucket)
    requires Descending(list) && !Holds(list, b.blockHeight)
    ensures var r := Sort(list + [b], ByHeight);
      && Descending(r) && |r| == |list| + 1
      && forall x :: x in r <==> x in list || x == b
  {
    var all, r := list + [b], Sort(list + [b], ByHeight);
    SortContents(all, ByHeight);
    SortSorted(all, ByHeight);
    forall x
      ensures x in r <==> x in list || x == b
    {
      SortMember(all, ByHeight, x);
    }
    assert NoRepeats(all);
    SelectionOnce(r, all);
    forall i, j | 0 <= i < j < |r|
      ensures r[i].blockHeight > r[j].blockHeight
    {
      assert ByHeight(r[i]) <= ByHeight(r[j]);
      assert r[i] in r && r[j] in r && r[i] != r[j];
      DistinctHeights(list, b, r[i], r[j]);
    }
  }

  lemma DistinctHeights(list: seq<StatisticBucket>, b: StatisticBucket, x: StatisticBucket, y: StatisticBucket)
    requires Descending(list) && !Holds(list, b.blockHeight) && x != y
    requires (x in list || x == b) && (y in list || y == b)
    ensures x.blockHeight != y.blockHeight
  {
  }

  /** A bucket for a new block, the list cut to its 250 highest again. */
  lemma AddedKeepsHighest(list: seq<StatisticBucket>, log: seq<GroupMinerStats>, g: GroupMinerStats,
      b: StatisticBucket, next: seq<StatisticBucket>)
    requires Descending(list) && KeepsHighest(list, log) && b.blockHeight == g.blockHeight && !Holds(list, b.blockHeight)
    requires var r := Sort(list + [b], ByHeight);
      next == if |r| > MAX_GLOBAL_STATS_BUCKETS then r[..MAX_GLOBAL_STATS_BUCKETS] else r
    ensures Descending(next) && KeepsHighest(next, log + [g])
    ensures forall x | x in next :: x in list || x == b
  {
    var r := Sort(list + [b], ByHeight);
    SortDescends(list, b);
    assert forall x | x in next :: x in r;
    forall h | Reported(log + [g], h)
      ensures Holds(next, h) || (|next| == MAX_GLOBAL_STATS_BUCKETS && h < next[|next| - 1].blockHeight)
    {
      Highest(list, log, g, b, r, next, h);
    }
    forall i | 0 <= i < |next|
      ensures Reported(log + [g], next[i].blockHeight)
    {
      ReportedMore(log, g, next[i].blockHeight);
      assert next[i] in next;
      if next[i] in list {
        var k :| 0 <= k < |list| && list[k] == next[i];
      }
    }
  }

  lemma ReportedMore(log: seq<GroupMinerStats>, g: GroupMinerStats, h: int)
    ensures Reported(log + [g], h) <==> Reported(log, h) || g.blockHeight == h
  {
    assert (log + [g])[|log|] == g;
    if Reported(log, h) {
      var i :| 0 <= i < |log| && log[i].blockHeight == h;
      assert (log + [g])[i].blockHeight == h;
    }
  }

  lemma Highest(list: seq<StatisticBucket>, log: seq<GroupMinerStats>, g: GroupMinerStats, b: StatisticBucket,
      r: seq<StatisticBucket>, next: seq<StatisticBucket>, h: int)
    requires Descending(list) && KeepsHighest(list, log) && b.blockHeight == g.blockHeight
    requires Descending(r) && |r| == |list| + 1 && forall x :: x in r <==> x in list || x == b
    requires next == if |r| > MAX_GLOBAL_STATS_BUCKETS then r[..MAX_GLOBAL_STATS_BUCKETS] else r
    requires Reported(log + [g], h)
    ensures Holds(next, h) || (|next| == MAX_GLOBAL_STATS_BUCKETS && h < next[|next| - 1].blockHeight)
  {
    ReportedMore(log, g, h);
    if h == b.blockHeight || Holds(list, h) {
      Kept(list, b, r, h);
      var j :| 0 <= j < |r| && r[j].blockHeight == h;
      if j < |next| { assert next[j].blockHeight == h; }
    } else {
      assert r[|r| - 2] in r && r[|r| - 1] in r;
    }
  }

  lemma Kept(list: seq<StatisticBucket>, b: StatisticBucket, r: seq<StatisticBucket>, h: int)
    requires forall x :: x in r <==> x in list || x == b
    requires h == b.blockHeight || Holds(list, h)
    ensures Holds(r, h)
  {
    var x := if k :| 0 <= k < |list| && list[k].blockHeight == h then list[k] else b;
    assert x in r;
    var j :| 0 <= j < |r| && r[j] == x;
  }

  lemma GroupsAppend(log: seq<GroupMinerStats>, g: GroupMinerStats, h: int)
    ensures GroupsOf(log + [g], h) == if g.blockHeight == h then GroupsOf(log, h)[g.id := g] else GroupsOf(log, h)
  {
    assert (log + [g])[..|log|] == log;
  }

  /** A coordinator's last report for a block is the one kept, and only those that reported are there. */
  lemma {:induction false} LatestReport(log: seq<GroupMinerStats>, h: int, id: string)
    ensures id in GroupsOf(log, h) <==> exists i :: 0 <= i < |log| && log[i].blockHeight == h && log[i].id == id
    ensures forall i | 0 <= i < |log| && log[i].blockHeight == h && log[i].id == id ::
      (forall j | i < j < |log| :: log[j].blockHeight != h || log[j].id != id) ==> GroupsOf(log, h)[id] == log[i]
  {
    if log != [] {
      var k := |log| - 1;
      LatestReport(log[..k], h, id);
      assert forall i | 0 <= i < k :: log[..k][i] == log[i];
    }
  }

  lemma {:induction false} GroupsNone(log: seq<GroupMinerStats>, h: int)
    requires !Reported(log, h)
    ensures GroupsOf(log, h) == map[]
  {
    if log != [] {
      var init, g := log[..|log| - 1], log[|log| - 1];
      assert log == init + [g];
      ReportedMore(init, g, h);
      GroupsNone(init, h);
    }
  }

  lemma AddedComplete(list: seq<StatisticBucket>, log: seq<GroupMinerStats>, g: GroupMinerStats,
      b: StatisticBucket, next: seq<StatisticBucket>)
    requires Descending(list) && KeepsHighest(list, log) && Complete(list, log) && !Holds(list, b.blockHeight)
    requires b == StatisticBucket(g.blockHeight, map[g.id := g])
    requires var r := Sort(list + [b], ByHeight);
      next == if |r| > MAX_GLOBAL_STATS_BUCKETS then r[..MAX_GLOBAL_STATS_BUCKETS] else r
    ensures Complete(next, log + [g])
  {
    SortDescends(list, b);
    var r := Sort(list + [b], ByHeight);
    forall i | 0 <= i < |next|
      ensures next[i].groupStats == GroupsOf(log + [g], next[i].blockHeight)
    {
      GroupsAppend(log, g, next[i].blockHeight);
      assert next[i] == r[i] && r[i] in r;
      if next[i] == b {
        FirstReport(list, log, b, r, i);
        GroupsNone(log, b.blockHeight);
      } else {
        var k :| 0 <= k < |list| && list[k] == next[i];
      }
    }
  }

  /** A new bucket that stays is for a block nothing was reported for. */
  lemma FirstReport(list: seq<StatisticBucket>, log: seq<GroupMinerStats>, b: StatisticBucket,
      r: seq<StatisticBucket>, i: nat)
    requires Descending(list) && KeepsHighest(list, log) && !Holds(list, b.blockHeight)
    requires Descending(r) && |r| == |list| + 1 && forall x :: x in r <==> x in list || x == b
    requires i < |r| && i < MAX_GLOBAL_STATS_BUCKETS && r[i] == b
    ensures !Reported(log, b.blockHeight)
  {
    assert r[|r| - 1] in r;
  }

  lemma UpdatedBucket(list: seq<StatisticBucket>, log: seq<GroupMinerStats>, g: GroupMinerStats, i: nat,
      next: seq<StatisticBucket>)
    requires Descending(list) && KeepsHighest(list, log) && Complete(list, log)
    requires i < |list| && list[i].blockHeight == g.blockHeight
    requires next == list[i := list[i].(groupStats := list[i].groupStats[g.id := g])]
    ensures Descending(next) && KeepsHighest(next, log + [g]) && Complete(next, log + [g])
  {
    assert forall k | 0 <= k < |list| :: next[k].blockHeight == list[k].blockHeight;
    forall h | Reported(log + [g], h)
      ensures Holds(next, h) || (|next| == MAX_GLOBAL_STATS_BUCKETS && h < next[|next| - 1].blockHeight)
    {
      ReportedMore(log, g, h);
      if Holds(list, h) {
        var k :| 0 <= k < |list| && list[k].blockHeight == h;
        assert next[k].blockHeight == h;
      }
    }
    forall k | 0 <= k < |next|
      ensures Reported(log + [g], next[k].blockHeight) && next[k].groupStats == GroupsOf(log + [g], next[k].blockHeight)
    {
      ReportedMore(log, g, next[k].blockHeight);
      GroupsAppend(log, g, next[k].blockHeight);
    }
  }

  // ---------- the 250 highest ----------

  function HeightsOf(log: seq<GroupMinerStats>): set<int> {
    set g | g in log :: g.blockHeight
  }

  function Above(log: seq<GroupMinerStats>, h: int): set<int> {
    set x | x in HeightsOf(log) && x > h
  }

  function ListHeights(list: seq<StatisticBucket>): set<int> {
    set b | b in list :: b.blockHeight
  }

  lemma {:induction false} ListHeightsCount(list: seq<StatisticBucket>)
    requires Descending(list)
    ensures |ListHeights(list)| == |list|
  {
    if list != [] {
      var init, b := list[..|list| - 1], list[|list| - 1];
      ListHeightsCount(init);
      assert forall x :: x in list <==> x in init || x == b;
      assert ListHeights(list) == ListHeights(init) + {b.blockHeight};
    }
  }

  /** The blocks held are the reported ones that fewer than 250 reported blocks are above. */
  lemma HeldIffHighest(list: seq<StatisticBucket>, log: seq<GroupMinerStats>, h: int)
    requires Descending(list) && KeepsHighest(list, log)
    ensures Holds(list, h) <==> Reported(log, h) && |Above(log, h)| < MAX_GLOBAL_STATS_BUCKETS
  {
    if i :| 0 <= i < |list| && list[i].blockHeight == h {
      AboveIsFront(list, log, i);
      ListHeightsCount(list[..i]);
    } else if Reported(log, h) {
      ListHeightsCount(list);
      forall x | x in ListHeights(list)
        ensures x in Above(log, h)
      {
        var b :| b in list && b.blockHeight == x;
        InHeights(log, x);
      }
      SubsetCount(ListHeights(list), Above(log, h));
    }
  }

  lemma SubsetCount(a: set<int>, b: set<int>)
    requires a <= b
    ensures |a| <= |b|
  {
    assert b == a + (b - a);
  }

  lemma InHeights(log: seq<GroupMinerStats>, h: int)
    ensures Reported(log, h) <==> h in HeightsOf(log)
  {
    if Reported(log, h) {
      var i :| 0 <= i < |log| && log[i].blockHeight == h;
      assert log[i] in log;
    }
  }

  lemma AboveIsFront(list: seq<StatisticBucket>, log: seq<GroupMinerStats>, i: nat)
    requires Descending(list) && KeepsHighest(list, log) && i < |list|
    ensures Above(log, list[i].blockHeight) == ListHeights(list[..i])
  {
    forall x
      ensures x in Above(log, list[i].blockHeight) <==> x in ListHeights(list[..i])
    {
      InHeights(log, x);
      if x in ListHeights(list[..i]) {
        var b :| b in list[..i] && b.blockHeight == x;
        var k :| 0 <= k < i && list[k] == b;
      }
      if x in Above(log, list[i].blockHeight) {
        assert Holds(list, x);
        var k :| 0 <= k < |list| && list[k].blockHeight == x;
        assert list[k] in list[..i];
      }
    }
  }

  // ---------- the tracker ----------

  class GlobalStatTracker {
    var miningStatistics: seq<StatisticBucket>
    ghost var log: seq<GroupMinerStats>      // everything ever inserted

    ghost predicate Valid()
      reads this
    {
      Descending(miningStatistics) && KeepsHighest(miningStatistics, log) && Complete(miningStatistics, log)
    }

    constructor ()
      ensures Valid() && log == []
    {
      miningStatistics, log := [], [];
    }

    /** sort.Search: the first bucket that is not above the height. */
    method Search(height: int) returns (i: nat)
      requires Descending(miningStatistics)
      ensures i <= |miningStatistics|
      ensures forall k | 0 <= k < i :: miningStatistics[k].blockHeight > height
      ensures forall k | i <= k < |miningStatistics| :: miningStatistics[k].blockHeight <= height
    {
      var j := |miningStatistics|;
      i := 0;
      while i < j
        invariant i <= j <= |miningStatistics|
        invariant forall k | 0 <= k < i :: miningStatistics[k].blockHeight > height
        invariant forall k | j <= k < |miningStatistics| :: miningStatistics[k].blockHeight <= height
      {
        var h := (i + j) / 2;
        if miningStatistics[h].blockHeight <= height { j := h; } else { i := h + 1; }
      }
    }

    method Fetch(height: int) returns (found: bool, i: nat)
      requires Valid()
      ensures found <==> Holds(miningStatistics, height)
      ensures found ==> i < |miningStatistics| && miningStatistics[i] == StatisticBucket(height, GroupsOf(log, height))
    {
      i := Search(height);
      found := i < |miningStatistics| && miningStatistics[i].blockHeight == height;
    }

    /** A report joins the bucket of its block, or makes one, which may push the lowest block out. */
    method Insert(g: GroupMinerStats)
      requires Valid()
      modifies this
      ensures Valid() && log == old(log) + [g]
    {
      var found, i := Fetch(g.blockHeight);
      ghost var before, old_ := log, miningStatistics;
      log := log + [g];
      if found {
        var bucket := miningStatistics[i];
        miningStatistics := miningStatistics[i := bucket.(groupStats := bucket.groupStats[g.id := g])];
        UpdatedBucket(old_, before, g, i, miningStatistics);
      } else {
        var bucket := StatisticBucket(g.blockHeight, map[g.id := g]);
        miningStatistics := Sort(miningStatistics + [bucket], ByHeight);
        if |miningStatistics| > MAX_GLOBAL_STATS_BUCKETS {
          miningStatistics := miningStatistics[..MAX_GLOBAL_STATS_BUCKETS];
        }
        AddedKeepsHighest(old_, before, g, bucket, miningStatistics);
        AddedComplete(old_, before, g, bucket, miningStatistics);
      }
    }
  }
}
