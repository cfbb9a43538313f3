/**
  What the chain says: which of its entry blocks hold a valid OPR block, who won, and what each
  winner is owed (opr/grader.go, opr/grading.go).
 */
module Ledger {
  import opened Common
  import opened StableSort
  import opened Grading
  import opened Averages
  import opened GradedBlock
  import opened LegacyGrading

  // ---------- the chain ----------

  /** An entry block; entries are given by what they contain. */
  datatype EBlock = EBlock(keyMr: string, prevKeyMr: string, sequence: nat, height: nat, entries: seq<seq<byte>>)

  /** 64 zeros. */
  function ZeroHash(): string {
    seq(64, _ => '0')
  }

  /** The k-th block names the key of the one before it. */
  predicate Linked(chain: seq<EBlock>, k: nat)
    requires k < |chain|
  {
    chain[k].prevKeyMr == KeyAt(chain, k)
  }

  /** Oldest first: linked by distinct key Merkle roots, in increasing sequence and height. */
  ghost predicate GoodChain(chain: seq<EBlock>) {
    && (forall k | 0 <= k < |chain| :: chain[k].keyMr != "" && chain[k].keyMr != ZeroHash())
    && (forall k | 0 <= k < |chain| :: Linked(chain, k))
    && (forall j, k | 0 <= j < k < |chain| ::
      chain[j].keyMr != chain[k].keyMr && chain[j].sequence < chain[k].sequence && chain[j].height < chain[k].height)
  }

  /** The key of the k-th block from the start; the zero hash comes before the first. */
  function KeyAt(chain: seq<EBlock>, k: nat): string
    requires k <= |chain|
  {
    if k == 0 then ZeroHash() else chain[k - 1].keyMr
  }

  // ---------- grading the chain ----------

  /**
    The rules of a network: the grading version and the number of assets by height, how an entry reads
    as a record given the previous winners (nothing if it is not a valid one), the proof of work, and
    the account of an address.
   */
  datatype Network = Network(
    version: nat -> Version,
    assets: nat -> nat,
    read: (seq<byte>, nat, Option<seq<Opr>>) -> Option<Opr>,
    pow: Pow,
    account: seq<byte> -> Option<(string, seq<byte>)>)

  datatype OprBlock = OprBlock(dbht: nat, oprs: seq<Opr>, graded: seq<Opr>, total: nat)

  function MinRecords(net: Network, dbht: nat): nat {
    WinnerAmount(net.version(dbht))
  }

  /** A record is only valid if it lists exactly the assets of its height. */
  function ReadEntry(net: Network, entry: seq<byte>, dbht: nat, prev: Option<seq<Opr>>): (r: Option<Opr>)
    ensures r.Some? ==> |r.value.assets| == net.assets(dbht)
  {
    var o := net.read(entry, dbht, prev);
    if o.Some? && |o.value.assets| == net.assets(dbht) then o else None
  }

  /** The valid records among the entries, in the order of the block. */
  function ReadAll(net: Network, entries: seq<seq<byte>>, dbht: nat, prev: Option<seq<Opr>>): (r: seq<Opr>)
    ensures |r| <= |entries| && Validated(r, net.assets(dbht))
  {
    if entries == [] then []
    else
      var k := |entries| - 1;
      var o := ReadEntry(net, entries[k], dbht, prev);
      ReadAll(net, entries[..k], dbht, prev) + if o.Some? then [o.value] else []
  }

  /** The OPR block in an entry block, if it holds enough entries, enough records, and enough of them survive. */
  function OprBlockOf(net: Network, block: EBlock, prev: Option<seq<Opr>>): (r: Option<OprBlock>)
    ensures r.Some? ==> r.value.dbht == block.height && |r.value.graded| >= MinRecords(net, block.height)
  {
    var min := MinRecords(net, block.height);
    var oprs := ReadAll(net, block.entries, block.height, prev);
    var graded := LegacyGrade(net.version(block.height), net.pow, oprs);
    if |block.entries| < min || |oprs| < min || |graded| < min then None
    else Some(OprBlock(block.height, oprs, graded, |oprs|))
  }

  /** The last known block below a height. */
  function PreviousBlock(blks: seq<OprBlock>, dbht: nat): (r: Option<OprBlock>)
    ensures r.Some? ==> r.value in blks
  {
    if blks == [] then None
    else if blks[|blks| - 1].dbht < dbht then Some(blks[|blks| - 1])
    else PreviousBlock(blks[..|blks| - 1], dbht)
  }

  ghost predicate AllGraded(net: Network, blks: seq<OprBlock>) {
    forall k | 0 <= k < |blks| :: |blks[k].graded| >= MinRecords(net, blks[k].dbht)
  }

  function PreviousWinners(net: Network, blks: seq<OprBlock>, dbht: nat): Option<seq<Opr>>
    requires AllGraded(net, blks)
  {
    var prev := PreviousBlock(blks, dbht);
    if prev.None? then None else Some(prev.value.graded[..MinRecords(net, prev.value.dbht)])
  }

  /** The valid OPR blocks of the chain, each graded against the winners before it. */
  function ValidBlocks(net: Network, chain: seq<EBlock>): (r: seq<OprBlock>)
    ensures AllGraded(net, r)
    decreases |chain|, 0
  {
    if chain == [] then []
    else
      var b := BlockAt(net, chain, |chain| - 1);
      ValidBlocks(net, chain[..|chain| - 1]) + if b.Some? then [b.value] else []
  }

  function BlockAt(net: Network, chain: seq<EBlock>, k: nat): (r: Option<OprBlock>)
    requires k < |chain|
    ensures r.Some? ==> r.value.dbht == chain[k].height && |r.value.graded| >= MinRecords(net, chain[k].height)
    decreases k, 1
  {
    OprBlockOf(net, chain[k], PreviousWinners(net, ValidBlocks(net, chain[..k]), chain[k].height))
  }

  lemma {:induction false} ValidHeights(net: Network, chain: seq<EBlock>, height: nat)
    requires forall k | 0 <= k < |chain| :: chain[k].height < height
    ensures forall b <- ValidBlocks(net, chain) :: b.dbht < height
    decreases |chain|
  {
    hide BlockAt;
    if chain != [] { ValidHeights(net, chain[..|chain| - 1], height); }
  }

  /**
    The winners a block is checked against are those of the nearest valid block before it, all of them
    and in their order, if there is one.
   */
  lemma NearestValid(net: Network, chain: seq<EBlock>, k: nat)
    requires GoodChain(chain) && k < |chain|
    ensures var before := ValidBlocks(net, chain[..k]);
      && PreviousBlock(before, chain[k].height) == (if before == [] then None else Some(before[|before| - 1]))
      && (before == [] ==> PreviousWinners(net, before, chain[k].height) == None)
      && (before != [] ==>
        var last := before[|before| - 1];
        var winners := if net.version(last.dbht) == V1 then 10 else 25;
        |last.graded| >= winners && PreviousWinners(net, before, chain[k].height) == Some(last.graded[..winners]))
  {
    hide ValidBlocks;
    ValidHeights(net, chain[..k], chain[k].height);
  }

  /** An entry is a record if it reads as one that lists a price for every asset of its height. */
  lemma ReadOne(net: Network, e: seq<byte>, dbht: nat, prev: Option<seq<Opr>>)
    ensures var o := net.read(e, dbht, prev);
      ReadAll(net, [e], dbht, prev) == if o.Some? && |o.value.assets| == net.assets(dbht) then [o.value] else []
  {
    assert [e][..0] == [];
  }

  /** The records of a block are read entry by entry, in order, each for itself. */
  lemma {:induction false} ReadInOrder(net: Network, a: seq<seq<byte>>, b: seq<seq<byte>>, dbht: nat, prev: Option<seq<Opr>>)
    ensures ReadAll(net, a + b, dbht, prev) == ReadAll(net, a, dbht, prev) + ReadAll(net, b, dbht, prev)
    decreases |b|
  {
    if b == [] {
      assert a + b == a;
    } else {
      var k := |b| - 1;
      assert (a + b)[..|a + b| - 1] == a + b[..k];
      ReadInOrder(net, a, b[..k], dbht, prev);
    }
  }

  /** A block's grading depends only on the chain before it: growth changes nothing. */
  lemma BlockAtPrefix(net: Network, chain: seq<EBlock>, longer: seq<EBlock>, k: nat)
    requires chain <= longer && k < |chain|
    ensures BlockAt(net, chain, k) == BlockAt(net, longer, k)
  {
    assert longer[..k] == chain[..k];
  }

  /** The same heights and graded lists; what else the block holds may have been lost in the store. */
  ghost predicate SameGraded(a: seq<OprBlock>, b: seq<OprBlock>) {
    |a| == |b| && forall k | 0 <= k < |a| :: a[k].dbht == b[k].dbht && a[k].graded == b[k].graded
  }

  lemma {:induction false} SamePrevious(net: Network, a: seq<OprBlock>, b: seq<OprBlock>, dbht: nat)
    requires SameGraded(a, b) && AllGraded(net, b)
    ensures AllGraded(net, a) && PreviousWinners(net, a, dbht) == PreviousWinners(net, b, dbht)
  {
    if a != [] && a[|a| - 1].dbht >= dbht {
      SamePrevious(net, a[..|a| - 1], b[..|b| - 1], dbht);
    }
  }

  // ---------- what is owed ----------

  /** A change of one account. */
  datatype Posting = Posting(account: (string, seq<byte>), value: int)

  /** The first n places of a block are owed their reward. */
  function Rewards(net: Network, b: OprBlock, n: nat): seq<Posting>
    requires n <= |b.graded|
  {
    if n == 0 then []
    else
      var reward := Payout(net.version(b.dbht), n - 1);
      var account := net.account(b.graded[n - 1].address);
      Rewards(net, b, n - 1) + if reward > 0 && account.Some? then [Posting(account.value, reward)] else []
  }

  /** All rewards of a list of blocks, block by block and place by place. */
  function AllRewards(net: Network, blks: seq<OprBlock>): seq<Posting>
    requires AllGraded(net, blks)
  {
    if blks == [] then []
    else
      var b := blks[|blks| - 1];
      AllRewards(net, blks[..|blks| - 1]) + Rewards(net, b, MinRecords(net, b.dbht))
  }

  lemma {:induction false} SameRewards(net: Network, a: seq<OprBlock>, b: seq<OprBlock>)
    requires SameGraded(a, b) && AllGraded(net, a) && AllGraded(net, b)
    ensures AllRewards(net, a) == AllRewards(net, b)
  {
    if a != [] {
      var k := |a| - 1;
      SameRewards(net, a[..k], b[..k]);
      SameBlockRewards(net, a[k], b[k], MinRecords(net, a[k].dbht));
    }
  }

  lemma {:induction false} SameBlockRewards(net: Network, a: OprBlock, b: OprBlock, n: nat)
    requires a.dbht == b.dbht && a.graded == b.graded && n <= |a.graded|
    ensures Rewards(net, a, n) == Rewards(net, b, n)
  {
    if n > 0 { SameBlockRewards(net, a, b, n - 1); }
  }

  /** The balance an account has after these postings. */
  function Owed(log: seq<Posting>, account: (string, seq<byte>)): int {
    if log == [] then 0
    else
      var p := log[|log| - 1];
      Owed(log[..|log| - 1], account) + if p.account == account then p.value else 0
  }

  lemma {:induction false} OwedAppend(a: seq<Posting>, b: seq<Posting>, account: (string, seq<byte>))
    ensures Owed(a + b, account) == Owed(a, account) + Owed(b, account)
  {
    if b == [] {
      assert a + b == a;
    } else {
      assert (a + b)[..|a + b| - 1] == a + b[..|b| - 1];
      OwedAppend(a, b[..|b| - 1], account);
    }
  }

  /** The sum of all postings. */
  function Volume(log: seq<Posting>): int {
    if log == [] then 0 else Volume(log[..|log| - 1]) + log[|log| - 1].value
  }

  lemma {:induction false} VolumeAppend(a: seq<Posting>, b: seq<Posting>)
    ensures Volume(a + b) == Volume(a) + Volume(b)
  {
    if b == [] {
      assert a + b == a;
    } else {
      assert (a + b)[..|a + b| - 1] == a + b[..|b| - 1];
      VolumeAppend(a, b[..|b| - 1]);
    }
  }

  /** Every winner has an account. */
  ghost predicate WinnersHaveAccounts(net: Network, blks: seq<OprBlock>)
    requires AllGraded(net, blks)
  {
    forall k, i | 0 <= k < |blks| && 0 <= i < MinRecords(net, blks[k].dbht) :: net.account(blks[k].graded[i].address).Some?
  }

  lemma {:induction false} BlockVolume(net: Network, b: OprBlock, n: nat)
    requires n <= |b.graded| && forall i | 0 <= i < n :: net.account(b.graded[i].address).Some?
    ensures Volume(Rewards(net, b, n)) == PaidToFirst(net.version(b.dbht), n)
  {
    if n > 0 {
      BlockVolume(net, b, n - 1);
      VolumeAppend(Rewards(net, b, n - 1), Rewards(net, b, n)[|Rewards(net, b, n - 1)|..]);
    }
  }

  /** The block rewards of a list of blocks, by version. */
  function TotalReward(net: Network, blks: seq<OprBlock>): int {
    if blks == [] then 0
    else TotalReward(net, blks[..|blks| - 1]) + BlockReward(net.version(blks[|blks| - 1].dbht))
  }

  /** What is owed in all is exactly one block reward per valid block. */
  lemma {:induction false} RewardsConserved(net: Network, blks: seq<OprBlock>)
    requires AllGraded(net, blks) && WinnersHaveAccounts(net, blks)
    ensures Volume(AllRewards(net, blks)) == TotalReward(net, blks)
  {
    if blks != [] {
      var init, b := blks[..|blks| - 1], blks[|blks| - 1];
      RewardsConserved(net, init);
      BlockVolume(net, b, MinRecords(net, b.dbht));
      WinnersShareReward(net.version(b.dbht), MinRecords(net, b.dbht));
      VolumeAppend(AllRewards(net, init), Rewards(net, b, MinRecords(net, b.dbht)));
    }
  }

  // ---------- place by place ----------

  /** One posting for each winning place, to the account of the record there, of what the place is worth. */
  ghost predicate PostsPlaces(net: Network, b: OprBlock, log: seq<Posting>)
    requires |b.graded| >= MinRecords(net, b.dbht)
  {
    && |log| == (if net.version(b.dbht) == V1 then 10 else 25) == MinRecords(net, b.dbht)
    && forall i | 0 <= i < |log| ::
      && net.account(b.graded[i].address) == Some(log[i].account)
      && log[i].value == PlaceReward(net.version(b.dbht), i)
  }

  lemma {:induction false} RewardsPost(net: Network, b: OprBlock, n: nat)
    requires n <= MinRecords(net, b.dbht) <= |b.graded|
    requires forall i | 0 <= i < n :: net.account(b.graded[i].address).Some?
    ensures |Rewards(net, b, n)| == n
    ensures forall i | 0 <= i < n ::
      && net.account(b.graded[i].address) == Some(Rewards(net, b, n)[i].account)
      && Rewards(net, b, n)[i].value == PlaceReward(net.version(b.dbht), i)
  {
    hide Payout, PlaceReward;
    if n > 0 {
      RewardsPost(net, b, n - 1);
      PlaceRewardIs(net.version(b.dbht), n - 1);
      PayoutOrder(net.version(b.dbht), n - 1, n - 1);
    }
  }

  /** The rewards of a block whose winners all have accounts, place by place. */
  lemma RewardsPostPlaces(net: Network, b: OprBlock)
    requires |b.graded| >= MinRecords(net, b.dbht)
    requires forall i | 0 <= i < MinRecords(net, b.dbht) :: net.account(b.graded[i].address).Some?
    ensures PostsPlaces(net, b, Rewards(net, b, MinRecords(net, b.dbht)))
  {
    hide Payout, PlaceReward, Rewards;
    RewardsPost(net, b, MinRecords(net, b.dbht));
    PlaceRewardIs(net.version(b.dbht), 0);
  }

  /** What an account earns with the first n places of a block. */
  function EarnedInBlock(net: Network, b: OprBlock, account: (string, seq<byte>), n: nat): int
    requires n <= |b.graded|
  {
    if n == 0 then 0
    else
      EarnedInBlock(net, b, account, n - 1)
      + if net.account(b.graded[n - 1].address) == Some(account) then PlaceReward(net.version(b.dbht), n - 1) else 0
  }

  /** What an account earns in a list of blocks: the worth of every winning place its address took. */
  function Earned(net: Network, blks: seq<OprBlock>, account: (string, seq<byte>)): int
    requires AllGraded(net, blks)
  {
    if blks == [] then 0
    else
      var b := blks[|blks| - 1];
      Earned(net, blks[..|blks| - 1], account) + EarnedInBlock(net, b, account, MinRecords(net, b.dbht))
  }

  lemma OwedOne(p: Posting, account: (string, seq<byte>))
    ensures Owed([p], account) == if p.account == account then p.value else 0
    ensures Owed([], account) == 0
  {
    assert [p][..0] == [];
  }

  lemma {:induction false} BlockEarned(net: Network, b: OprBlock, account: (string, seq<byte>), n: nat)
    requires n <= |b.graded|
    ensures Owed(Rewards(net, b, n), account) == EarnedInBlock(net, b, account, n)
  {
    hide Owed, Payout, PlaceReward;
    if n == 0 {
      OwedOne(Posting(account, 0), account);
    } else {
      BlockEarned(net, b, account, n - 1);
      var reward, to := Payout(net.version(b.dbht), n - 1), net.account(b.graded[n - 1].address);
      PlaceRewardIs(net.version(b.dbht), n - 1);
      PayoutOrder(net.version(b.dbht), n - 1, n - 1);
      NoWorth(net.version(b.dbht), n - 1);
      if to.Some? { OwedOne(Posting(to.value, reward), account); }
      var last := if reward > 0 && to.Some? then [Posting(to.value, reward)] else [];
      OwedOne(Posting(account, 0), account);
      OwedAppend(Rewards(net, b, n - 1), last, account);
    }
  }

  lemma NoWorth(v: Version, place: int)
    ensures PlaceReward(v, place) >= 0
  {
  }

  /** The postings to an account add up to what it earned. */
  lemma {:induction false} OwedIsEarned(net: Network, blks: seq<OprBlock>, account: (string, seq<byte>))
    requires AllGraded(net, blks)
    ensures Owed(AllRewards(net, blks), account) == Earned(net, blks, account)
  {
    hide Owed, Rewards, EarnedInBlock;
    OwedOne(Posting(account, 0), account);
    if blks != [] {
      var init, b := blks[..|blks| - 1], blks[|blks| - 1];
      OwedIsEarned(net, init, account);
      BlockEarned(net, b, account, MinRecords(net, b.dbht));
      OwedAppend(AllRewards(net, init), Rewards(net, b, MinRecords(net, b.dbht)), account);
    }
  }
}
