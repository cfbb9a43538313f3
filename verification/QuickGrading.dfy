/**
  The syncing grader: it follows the chain, keeps the block store and pays the winners
  (opr/grader.go, opr/oprblocks.go).
 */
module QuickGrading {
  import opened Common
  import opened StableSort
  import opened Grading
  import opened Averages
  import opened GradedBlock
  import opened LegacyGrading
  import opened Ledger
  import opened EntryBlocks
  import opened Balances

  // ---------- the block store ----------

  datatype StoredBlock = StoredBlock(gradedOprs: seq<Opr>, dblockHeight: nat, emptyOPRBlock: bool, totalNumberRecords: nat)

  datatype Fetched = Missing | Empty | Found(block: OprBlock)

  /** What is read back: the graded list, and instead of all records that list by difficulty. */
  function ToOPRBlock(b: StoredBlock): OprBlock {
    OprBlock(b.dblockHeight, Sort(b.gradedOprs, ByComputed), b.gradedOprs, 0)
  }

  /** A stored block says what the chain says about that block. */
  ghost predicate Agrees(b: StoredBlock, truth: Option<OprBlock>) {
    && b.emptyOPRBlock == truth.None?
    && (truth.Some? ==> b.gradedOprs == truth.value.graded && b.dblockHeight == truth.value.dbht)
  }

  /** A block as fetched: the right height and graded list, or rightly none. */
  ghost predicate Truthful(b: Option<OprBlock>, truth: Option<OprBlock>) {
    b.Some? == truth.Some? && (truth.Some? ==> b.value.dbht == truth.value.dbht && b.value.graded == truth.value.graded)
  }

  ghost predicate SoundMap(net: Network, chain: seq<EBlock>, blocks: map<nat, StoredBlock>) {
    forall h | h in blocks ::
      exists k :: 0 <= k < |chain| && chain[k].height == h && Agrees(blocks[h], BlockAt(net, chain, k))
  }

  class OPRBlockStore {
    var blocks: map<nat, StoredBlock>      // by directory block height

    /** Every stored block belongs to a block of the chain and agrees with it. */
    ghost predicate Sound(net: Network, chain: seq<EBlock>)
      reads this
    {
      SoundMap(net, chain, blocks)
    }

    constructor ()
      ensures blocks == map[]
    {
      blocks := map[];
    }

    /** A read that fails looks like a missing block. */
    method FetchOPRBlock(height: nat) returns (r: Fetched)
      ensures r != Missing ==>
        height in blocks && r == if blocks[height].emptyOPRBlock then Empty else Found(ToOPRBlock(blocks[height]))
    {
      var readable: bool :| true;
      if !readable || height !in blocks {
        return Missing;
      }
      var b := blocks[height];
      r := if b.emptyOPRBlock then Empty else Found(ToOPRBlock(b));
    }

    /** A write that reports an error may have been carried out or not. */
    method Write(b: StoredBlock) returns (ok: bool)
      modifies this
      ensures blocks == old(blocks)[b.dblockHeight := b] || (!ok && blocks == old(blocks))
    {
      var done: bool :| true;
      if done { blocks := blocks[b.dblockHeight := b]; }
      ok :| ok ==> done;
    }

    method WriteInvalidOPRBlock(dbht: nat) returns (ok: bool)
      modifies this
      ensures blocks == old(blocks)[dbht := StoredBlock([], dbht, true, 0)] || (!ok && blocks == old(blocks))
    {
      ok := Write(StoredBlock([], dbht, true, 0));
    }

    method WriteOPRBlock(b: OprBlock) returns (ok: bool)
      modifies this
      ensures blocks == old(blocks)[b.dbht := StoredBlock(b.graded, b.dbht, false, b.total)] || (!ok && blocks == old(blocks))
    {
      ok := Write(StoredBlock(b.graded, b.dbht, false, b.total));
    }
  }

  // ---------- the quick grader ----------

  /** Fatal ends the process: a balance could not be updated. */
  datatype SyncResult = Synced | Failed | Fatal

  /** Every winner on the chain has an account, and all rewards together fit an int64. */
  ghost predicate Payable(net: Network, opening: seq<Posting>, chain: seq<EBlock>) {
    && WinnersHaveAccounts(net, ValidBlocks(net, chain))
    && Volume(opening) + TotalReward(net, ValidBlocks(net, chain)) < TWO63
  }

  // ---------- the step from one block to the next ----------

  /** One more block of the chain is one more valid block, or none. */
  lemma NextValid(net: Network, chain: seq<EBlock>, k: nat)
    requires k < |chain|
    ensures var truth, done, next := BlockAt(net, chain, k), ValidBlocks(net, chain[..k]), ValidBlocks(net, chain[..k + 1]);
      && (truth.None? ==> next == done)
      && (truth.Some? ==>
        && next == done + [truth.value]
        && AllRewards(net, next) == AllRewards(net, done) + Rewards(net, truth.value, MinRecords(net, chain[k].height)))
  {
    hide BlockAt, Rewards;
    assert chain[..k + 1][..k] == chain[..k];
    BlockAtPrefix(net, chain[..k + 1], chain, k);
    var done, next := ValidBlocks(net, chain[..k]), ValidBlocks(net, chain[..k + 1]);
    if BlockAt(net, chain, k).Some? {
      assert next[..|done|] == done;
    } else {
      assert next == done;
    }
  }

  /** Its own list stands in for the valid blocks when the next one is graded. */
  lemma NextGraded(net: Network, chain: seq<EBlock>, k: nat, blks: seq<OprBlock>)
    requires k < |chain| && SameGraded(blks, ValidBlocks(net, chain[..k]))
    ensures AllGraded(net, blks)
    ensures OprBlockOf(net, chain[k], PreviousWinners(net, blks, chain[k].height)) == BlockAt(net, chain, k)
  {
    hide OprBlockOf, PreviousWinners;
    SamePrevious(net, blks, ValidBlocks(net, chain[..k]), chain[k].height);
  }

  lemma StoredTruth(net: Network, chain: seq<EBlock>, k: nat, store: OPRBlockStore)
    requires GoodChain(chain) && k < |chain| && store.Sound(net, chain) && chain[k].height in store.blocks
    ensures Agrees(store.blocks[chain[k].height], BlockAt(net, chain, k))
  {
    hide BlockAt, GoodChain, Agrees;
    var j :| 0 <= j < |chain| && chain[j].height == chain[k].height
      && Agrees(store.blocks[chain[k].height], BlockAt(net, chain, j));
    HeightsDistinct(chain, j, k);
  }

  lemma HeightsDistinct(chain: seq<EBlock>, j: nat, k: nat)
    requires GoodChain(chain) && j < |chain| && k < |chain| && chain[j].height == chain[k].height
    ensures j == k
  {
  }

  /** Storing what the chain says about one of its blocks. */
  lemma StillSound(net: Network, chain: seq<EBlock>, k: nat, before: map<nat, StoredBlock>, b: StoredBlock)
    requires k < |chain| && SoundMap(net, chain, before) && Agrees(b, BlockAt(net, chain, k))
    ensures SoundMap(net, chain, before[chain[k].height := b])
  {
    hide BlockAt, Agrees;
  }

  lemma {:induction false} ValidBlocksPrefix(net: Network, chain: seq<EBlock>, k: nat)
    requires k <= |chain|
    ensures ValidBlocks(net, chain[..k]) <= ValidBlocks(net, chain)
    decreases |chain| - k
  {
    hide BlockAt;
    if k == |chain| {
      assert chain[..k] == chain;
    } else {
      NextValid(net, chain, k);
      ValidBlocksPrefix(net, chain, k + 1);
    }
  }

  lemma {:induction false} TotalRewardGrows(net: Network, a: seq<OprBlock>, b: seq<OprBlock>)
    requires a <= b
    ensures TotalReward(net, a) <= TotalReward(net, b)
    decreases |b|
  {
    if |a| < |b| {
      TotalRewardGrows(net, a, b[..|b| - 1]);
    } else {
      assert a == b;
    }
  }

  /** If the whole chain can be paid, so can its next valid block. */
  lemma NextPayable(net: Network, opening: seq<Posting>, chain: seq<EBlock>, k: nat)
    requires k < |chain| && BlockAt(net, chain, k).Some? && Payable(net, opening, chain)
    ensures var b := BlockAt(net, chain, k).value;
      && Creditable(net, b)
      && Volume(opening + AllRewards(net, ValidBlocks(net, chain[..k]))) + BlockReward(net.version(b.dbht)) < TWO63
  {
    hide BlockAt, BlockReward;
    var done, next, all := ValidBlocks(net, chain[..k]), ValidBlocks(net, chain[..k + 1]), ValidBlocks(net, chain);
    NextValid(net, chain, k);
    ValidBlocksPrefix(net, chain, k + 1);
    assert next[..|done|] == done && next[|done|] == BlockAt(net, chain, k).value;
    assert forall i | 0 <= i < |next| :: next[i] == all[i];
    TotalRewardGrows(net, next, all);
    RewardsConserved(net, done);
    VolumeAppend(opening, AllRewards(net, done));
  }

  ghost predicate Creditable(net: Network, b: OprBlock)
    requires |b.graded| >= MinRecords(net, b.dbht)
  {
    forall i | 0 <= i < MinRecords(net, b.dbht) :: net.account(b.graded[i].address).Some?
  }

  /** While the block is paid no account overflows, because all of them together do not. */
  lemma Affordable(net: Network, b: OprBlock, place: nat, before: seq<Posting>, balances: BalanceTracker)
    requires |b.graded| >= MinRecords(net, b.dbht) > place
    requires balances.Valid() && balances.log == before + Rewards(net, b, place)
    requires Creditable(net, b) && Volume(before) + BlockReward(net.version(b.dbht)) < TWO63
    ensures var account, reward := net.account(b.graded[place].address), Payout(net.version(b.dbht), place);
      account.Some? && reward > 0 && 0 <= Get(balances.Balances, account.value) + reward < TWO63
  {
    var v, min := net.version(b.dbht), MinRecords(net, b.dbht);
    Bounded(balances.Balances, net.account(b.graded[place].address).value);
    VolumeAppend(before, Rewards(net, b, place));
    BlockVolume(net, b, place);
    WinnersShareReward(v, min);
    PaidGrows(v, place + 1, min);
  }

  lemma {:induction false} PaidGrows(v: Version, n: nat, m: nat)
    requires n <= m
    ensures PaidToFirst(v, n) <= PaidToFirst(v, m)
    decreases m
  {
    if n < m { PaidGrows(v, n, m - 1); }
  }

  lemma PayablePrefix(net: Network, opening: seq<Posting>, chain: seq<EBlock>, longer: seq<EBlock>)
    requires chain <= longer && Payable(net, opening, longer)
    ensures Payable(net, opening, chain)
  {
    hide BlockAt, Volume;
    ValidBlocksPrefix(net, longer, |chain|);
    assert longer[..|chain|] == chain;
    var a, b := ValidBlocks(net, chain), ValidBlocks(net, longer);
    TotalRewardGrows(net, a, b);
    assert forall i | 0 <= i < |a| :: a[i] == b[i];
  }

  /** What factomd shows at successive events: good chains, each a continuation of the one before. */
  ghost predicate Growing(chains: seq<seq<EBlock>>) {
    && (forall i | 0 <= i < |chains| :: GoodChain(chains[i]))
    && (forall i, j | 0 <= i <= j < |chains| :: chains[i] <= chains[j])
  }

  lemma GrowingParts(a: seq<seq<EBlock>>, b: seq<seq<EBlock>>)
    requires a != [] && b != [] && Growing(a + b)
    ensures Growing(a) && Growing(b) && a[|a| - 1] <= b[0] && a[|a| - 1] <= b[|b| - 1]
  {
    hide GoodChain;
    var c := a + b;
    assert forall i | 0 <= i < |a| :: c[i] == a[i];
    assert forall i | 0 <= i < |b| :: c[|a| + i] == b[i];
    assert c[|a| - 1] <= c[|a|] && c[|a| - 1] <= c[|a| + |b| - 1];
    forall i | 0 <= i < |b|
      ensures GoodChain(b[i])
    {
      assert GoodChain(c[|a| + i]);
    }
    forall i | 0 <= i < |a|
      ensures GoodChain(a[i])
    {
      assert GoodChain(c[i]);
    }
    forall i, j | 0 <= i <= j < |b|
      ensures b[i] <= b[j]
    {
      assert c[|a| + i] <= c[|a| + j];
    }
  }

  class QuickGrader {
    const net: Network
    const OPRChain: EntryBlockSync
    const BlockStore: OPRBlockStore
    const Balances: BalanceTracker
    var oprBlks: seq<OprBlock>
    ghost const opening: seq<Posting>    // what was posted before this grader started

    /**
      It has the valid blocks among those it has parsed, in chain order, and has paid each of
      them once, in that order and nothing else.
     */
    ghost predicate Valid(chain: seq<EBlock>)
      reads this, OPRChain, BlockStore, Balances
    {
      && GoodChain(chain) && OPRChain.Valid(chain) && BlockStore.Sound(net, chain) && Balances.Valid()
      && SameGraded(oprBlks, ValidBlocks(net, chain[..OPRChain.parsed]))
      && Balances.log == opening + AllRewards(net, ValidBlocks(net, chain[..OPRChain.parsed]))
    }

    constructor (net: Network, store: OPRBlockStore, balances: BalanceTracker, ghost chain: seq<EBlock>)
      requires GoodChain(chain) && store.Sound(net, chain) && balances.Valid()
      ensures Valid(chain) && fresh(OPRChain) && BlockStore == store && Balances == balances
      ensures OPRChain.parsed == 0 && opening == balances.log && this.net == net
    {
      this.net, BlockStore, Balances := net, store, balances;
      OPRChain := new EntryBlockSync();
      oprBlks := [];
      opening := balances.log;
    }

    /** The chain only grows, and growth invalidates nothing. */
    lemma ChainGrows(chain: seq<EBlock>, longer: seq<EBlock>)
      requires Valid(chain) && chain <= longer && GoodChain(longer)
      ensures Valid(longer)
    {
      hide GoodChain, BlockAt, ValidBlocks, SameGraded;
      assert longer[..OPRChain.parsed] == chain[..OPRChain.parsed];
      assert OPRChain.Valid(longer) by { MarkersSame(chain, longer, OPRChain.parsed, OPRChain.known); }
      forall h | h in BlockStore.blocks
        ensures exists k ::
          0 <= k < |longer| && longer[k].height == h && Agrees(BlockStore.blocks[h], BlockAt(net, longer, k))
      {
        var k :| 0 <= k < |chain| && chain[k].height == h && Agrees(BlockStore.blocks[h], BlockAt(net, chain, k));
        BlockAtPrefix(net, chain, longer, k);
        assert longer[k] == chain[k];
      }
    }

    /** The winners of the last block below this height, looked for from the end. */
    method GetPreviousWinners(dbht: nat) returns (winners: Option<seq<Opr>>)
      requires AllGraded(net, oprBlks)
      ensures winners == PreviousWinners(net, oprBlks, dbht)
    {
      var i := |oprBlks|;
      assert oprBlks[..i] == oprBlks;
      while i > 0
        invariant i <= |oprBlks| && PreviousBlock(oprBlks[..i], dbht) == PreviousBlock(oprBlks, dbht)
      {
        i := i - 1;
        assert oprBlks[..i + 1][..i] == oprBlks[..i];
        if oprBlks[i].dbht < dbht {
          return Some(oprBlks[i].graded[..MinRecords(net, oprBlks[i].dbht)]);
        }
      }
      return None;
    }

    /** Every entry is fetched; if one of the requests fails the whole block is tried again later. */
    method FetchEntries(block: EBlock, prev: Option<seq<Opr>>) returns (ok: bool, oprs: seq<Opr>)
      ensures ok ==> oprs == ReadAll(net, block.entries, block.height, prev)
    {
      ok, oprs := true, [];
      for i := 0 to |block.entries|
        invariant ok ==> oprs == ReadAll(net, block.entries[..i], block.height, prev)
      {
        assert block.entries[..i + 1][..i] == block.entries[..i];
        var reachable: bool :| true;
        if !reachable {
          ok := false;
        } else {
          var o := ReadEntry(net, block.entries[i], block.height, prev);
          if o.Some? { oprs := oprs + [o.value]; }
        }
      }
      assert block.entries[..|block.entries|] == block.entries;
    }

    method FetchOPRBlock(block: EBlock) returns (ok: bool, r: Option<OprBlock>)
      requires AllGraded(net, oprBlks)
      ensures ok ==> r == OprBlockOf(net, block, PreviousWinners(net, oprBlks, block.height))
    {
      hide PreviousWinners, ReadAll, LegacyGrade;
      ok, r := true, None;
      var min := MinRecords(net, block.height);
      if |block.entries| < min {
        return;
      }
      var prev := GetPreviousWinners(block.height);
      var oprs;
      ok, oprs := FetchEntries(block, prev);
      if !ok || |oprs| < min {
        return;
      }
      var graded := GradeMinimum(net.version(block.height), net.pow, oprs, net.assets(block.height));
      if |graded| < min {
        return;
      }
      r := Some(OprBlock(block.height, oprs, graded, |oprs|));
    }

    /** Pays the first places of a block, each to the address of its record; stops at an account that cannot be credited. */
    method PayWinners(b: OprBlock) returns (ok: bool)
      requires Balances.Valid() && |b.graded| >= MinRecords(net, b.dbht)
      modifies Balances
      ensures Balances.Valid()
      ensures ok ==> Balances.log == old(Balances.log) + Rewards(net, b, MinRecords(net, b.dbht))
      ensures ok ==> PostsPlaces(net, b, Balances.log[|old(Balances.log)|..])
      ensures Creditable(net, b) && Volume(old(Balances.log)) + BlockReward(net.version(b.dbht)) < TWO63 ==> ok
    {
      hide Volume, Owed, BlockReward, GrandTotal, Creditable, PostsPlaces;
      ghost var before := Balances.log;
      ok := true;
      var payouts := MinRecords(net, b.dbht);
      for place := 0 to payouts
        invariant Balances.Valid() && Balances.log == before + Rewards(net, b, place)
        invariant forall i | 0 <= i < place :: net.account(b.graded[i].address).Some?
      {
        var reward := Payout(net.version(b.dbht), place);
        if Creditable(net, b) && Volume(before) + BlockReward(net.version(b.dbht)) < TWO63 {
          Affordable(net, b, place, before, Balances);
        }
        if reward > 0 {
          ok := Balances.AddToBalance(net, b.graded[place].address, reward);
          if !ok {
            return;
          }
        }
      }
      RewardsPostPlaces(net, b);
      assert Balances.log[|before|..] == Rewards(net, b, payouts);
    }

    /** Remembers that there is no valid block here, and moves on. */
    method RecordInvalid(chain: seq<EBlock>, block: Marker) returns (r: SyncResult)
      requires Valid(chain) && OPRChain.BlocksToBeParsed != [] && block == OPRChain.BlocksToBeParsed[0]
      requires OPRChain.parsed < |chain| && block == MarkerAt(chain, OPRChain.parsed + 1)
      requires BlockAt(net, chain, OPRChain.parsed).None?
      modifies OPRChain`Current, OPRChain`BlocksToBeParsed, OPRChain`parsed, BlockStore
      ensures Valid(chain) && r != Fatal
      ensures OPRChain.parsed == old(OPRChain.parsed) + if r == Synced then 1 else 0
    {
      hide GoodChain, BlockAt, AllRewards, SameGraded, SoundMap, ValidBlocks;
      ghost var k := OPRChain.parsed;
      NextValid(net, chain, k);
      StillSound(net, chain, k, BlockStore.blocks, StoredBlock([], block.block.height, true, 0));
      var written := BlockStore.WriteInvalidOPRBlock(block.block.height);
      if !written {
        return Failed;
      }
      OPRChain.BlockParsed(chain, block);
      return Synced;
    }

    /** Stores the block, takes it over, pays it, and moves on; nothing is taken over that was not stored. */
    method RecordValid(chain: seq<EBlock>, block: Marker, b: OprBlock) returns (r: SyncResult)
      requires Valid(chain) && OPRChain.BlocksToBeParsed != [] && block == OPRChain.BlocksToBeParsed[0]
      requires OPRChain.parsed < |chain| && block == MarkerAt(chain, OPRChain.parsed + 1)
      requires Truthful(Some(b), BlockAt(net, chain, OPRChain.parsed))
      modifies this`oprBlks, OPRChain`Current, OPRChain`BlocksToBeParsed, OPRChain`parsed, BlockStore, Balances
      ensures r != Fatal ==> Valid(chain)
      ensures OPRChain.parsed == old(OPRChain.parsed) + if r == Synced then 1 else 0
      ensures Payable(net, opening, chain) ==> r != Fatal
    {
      hide GoodChain, BlockAt, AllRewards, Rewards, Payable, BlockReward, Volume, SoundMap, ValidBlocks, Markers;
      ghost var k := OPRChain.parsed;
      NextValid(net, chain, k);
      StillSound(net, chain, k, BlockStore.blocks, StoredBlock(b.graded, b.dbht, false, b.total));
      var written := BlockStore.WriteOPRBlock(b);
      if !written {
        return Failed;
      }
      oprBlks := oprBlks + [b];
      SameBlockRewards(net, b, BlockAt(net, chain, k).value, MinRecords(net, b.dbht));
      if Payable(net, opening, chain) { NextPayable(net, opening, chain, k); }
      var paid := PayWinners(b);
      if !paid {
        return Fatal;
      }
      OPRChain.BlockParsed(chain, block);
      return Synced;
    }

    /** The next block of the chain: from the store if it is there, from factomd otherwise. */
    method ProcessNext(chain: seq<EBlock>) returns (r: SyncResult)
      requires Valid(chain) && OPRChain.BlocksToBeParsed != []
      modifies this`oprBlks, OPRChain`Current, OPRChain`BlocksToBeParsed, OPRChain`parsed, BlockStore, Balances
      ensures r != Fatal ==> Valid(chain)
      ensures OPRChain.parsed == old(OPRChain.parsed) + if r == Synced then 1 else 0
      ensures Payable(net, opening, chain) ==> r != Fatal
    {
      hide GoodChain, BlockAt, OprBlockOf, PreviousWinners, AllRewards, Payable, Creditable, BlockReward, Volume, SameGraded;
      ghost var k := OPRChain.parsed;
      assert OPRChain.BlocksToBeParsed[0] == MarkerAt(chain, k + 1);
      NextGraded(net, chain, k, oprBlks);
      NextValid(net, chain, k);
      var block := OPRChain.BlocksToBeParsed[0];
      var height := block.block.height;
      var fetched := BlockStore.FetchOPRBlock(height);
      if fetched != Missing { StoredTruth(net, chain, k, BlockStore); }
      var oprblock: Option<OprBlock>;
      match fetched {
        case Empty =>
          OPRChain.BlockParsed(chain, block);
          return Synced;
        case Found(b) =>
          oprblock := Some(b);
        case Missing =>
          var ok;
          ok, oprblock := FetchOPRBlock(block.block);
          if !ok {
            return Failed;
          }
      }
      if oprblock.None? {
        r := RecordInvalid(chain, block);
      } else {
        r := RecordValid(chain, block, oprblock.value);
      }
    }

    /**
      Sync: whatever fails, and whatever the store already holds, it stays in step with the
      chain; after a success it has parsed every block it knows.
     */
    method Sync(chain: seq<EBlock>) returns (r: SyncResult)
      requires Valid(chain)
      modifies this`oprBlks, OPRChain, BlockStore, Balances
      ensures r != Fatal ==> Valid(chain)
      ensures r == Synced ==> OPRChain.parsed == OPRChain.known
      ensures OPRChain.parsed >= old(OPRChain.parsed) && OPRChain.known >= old(OPRChain.known)
      ensures Payable(net, opening, chain) ==> r != Fatal
    {
      hide GoodChain, BlockAt, AllRewards, Payable, SameGraded, SoundMap, ValidBlocks;
      var ok, head := OPRChain.SyncBlocks(chain);
      if !ok {
        return Failed;
      }
      KeysDistinct(chain, OPRChain.parsed, OPRChain.known);
      if !OPRChain.Synced() {
        while OPRChain.BlocksToBeParsed != []
          invariant Valid(chain)
          invariant OPRChain.parsed >= old(OPRChain.parsed) && OPRChain.known >= old(OPRChain.known)
          decreases OPRChain.known - OPRChain.parsed
        {
          r := ProcessNext(chain);
          if r != Synced {
            return;
          }
        }
      }
      return Synced;
    }

    /** One attempt, if the chain has grown since the last one. */
    method Attempt(before: seq<EBlock>, chain: seq<EBlock>, ghost last: seq<EBlock>) returns (r: SyncResult)
      requires Valid(before) && before <= chain <= last && GoodChain(chain)
      modifies this`oprBlks, OPRChain, BlockStore, Balances
      ensures r != Fatal ==> Valid(chain)
      ensures r == Synced ==> OPRChain.parsed == OPRChain.known
      ensures Payable(net, opening, last) ==> r != Fatal
    {
      hide GoodChain, BlockAt, AllRewards, Payable, SameGraded, SoundMap, ValidBlocks;
      ChainGrows(before, chain);
      if Payable(net, opening, last) { PayablePrefix(net, opening, chain, last); }
      r := Sync(chain);
    }

    /**
      The first sync is tried again until it succeeds. `chains` is the chain at each attempt there was
      time for, however many that are.
     */
    method InitialSync(chains: seq<seq<EBlock>>, ghost last: seq<EBlock>) returns (r: SyncResult)
      requires chains != [] && Growing(chains) && Valid(chains[0]) && chains[|chains| - 1] <= last
      modifies this`oprBlks, OPRChain, BlockStore, Balances
      ensures r != Fatal ==> Valid(chains[|chains| - 1])
      ensures r == Synced ==> OPRChain.parsed == OPRChain.known
      ensures Payable(net, opening, last) ==> r != Fatal
    {
      hide Valid, GoodChain, Payable;
      for i := 0 to |chains|
        invariant Valid(chains[if i == 0 then 0 else i - 1])
      {
        r := Attempt(chains[if i == 0 then 0 else i - 1], chains[i], last);
        if r == Fatal {
          return;
        }
        if r == Synced {
          ChainGrows(chains[i], chains[|chains| - 1]);
          return;
        }
      }
      return Failed;
    }

    /**
      After that, at every minute 1 event up to three attempts against the chain as it is then. However
      many attempts fail, it ends in step with the last chain.
     */
    method Run(initial: seq<seq<EBlock>>, chains: seq<seq<EBlock>>) returns (fatal: bool)
      requires initial != [] && chains != [] && Growing(initial + chains) && Valid(initial[0])
      modifies this`oprBlks, OPRChain, BlockStore, Balances
      ensures !fatal ==> Valid(chains[|chains| - 1])
      ensures Payable(net, opening, chains[|chains| - 1]) ==> !fatal
    {
      hide Valid, GoodChain, Payable, EntryBlockSync.Valid;
      ghost var last := chains[|chains| - 1];
      GrowingParts(initial, chains);
      var first := InitialSync(initial, last);
      if first == Fatal {
        return true;
      }
      ChainGrows(initial[|initial| - 1], chains[0]);
      if first == Failed {   // it is still trying when the observation ends
        ChainGrows(chains[0], last);
        return false;
      }
      for i := 0 to |chains|
        invariant Valid(chains[if i == 0 then 0 else i - 1])
      {
        ChainGrows(chains[if i == 0 then 0 else i - 1], chains[i]);
        var tries, done := 0, false;
        while tries < 3 && !done
          invariant Valid(chains[i])
        {
          var r := Attempt(chains[i], chains[i], last);
          if r == Fatal {
            return true;
          }
          tries, done := tries + 1, r == Synced;
        }
      }
      return false;
    }
  }

  lemma MarkersSame(chain: seq<EBlock>, longer: seq<EBlock>, from: nat, to: nat)
    requires chain <= longer && from <= to <= |chain|
    ensures Markers(chain, from, to) == Markers(longer, from, to)
    ensures MarkerAt(chain, from) == MarkerAt(longer, from) && MarkerAt(chain, to) == MarkerAt(longer, to)
  {
    assert forall k | 0 <= k < |chain| :: chain[k] == longer[k];
    forall i | 0 <= i < to - from
      ensures Markers(chain, from, to)[i] == Markers(longer, from, to)[i]
    {
      assert MarkerAt(chain, from + i + 1) == MarkerAt(longer, from + i + 1);
    }
  }

  // ---------- what this means for the balances ----------

  /**
    Every account holds what it held before plus the rewards of the places that its address took in the
    valid blocks parsed so far, each paid once; and everybody together has gained exactly one block
    reward for each of those blocks.
   */
  lemma PaidExactlyOnce(g: QuickGrader, chain: seq<EBlock>, account: (string, seq<byte>))
    requires g.Valid(chain)
    ensures var blks := ValidBlocks(g.net, chain[..g.OPRChain.parsed]);
      && SameGraded(g.oprBlks, blks)
      && Get(g.Balances.Balances, account) == Owed(g.opening, account) + Earned(g.net, blks, account)
      && (WinnersHaveAccounts(g.net, blks) ==>
        GrandTotal(g.Balances.Balances) == Volume(g.opening) + TotalReward(g.net, blks))
  {
    hide BlockAt, SoundMap, GrandTotal, Get, GoodChain, Earned;
    var blks := ValidBlocks(g.net, chain[..g.OPRChain.parsed]);
    OwedAppend(g.opening, AllRewards(g.net, blks), account);
    OwedIsEarned(g.net, blks, account);
    VolumeAppend(g.opening, AllRewards(g.net, blks));
    if WinnersHaveAccounts(g.net, blks) { RewardsConserved(g.net, blks); }
  }

  /**
    Two graders that have parsed the same blocks agree on the graded blocks and on every reward paid,
    whatever failed on the way and whatever their stores held when they started.
   */
  lemma StoresDoNotMatter(g: QuickGrader, h: QuickGrader, chain: seq<EBlock>, account: (string, seq<byte>))
    requires g.Valid(chain) && h.Valid(chain) && g.net == h.net && g.OPRChain.parsed == h.OPRChain.parsed
    ensures SameGraded(g.oprBlks, h.oprBlks)
    ensures Get(g.Balances.Balances, account) - Owed(g.opening, account)
      == Get(h.Balances.Balances, account) - Owed(h.opening, account)
  {
    hide BlockAt, SoundMap, ValidBlocks, AllRewards, Owed, Earned;
    PaidExactlyOnce(g, chain, account);
    PaidExactlyOnce(h, chain, account);
  }
}
