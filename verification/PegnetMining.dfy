/**
  One miner (mining/miner.go) as the object it is. The protocol treats a miner as a value and its
  ranking as the list of what was offered to it; here both are shown to be what the object does.
 */
module PegnetMining {
  import opened Common
  import opened Aggregator
  import opened Nonce
  import opened MiningProtocol

  /** A batch, one command after the other. */
  function ObeyAll(m: Miner, cs: seq<Command>, next: nat): Miner
    decreases |cs|
  {
    if cs == [] then m else Obey(ObeyAll(m, cs[..|cs| - 1], next), cs[|cs| - 1], next)
  }

  lemma KeepStays(m: Miner, c: Command, next: nat)
    requires !c.RecordsToKeep?
    ensures Obey(m, c, next).keep == m.keep
  {
  }

  class PegnetMiner {
    const ID: nat
    var keep: nat                    // of the next ranking
    var nonce: NonceIncrementer
    var rankings: NonceRanking
    var oprhash: seq<byte>
    var minimumDifficulty: uint64
    var paused: bool
    var stats: Option<nat>           // the total of hashes, once there is a stats object
    var writeChannel: Option<nat>    // the block whose writer it belongs to
    var statsChannel: Option<nat>

    /** The object is in the state the protocol calls m, and its ranking in the state it calls r. */
    ghost predicate Models(m: Miner, r: Ranking)
      reads this, nonce, nonce.Nonce, rankings
    {
      && nonce.Valid() && nonce.id == ID % 256 && nonce.count == m.count
      && keep == m.keep >= 1 && rankings.Valid() && rankings.MinimumDifficulty == 0
      && r == Ranking(ID, rankings.offered)
      && oprhash == m.oprHash && minimumDifficulty == m.minimum && paused == m.paused
      && stats == (if m.stats then Some(m.count) else None)
      && writeChannel == m.writer && statsChannel == m.statsChannel
    }

    constructor (id: nat, keep: nat)
      requires keep >= 1
      ensures fresh(rankings) && fresh(nonce) && fresh(nonce.Nonce) && ID == id && rankings.Keep == keep
      ensures forall ranking: nat ::
        Models(Miner([], 0, [], false, [], 0, 0, ranking, false, None, None, keep), Ranking(id, []))
    {
      ID, this.keep := id, keep;
      nonce := new NonceIncrementer(id);
      rankings := new NonceRanking(keep);
      oprhash, minimumDifficulty, paused := [], 0, false;
      stats, writeChannel, statsChannel := None, None, None;
    }

    /**
      One command. The result is what goes out on the write channel. Only the miner itself is written:
      a reset makes new objects, so a ranking handed over earlier is out of reach. How many records to
      keep takes effect with the next reset.
     */
    method HandleCommand(c: Command, ghost m: Miner, ghost r: Ranking, ghost next: nat)
      returns (sent: NonceRanking?)
      requires Models(m, r) && (c.RecordsToKeep? ==> c.keep >= 1)
      modifies this
      ensures Models(Obey(m, c, next), if c.ResetRecords? then Ranking(ID, []) else r)
      ensures if c.ResetRecords? then fresh(rankings) && fresh(nonce) && fresh(nonce.Nonce)
        else rankings == old(rankings) && nonce == old(nonce)
      ensures c.ResetRecords? ==> rankings.Keep == m.keep
      ensures sent == if c.SubmitNonces? then rankings else null
    {
      hide Stands, NonceAt, NonceRanking.WorstIsWorst, NonceRanking.Valid, NonceIncrementer.Valid;
      sent := null;
      match c
      case RecordAggregator(b) => writeChannel := Some(b);
      case StatsAggregator(b) => statsChannel := Some(b);
      case ResetRecords =>
        nonce := new NonceIncrementer(ID);
        rankings := new NonceRanking(keep);
        stats := Some(0);
      case NewOPRHash(hash) => oprhash := hash;
      case MinimumAccept(min) => minimumDifficulty := min;
      case RecordsToKeep(keep) => this.keep := keep;
      case ResumeMining => paused := false;
      case SubmitNonces => sent := rankings;
      case PauseMining => paused := true;
    }

    /** A batch. The last thing sent is the result. */
    method HandleBatch(b: Batch, ghost m: Miner, ghost r: Ranking, ghost next: nat)
      returns (sent: NonceRanking?)
      requires Models(m, r)
      modifies this
      ensures Models(ObeyAll(m, Commands(b), next), if b.Start? then Ranking(ID, []) else r)
      ensures if b.Start? then fresh(rankings) && fresh(nonce) && fresh(nonce.Nonce) && sent == null
        else rankings == old(rankings) == sent && nonce == old(nonce)
      ensures b.Start? ==> rankings.Keep == m.keep
    {
      hide Models, Obey, Commands;
      var cs := Commands(b);
      sent := null;
      for i := 0 to |cs|
        invariant Models(ObeyAll(m, cs[..i], next), if b.Start? && i > 2 then Ranking(ID, []) else r)
        invariant if b.Start? && i > 2 then fresh(rankings) && fresh(nonce) && fresh(nonce.Nonce)
          else rankings == old(rankings) && nonce == old(nonce)
        invariant ObeyAll(m, cs[..i], next).keep == m.keep && (b.Start? && i > 2 ==> rankings.Keep == m.keep)
        invariant sent == if b.Stop? && i > 0 then old(rankings) else null
      {
        assert cs[..i + 1][..i] == cs[..i];
        OnlyStopSubmits(b, i);
        KeepStays(ObeyAll(m, cs[..i], next), cs[i], next);
        var s := HandleCommand(cs[i], ObeyAll(m, cs[..i], next), if b.Start? && i > 2 then Ranking(ID, []) else r, next);
        if s != null { sent := s; }
      }
      assert cs[..|cs|] == cs;
    }

    /**
      One turn of the mining loop: the next nonce is tried, and offered if it passes. The ranking keeps
      its own copy of the nonce, which is counted up in place afterwards.
     */
    method Attempt(pow: Pow, ghost m: Miner, ghost r: Ranking)
      requires Models(m, r) && stats.Some?
      modifies this`stats, nonce, nonce.Nonce, rankings
      ensures rankings == old(rankings) && nonce == old(nonce)
      ensures nonce.Nonce == old(nonce.Nonce) || fresh(nonce.Nonce)
      ensures var u := UniqueOPRData(NonceAt(ID % 256, m.count + 1), pow(m.oprHash, NonceAt(ID % 256, m.count + 1)));
        Models(m.(count := m.count + 1),
          if u.difficulty > m.minimum then r.(offered := r.offered + [u]) else r)
    {
      hide NonceAt, Stands, NonceRanking.WorstIsWorst;
      nonce.NextNonce();
      stats := Some(stats.value + 1);
      var diff := pow(oprhash, nonce.Nonce[..]);
      if diff > minimumDifficulty {
        var added := rankings.AddNonce(nonce.Nonce, diff);
      }
    }
  }

  /** What a start batch leaves a miner in, whatever it was doing before. */
  lemma StartedMiner(m: Miner, b: Batch, next: nat)
    requires b.Start?
    ensures ObeyAll(m, Commands(b), next)
      == m.(writer := Some(b.block), statsChannel := Some(b.block), count := 0, ranking := next, stats := true,
            oprHash := b.oprHash, minimum := b.minimum, paused := false)
  {
    hide ObeyAll;
    var cs := Commands(b);
    ObeyNone(m, next);
    ObeyNext(m, cs, 5, next);
    ObeyNext(m, cs, 4, next);
    ObeyNext(m, cs, 3, next);
    ObeyNext(m, cs, 2, next);
    ObeyNext(m, cs, 1, next);
    ObeyNext(m, cs, 0, next);
    assert cs[..0] == [] && cs[..6] == cs;
  }

  lemma ObeyNone(m: Miner, next: nat)
    ensures ObeyAll(m, [], next) == m
  {
  }

  lemma ObeyNext(m: Miner, cs: seq<Command>, k: nat, next: nat)
    requires k < |cs|
    ensures ObeyAll(m, cs[..k + 1], next) == Obey(ObeyAll(m, cs[..k], next), cs[k], next)
  {
    assert cs[..k + 1][..k] == cs[..k];
  }
}
