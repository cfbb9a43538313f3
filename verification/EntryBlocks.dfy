/** Following the head of a chain of entry blocks (opr/entryblocksync.go). */
module EntryBlocks {
  import opened Common
  import opened Ledger

  datatype Marker = NoMarker | Marker(keyMr: string, block: EBlock)

  function KeyOf(m: Marker): string {
    if m.Marker? then m.keyMr else ""
  }

  predicate SameMarker(a: Marker, b: Marker) {
    KeyOf(a) == KeyOf(b)
  }

  /** The marker of the k-th block from the start; none before the first. */
  function MarkerAt(chain: seq<EBlock>, k: nat): Marker
    requires k <= |chain|
  {
    if k == 0 then NoMarker else Marker(chain[k - 1].keyMr, chain[k - 1])
  }

  function Markers(chain: seq<EBlock>, from: nat, to: nat): (r: seq<Marker>)
    requires from <= to <= |chain|
    ensures |r| == to - from
  {
    seq(to - from, i requires 0 <= i < to - from => MarkerAt(chain, from + i + 1))
  }

  lemma MarkersSnoc(chain: seq<EBlock>, from: nat, to: nat)
    requires from <= to < |chain|
    ensures Markers(chain, from, to + 1) == Markers(chain, from, to) + [MarkerAt(chain, to + 1)]
  {
  }

  lemma MarkersTail(chain: seq<EBlock>, from: nat, to: nat)
    requires from < to <= |chain|
    ensures Markers(chain, from, to)[1..] == Markers(chain, from + 1, to)
  {
  }

  /** Sequence numbers tell older from newer. */
  lemma Sequences(chain: seq<EBlock>, j: nat, k: nat)
    requires GoodChain(chain) && 0 < j <= |chain| && k <= |chain| && j != k
    ensures KeyOf(MarkerAt(chain, k)) != "" <==> k > 0
    ensures k > 0 ==> (chain[j - 1].sequence < chain[k - 1].sequence <==> j < k)
  {
  }

  lemma KeysDistinct(chain: seq<EBlock>, j: nat, k: nat)
    requires GoodChain(chain) && j <= |chain| && k <= |chain|
    ensures KeyAt(chain, j) == KeyAt(chain, k) <==> j == k
    ensures KeyAt(chain, j) == ZeroHash() <==> j == 0
    ensures KeyAt(chain, j) == KeyOf(MarkerAt(chain, k)) <==> j == k > 0
    ensures SameMarker(MarkerAt(chain, j), MarkerAt(chain, k)) <==> j == k
  {
  }

  /** factomd: the request fails, or gives the key of some block, which need not be the last one. */
  method GetChainHead(chain: seq<EBlock>) returns (r: Option<string>, ghost head: nat)
    ensures head <= |chain| && (r.Some? ==> head > 0 && r.value == KeyAt(chain, head))
  {
    var k: nat :| k <= |chain|;
    head := k;
    r := if k == 0 then None else Some(KeyAt(chain, k));
  }

  /** factomd: the request fails, or gives the block with this key. */
  method GetEBlock(chain: seq<EBlock>, keyMr: string) returns (r: Option<EBlock>)
    ensures r.Some? ==> r.value in chain && r.value.keyMr == keyMr
  {
    r := None;
    for k := 0 to |chain|
      invariant r.Some? ==> r.value in chain && r.value.keyMr == keyMr
    {
      var reachable: bool :| true;
      if reachable && chain[k].keyMr == keyMr { r := Some(chain[k]); }
    }
  }

  class EntryBlockSync {
    var Current: Marker
    var Target: Marker
    var BlocksToBeParsed: seq<Marker>
    ghost var parsed: nat     // how many blocks of the chain are done
    ghost var known: nat      // and how many are known

    /** Between the two markers lie exactly the blocks of the chain from one to the other, in order. */
    ghost predicate Valid(chain: seq<EBlock>)
      reads this
    {
      && parsed <= known <= |chain|
      && Current == MarkerAt(chain, parsed) && Target == MarkerAt(chain, known)
      && BlocksToBeParsed == Markers(chain, parsed, known)
    }

    constructor ()
      ensures forall chain :: Valid(chain)
      ensures parsed == known == 0
    {
      Current, Target, BlocksToBeParsed := NoMarker, NoMarker, [];
      parsed, known := 0, 0;
    }

    /**
      The k-th block is the new target, unless it is older than the target. Only the next block keeps the
      queue whole: the target itself would be queued a second time, a later block would leave a gap.
     */
    method AddNewHeadMarker(chain: seq<EBlock>, marker: Marker, ghost k: nat)
      requires Valid(chain) && GoodChain(chain)
      requires 1 <= k <= |chain| && marker == MarkerAt(chain, k)
      modifies this`BlocksToBeParsed, this`Target, this`known
      ensures known == if k > old(known) then k else old(known)
      ensures Valid(chain) <==> k < old(known) || k == old(known) + 1
      ensures if k < old(known) then BlocksToBeParsed == old(BlocksToBeParsed) && Target == old(Target)
        else BlocksToBeParsed == old(BlocksToBeParsed) + [marker] && Target == marker
    {
      hide GoodChain, ZeroHash;
      if k != known { Sequences(chain, k, known); }
      if k == known + 1 { MarkersSnoc(chain, parsed, known); }
      if KeyOf(Target) != "" && marker.block.sequence < Target.block.sequence {
        return;
      }
      BlocksToBeParsed := BlocksToBeParsed + [marker];
      Target := marker;
      known := if k > known then k else known;
    }

    /** Walks back from the reported head to the target, or to the start, and adds what was passed. */
    method SyncBlocks(chain: seq<EBlock>) returns (ok: bool, ghost head: nat)
      requires Valid(chain) && GoodChain(chain)
      modifies this`BlocksToBeParsed, this`Target, this`known
      ensures Valid(chain)
      ensures if ok then 0 < head <= |chain| && known == (if head > old(known) then head else old(known))
        else BlocksToBeParsed == old(BlocksToBeParsed) && Target == old(Target) && known == old(known)
    {
      hide GoodChain, ZeroHash;
      var expected := Target;
      var heb;
      heb, head := GetChainHead(chain);
      if heb.None? {
        return false, head;
      }
      KeysDistinct(chain, head, known);
      if KeyOf(expected) == heb.value {
        return true, head;
      }
      var eblocks;
      ghost var stop;
      ok, eblocks, stop := WalkBack(chain, heb.value, head);
      if !ok {
        return;
      }
      ghost var before := known;
      for i := |eblocks| downto 0
        invariant Valid(chain)
        invariant known == if head > before then head - i else before
      {
        AddNewHeadMarker(chain, eblocks[i], head - i);
      }
    }

    /** The blocks from the head back to the target, newest first. */
    method WalkBack(chain: seq<EBlock>, heb: string, ghost head: nat)
      returns (ok: bool, eblocks: seq<Marker>, ghost stop: nat)
      requires Valid(chain) && GoodChain(chain) && 0 < head <= |chain| && heb == KeyAt(chain, head) && head != known
      ensures ok ==> stop == (if head > known then known else 0) && |eblocks| == head - stop
      ensures ok ==> forall i | 0 <= i < |eblocks| :: eblocks[i] == MarkerAt(chain, head - i)
    {
      hide GoodChain, ZeroHash;
      var next := heb;
      eblocks, stop := [], head;
      KeysDistinct(chain, stop, known);
      while next != KeyOf(Target) && next != ZeroHash()
        invariant stop <= head && next == KeyAt(chain, stop) && |eblocks| == head - stop
        invariant head > known ==> stop >= known
        invariant next == ZeroHash() <==> stop == 0
        invariant next == KeyOf(Target) <==> stop == known > 0
        invariant forall i | 0 <= i < |eblocks| :: eblocks[i] == MarkerAt(chain, head - i)
        decreases stop
      {
        var eblock := GetEBlock(chain, next);
        if eblock.None? {
          return false, eblocks, stop;
        }
        TheBlock(chain, eblock.value, stop);
        eblocks := eblocks + [Marker(next, eblock.value)];
        next := eblock.value.prevKeyMr;
        stop := stop - 1;
        KeysDistinct(chain, stop, known);
      }
      return true, eblocks, stop;
    }

    predicate Synced()
      reads this
    {
      SameMarker(Current, Target)
    }

    method BlockParsed(chain: seq<EBlock>, block: Marker)
      requires Valid(chain) && GoodChain(chain)
      requires BlocksToBeParsed != [] && SameMarker(BlocksToBeParsed[0], block) && block.Marker? && block.block in chain
      requires block.block.keyMr == block.keyMr
      modifies this`Current, this`BlocksToBeParsed, this`parsed
      ensures Valid(chain) && parsed == old(parsed) + 1
    {
      hide GoodChain, ZeroHash;
      assert BlocksToBeParsed[0] == MarkerAt(chain, parsed + 1);
      TheBlock(chain, block.block, parsed + 1);
      MarkersTail(chain, parsed, known);
      Current := block;
      BlocksToBeParsed := BlocksToBeParsed[1..];
      parsed := parsed + 1;
    }
  }

  lemma TheBlock(chain: seq<EBlock>, b: EBlock, k: nat)
    requires GoodChain(chain) && 0 < k <= |chain| && b in chain && b.keyMr == KeyAt(chain, k)
    ensures b == chain[k - 1] && b.prevKeyMr == KeyAt(chain, k - 1) && Marker(b.keyMr, b) == MarkerAt(chain, k)
  {
    var j :| 0 <= j < |chain| && chain[j] == b;
    KeysDistinct(chain, j + 1, k);
    assert Linked(chain, j);
  }
}
