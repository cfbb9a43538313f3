/** The writer of one block: it collects the rankings of the miners and writes the best (mining/entryWriter.go). */
module BlockWriter {
  import opened Common
  import opened Aggregator

  lemma MergeablePrefix(keep: nat, rankings: seq<NonceRanking?>, k: nat)
    requires Mergeable(keep, rankings) && k <= |rankings|
    ensures Mergeable(keep, rankings[..k])
  {
    hide NonceRanking.Valid;
  }

  /** The k-th arrival is the first after which as many have arrived as are registered. */
  ghost predicate EndsAt(registered: seq<nat>, k: nat) {
    1 <= k <= |registered| && registered[k - 1] == k && forall a | 0 <= a < k - 1 :: registered[a] != a + 1
  }

  lemma OneEnd(registered: seq<nat>, j: nat, k: nat)
    requires EndsAt(registered, j) && EndsAt(registered, k)
    ensures j == k
  {
  }

  class EntryWriter {
    const Keep: nat
    var Next: EntryWriter?
    var miners: nat
    var oprTemplate: Option<seq<byte>>
    var collecting: bool      // set by the first CollectAndWrite, for good

    constructor (keep: nat)
      ensures Keep == keep && Next == null && miners == 0 && oprTemplate == None && !collecting
    {
      Keep, Next, miners, oprTemplate, collecting := keep, null, 0, None, false;
    }

    /** All miners share the next writer: it is made once, and asking again gives the same one. */
    method NextBlockWriter() returns (n: EntryWriter)
      modifies this`Next
      ensures n == Next && n.Keep == (if old(Next) == null then Keep else old(Next).Keep)
      ensures
        if old(Next) == null then fresh(n) && n.miners == 0 && n.oprTemplate == None && !n.collecting
        else n == old(Next)
    {
      if Next == null {
        Next := new EntryWriter(Keep);
      }
      n := Next;
    }

    method AddMiner()
      modifies this`miners
      ensures miners == old(miners) + 1
    {
      miners := miners + 1;
    }

    /** The first record stays. */
    method SetOPR(opr: seq<byte>)
      modifies this`oprTemplate
      ensures oprTemplate == if old(oprTemplate) == None then Some(opr) else old(oprTemplate)
    {
      if oprTemplate == None { oprTemplate := Some(opr); }
    }

    /**
      Waits until there are as many rankings as miners are registered. Others may register in the
      meantime: `registered` holds their number as of each arrival.
     */
    method GatherLists(arrivals: seq<NonceRanking?>, registered: seq<nat>)
      returns (complete: bool, aggregate: seq<NonceRanking?>)
      requires |registered| == |arrivals|
      modifies this`miners
      ensures complete <==> exists k: nat :: EndsAt(registered, k)
      ensures complete ==> EndsAt(registered, |aggregate|) && aggregate == arrivals[..|aggregate|]
      ensures complete ==> miners == |aggregate|
    {
      aggregate := [];
      while |aggregate| < |arrivals|
        invariant |aggregate| <= |arrivals| && aggregate == arrivals[..|aggregate|]
        invariant forall a | 0 <= a < |aggregate| :: registered[a] != a + 1
      {
        miners := registered[|aggregate|];
        aggregate := aggregate + [arrivals[|aggregate|]];
        if |aggregate| == miners {
          assert EndsAt(registered, |aggregate|);
          return true, aggregate;
        }
      }
      return false, aggregate;
    }

    /**
      Writes the best of everything offered to the miners it collected, best first. `arrivals` is what
      comes through the channel; None while the wait is not over, and for every call but the first.
     */
    method CollectAndWrite(arrivals: seq<NonceRanking?>, registered: seq<nat>)
      returns (written: Option<seq<UniqueOPRData>>)
      requires Keep >= 1 && Mergeable(Keep, arrivals) && |registered| == |arrivals|
      modifies this`collecting, this`miners, arrivals
      ensures collecting
      ensures written.Some? <==> !old(collecting) && exists k: nat :: EndsAt(registered, k)
      ensures written.Some? ==> forall k: nat | EndsAt(registered, k) ::
        && Difficulties(written.value) == Top(Keep, Difficulties(old(AllOffered(arrivals[..k]))))
        && multiset(written.value) <= multiset(old(AllOffered(arrivals[..k])))
    {
      hide Top, Difficulties, Mergeable, AllOffered, EndsAt;
      if collecting {
        return None;
      }
      collecting := true;
      var complete, aggregate := GatherLists(arrivals, registered);
      if !complete {
        return None;
      }
      forall k: nat | EndsAt(registered, k)
        ensures k == |aggregate|
      {
        OneEnd(registered, k, |aggregate|);
      }
      MergeablePrefix(Keep, arrivals, |aggregate|);
      var nonces := CollectTop(Keep, aggregate);
      return Some(nonces);
    }
  }
}
