/** What miners write is what graders accept. */
module MinedRecords {
  import opened Common
  import opened StableSort
  import opened Grading
  import opened Aggregator
  import opened BlockOrder
  import opened MiningProtocol
  import opened MiningTheorems

  /** The record of the block with a nonce and the difficulty reported for it. */
  function Record(template: Opr, u: UniqueOPRData): Opr {
    template.(nonce := u.nonce, selfReportedDifficulty := u.difficulty)
  }

  /** Miners and graders hash alike: the OPR hash with the nonce behind it. */
  ghost predicate SameHash(w: World, pow: Grading.Pow) {
    forall hash, nonce :: w.pow(hash, nonce) == pow(hash + nonce)
  }

  lemma SuffixDecides(a: seq<byte>, b: seq<byte>, c: seq<byte>)
    ensures a + c == b + c ==> a == b
  {
    if a + c == b + c {
      assert |a| == |b| && a == (a + c)[..|a|] && b == (b + c)[..|b|];
    }
  }

  /**
    Of the records written for a block no grader drops one: all report their difficulty honestly, and
    none counts as a duplicate of another.
   */
  lemma MinedAccepted(w: World, start: State, steps: seq<Step>, s: State, b: nat, written: seq<UniqueOPRData>,
      template: Opr, pow: Grading.Pow)
    requires Reached(w, start, steps, s) && w.n <= 256 && SameHash(w, pow)
    requires b < |s.writers| && s.writers[b].received <= |s.writers[b].sent|
    requires forall a | 0 <= a < s.writers[b].received :: s.writers[b].sent[a].ranking < |s.heap|
    requires multiset(written) <= multiset(Collected(s, s.writers[b].sent, s.writers[b].received))
    ensures b < |Made(steps)|
    ensures template.oprHash == Made(steps)[b].0 ==>
      var records := Map(written, u => Record(template, u));
      Distinct(records, {}) == records && HonestOnes(pow, records) == records
  {
    hide Reached, Made, Collected, Distinct;
    WrittenRecords(w, start, steps, s, b, written);
    if template.oprHash == Made(steps)[b].0 {
      var records := Map(written, u => Record(template, u));
      forall i, j | 0 <= i < j < |records|
        ensures Id(records[i]) != Id(records[j])
      {
        SuffixDecides(written[i].nonce, written[j].nonce, template.oprHash);
      }
      DistinctIdentity(records, {});
      forall i | 0 <= i < |records|
        ensures Honest(pow, records[i])
      {
        assert written[i] in written;
      }
      FilterAll(records, o => Honest(pow, o));
    }
  }
}
