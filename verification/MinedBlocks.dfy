/** What is written for a block: the protocol and the writer object put together. */
module MinedBlocks {
  import opened Common
  import opened Aggregator
  import opened BlockWriter
  import opened MiningProtocol
  import opened MiningSafety
  import opened MiningTheorems
  import opened MiningCollection

  /** How many miners are registered for block b each time its collector receives a ranking. */
  function Seen(w: World, s: State, steps: seq<Step>, b: nat): seq<nat>
    requires Play(w, s, steps).Some?
    decreases |steps|
  {
    if steps == [] then []
    else
      (if steps[0] == Collect(b) then [s.writers[b].registered] else []) + Seen(w, Next(w, s, steps[0]), steps[1..], b)
  }

  /** The writer of block b, also before there is one. */
  function WriterOf(s: State, b: nat): Writer {
    if b < |s.writers| then s.writers[b] else NewWriter()
  }

  lemma StepWriterOf(w: World, s: State, step: Step, b: nat)
    requires Inv(w, s) && Enabled(w, s, step)
    ensures var x, y := WriterOf(s, b), WriterOf(Next(w, s, step), b);
      if step == Collect(b) then !x.done && y.received == x.received + 1 && (y.done <==> x.registered == y.received)
      else y.received == x.received && y.done == x.done
  {
    hide Inv, Next, Enabled;
    if b < |s.writers| {
      StepRegistered(w, s, step, b);
      if step == Collect(b) { CollectReceives(w, s, b); }
    } else if |Next(w, s, step).writers| > |s.writers| {
      NoneYet(w, s, step);
      NotCollecting(w, s, step, b);
    } else {
      NotCollecting(w, s, step, b);
    }
  }

  lemma CollectReceives(w: World, s: State, b: nat)
    requires Enabled(w, s, Collect(b))
    ensures b < |s.writers| && !s.writers[b].done
    ensures b < |Next(w, s, Collect(b)).writers| && var y := Next(w, s, Collect(b)).writers[b];
      y.received == s.writers[b].received + 1 && (y.done <==> s.writers[b].registered == y.received)
  {
  }

  lemma NotCollecting(w: World, s: State, step: Step, b: nat)
    requires Enabled(w, s, step) && b >= |s.writers|
    ensures step != Collect(b)
  {
  }

  /** The collector ends when it has received as many rankings as it sees registered, and not before. */
  lemma {:induction false} SeenByCollector(w: World, s: State, steps: seq<Step>, b: nat)
    requires Inv(w, s) && Play(w, s, steps).Some?
    ensures var seen, x, y := Seen(w, s, steps, b), WriterOf(s, b), WriterOf(Play(w, s, steps).value, b);
      && y.received == x.received + |seen|
      && (x.done ==> seen == [] && y.done)
      && (!x.done ==>
        && (forall a | 0 <= a < |seen| - 1 :: seen[a] != x.received + a + 1)
        && (y.done <==> seen != [] && seen[|seen| - 1] == y.received))
    decreases |steps|
  {
    hide Inv, Next, Enabled;
    if steps != [] {
      StepInv(w, s, steps[0]);
      StepWriterOf(w, s, steps[0], b);
      var t := Next(w, s, steps[0]);
      SeenByCollector(w, t, steps[1..], b);
      var rest := Seen(w, t, steps[1..], b);
      if steps[0] == Collect(b) {
        CollectReceives(w, s, b);
        var seen := [s.writers[b].registered] + rest;
        assert Seen(w, s, steps, b) == seen;
        assert forall a | 1 <= a < |seen| :: seen[a] == rest[a - 1];
        assert rest != [] ==> seen[|seen| - 1] == rest[|rest| - 1];
      } else {
        assert Seen(w, s, steps, b) == rest;
      }
    }
  }

  /** When a run has ended the collector of block b, the writer object ends its wait with the same ranking. */
  lemma SeenEnds(w: World, start: State, steps: seq<Step>, s: State, b: nat)
    requires Reached(w, start, steps, s) && b < |s.writers| && s.writers[b].done
    ensures |Seen(w, start, steps, b)| == s.writers[b].received
    ensures EndsAt(Seen(w, start, steps, b), s.writers[b].received)
  {
    hide Inv, Seen;
    InitInv(w, start);
    SeenByCollector(w, start, steps, b);
  }

  /** The ranking objects hold what the protocol says was offered to the rankings received. */
  ghost predicate Mirrors(arrivals: seq<NonceRanking?>, s: State, sent: seq<Submission>)
    reads arrivals
  {
    && |arrivals| <= |sent|
    && forall a | 0 <= a < |arrivals| ::
      arrivals[a] != null && sent[a].ranking < |s.heap| && arrivals[a].offered == s.heap[sent[a].ranking].offered
  }

  lemma {:induction false} OfferedIsCollected(arrivals: seq<NonceRanking?>, s: State, sent: seq<Submission>, k: nat)
    requires Mirrors(arrivals, s, sent) && k <= |arrivals|
    ensures AllOffered(arrivals[..k]) == Collected(s, sent, k)
  {
    if k > 0 {
      OfferedIsCollected(arrivals, s, sent, k - 1);
      assert arrivals[..k][..k - 1] == arrivals[..k - 1];
    }
  }

  /**
    What the writer of block b writes after a run that ended its collector: the `keep` best of all that
    the miners it heard had offered, each with its own nonce, which has that difficulty under the OPR
    hash of the record made for this block.
   */
  method WriteBlock(writer: EntryWriter, arrivals: seq<NonceRanking?>, registered: seq<nat>,
      ghost w: World, ghost start: State, ghost steps: seq<Step>, ghost s: State, ghost b: nat)
    returns (written: Option<seq<UniqueOPRData>>)
    requires Reached(w, start, steps, s) && w.n <= 256 && b < |s.writers| && s.writers[b].done
    requires writer.Keep == w.keep >= 1 && !writer.collecting
    requires Mergeable(w.keep, arrivals) && Mirrors(arrivals, s, s.writers[b].sent)
    requires |arrivals| == s.writers[b].received && registered == Seen(w, start, steps, b)
    modifies writer`collecting, writer`miners, arrivals
    ensures written.Some?
    ensures Difficulties(written.value)
      == Top(w.keep, Difficulties(Collected(s, s.writers[b].sent, s.writers[b].received)))
    ensures b < |Made(steps)|
    ensures forall u | u in written.value :: Genuine(w, Made(steps)[b].0, Made(steps)[b].1, u)
    ensures forall p, q | 0 <= p < q < |written.value| :: written.value[p].nonce != written.value[q].nonce
  {
    hide Reached, Mergeable, Top, Difficulties, Genuine, Collected, AllOffered, Seen, EndsAt, Made;
    ghost var k := s.writers[b].received;
    SeenEnds(w, start, steps, s, b);
    OfferedIsCollected(arrivals, s, s.writers[b].sent, k);
    written := writer.CollectAndWrite(arrivals, registered);
    WrittenRecords(w, start, steps, s, b, written.value);
  }
}
