/** What holds of every run of the mining protocol, in whatever order the goroutines move. */
module MiningTheorems {
  import opened Common
  import opened Sequences
  import opened Aggregator
  import opened Nonce
  import opened MiningProtocol
  import opened MiningSafety

  /** Some run leads to s. */
  ghost predicate Reached(w: World, start: State, steps: seq<Step>, s: State) {
    Init(w, start) && Play(w, start, steps) == Some(s)
  }

  lemma ReachedInv(w: World, start: State, steps: seq<Step>, s: State)
    requires Reached(w, start, steps, s)
    ensures Inv(w, s)
  {
    InitInv(w, start);
    RunInv(w, start, steps);
  }

  lemma SameMiners(w: World, s: State, step: Step)
    requires Inv(w, s) && Enabled(w, s, step)
    ensures |Next(w, s, step).miners| == |s.miners|
  {
    hide Inv;
  }

  lemma {:induction false} PlayBoth(w: World, s: State, steps: seq<Step>, more: seq<Step>)
    requires Play(w, s, steps).Some?
    ensures Play(w, s, steps + more) == Play(w, Play(w, s, steps).value, more)
    decreases |steps|
  {
    hide Enabled, Next;
    if steps == [] {
      assert steps + more == more;
    } else {
      assert (steps + more)[1..] == steps[1..] + more;
      PlayBoth(w, Next(w, s, steps[0]), steps[1..], more);
    }
  }

  lemma PlayOne(w: World, s: State, step: Step)
    requires Enabled(w, s, step)
    ensures Play(w, s, [step]) == Some(Next(w, s, step))
  {
    hide Enabled, Next;
    assert [step][1..] == [];
  }

  // ---------- the command streams ----------

  /** The batches miner i takes off its queue during a run, in order. */
  function TakenBy(w: World, s: State, steps: seq<Step>, i: nat): seq<Batch>
    requires Play(w, s, steps).Some?
    decreases |steps|
  {
    if steps == [] then []
    else
      (if steps[0] == Take(i) then [s.miners[i].queue[0]] else []) + TakenBy(w, Next(w, s, steps[0]), steps[1..], i)
  }

  /** One step only appends to the history, and only the miner's own Take advances it. */
  lemma StepHistory(w: World, s: State, step: Step, i: nat)
    requires Enabled(w, s, step) && i < |s.miners|
    ensures var t := Next(w, s, step);
      && s.issued <= t.issued && |t.miners| == |s.miners|
      && t.miners[i].taken == s.miners[i].taken + (if step == Take(i) then 1 else 0)
  {
    hide Commands, NonceAt;
  }

  lemma TakesNext(w: World, s: State, i: nat)
    requires Inv(w, s) && Enabled(w, s, Take(i))
    ensures s.miners[i].taken < |s.issued| && s.miners[i].queue[0] == s.issued[s.miners[i].taken]
  {
    hide PhaseOk, QueueOk, WriterOk;
    assert MinerOk(w, s, i);
    TakeQueue(s.miners[i], s.issued, Delivered(s, i));
  }

  lemma {:induction false} RunHistory(w: World, s: State, steps: seq<Step>, i: nat)
    requires Inv(w, s) && Play(w, s, steps).Some? && i < |s.miners|
    ensures var t := Play(w, s, steps).value;
      && Inv(w, t) && |t.miners| == |s.miners| && s.issued <= t.issued
      && s.miners[i].taken <= t.miners[i].taken <= |t.issued|
      && TakenBy(w, s, steps, i) == t.issued[s.miners[i].taken..t.miners[i].taken]
    decreases |steps|
  {
    hide MinerOk, WriterOk, CoordinatorOk, Next, Enabled;
    RunInv(w, s, steps);
    if steps == [] {
      TakenBound(w, s, i);
    } else {
      var t := Next(w, s, steps[0]);
      StepHistory(w, s, steps[0], i);
      StepInv(w, s, steps[0]);
      RunHistory(w, t, steps[1..], i);
      var z, k := Play(w, s, steps).value, t.miners[i].taken;
      if steps[0] == Take(i) {
        TakesNext(w, s, i);
        assert z.issued[k - 1] == t.issued[..|s.issued|][k - 1];
        assert z.issued[k - 1..z.miners[i].taken] == [z.issued[k - 1]] + z.issued[k..z.miners[i].taken];
      }
    }
  }

  lemma TakenBound(w: World, s: State, i: nat)
    requires Inv(w, s) && i < |s.miners|
    ensures s.miners[i].taken <= |s.issued|
  {
    assert MinerOk(w, s, i);
  }

  /** Every miner takes start 0, stop 0, start 1, stop 1, and so on: nothing lost, doubled or reordered. */
  lemma StreamsAlternate(w: World, start: State, steps: seq<Step>, i: nat)
    requires Init(w, start) && Play(w, start, steps).Some? && i < w.n
    ensures Alternates(TakenBy(w, start, steps, i))
    ensures TakenBy(w, start, steps, i) <= Play(w, start, steps).value.issued
  {
    hide Next, Enabled, MinerOk, WriterOk;
    InitInv(w, start);
    RunHistory(w, start, steps, i);
  }

  // ---------- the record of a block ----------

  /** The OPR hashes and minimum difficulties of the records made during a run, in order. */
  function Made(steps: seq<Step>): seq<(seq<byte>, uint64)>
    decreases |steps|
  {
    if steps == [] then []
    else (if steps[0].Minute1? then [(steps[0].oprHash, steps[0].minimum)] else []) + Made(steps[1..])
  }

  /** A step starts a new block exactly if it made a record, and with that record. */
  lemma StepMakes(w: World, s: State, step: Step)
    requires Inv(w, s) && Enabled(w, s, step)
    ensures var t, k := Next(w, s, step), |s.writers|;
      && |t.writers| == k + (if step.Minute1? then 1 else 0)
      && |s.issued| >= 2 * k - 1
      && (forall b | 0 <= b < k :: 2 * b < |s.issued| && 2 * b < |t.issued| && t.issued[2 * b] == s.issued[2 * b])
      && (step.Minute1? ==> 2 * k < |t.issued| && t.issued[2 * k] == Start(k, step.oprHash, step.minimum))
  {
    hide MinerOk, WriterOk, NonceAt, Commands;
  }

  /** Blocks from the k-th on that are started during a run carry the records made in it. */
  lemma {:induction false} RunMakes(w: World, s: State, steps: seq<Step>, b: nat)
    requires Inv(w, s) && Play(w, s, steps).Some?
    ensures var t, k := Play(w, s, steps).value, |s.writers|;
      && |t.writers| == k + |Made(steps)|
      && (b < |t.writers| ==> 2 * b < |t.issued|)
      && (b < k ==> 2 * b < |s.issued| && t.issued[2 * b] == s.issued[2 * b])
      && (k <= b < |t.writers| ==> t.issued[2 * b] == Start(b, Made(steps)[b - k].0, Made(steps)[b - k].1))
    decreases |steps|
  {
    hide Inv, Next, Enabled;
    if steps == [] {
      if b < |s.writers| { BlockIssued(w, s, b); }
    } else {
      var k := |s.writers|;
      StepMakes(w, s, steps[0]);
      StepInv(w, s, steps[0]);
      RunMakes(w, Next(w, s, steps[0]), steps[1..], b);
      if b < k { BlockIssued(w, s, b); }
    }
  }

  lemma BlockIssued(w: World, s: State, b: nat)
    requires Inv(w, s) && b < |s.writers|
    ensures 2 * b < |s.issued|
  {
    hide MinerOk, WriterOk;
  }

  /** In every run there is one block for each record made, and its start batch carries that record's hash and minimum. */
  lemma BlocksMade(w: World, start: State, steps: seq<Step>, s: State)
    requires Reached(w, start, steps, s)
    ensures |s.writers| == |Made(steps)|
    ensures forall b | 0 <= b < |s.writers| ::
      2 * b < |s.issued| && s.issued[2 * b] == Start(b, Made(steps)[b].0, Made(steps)[b].1)
  {
    hide Next, Enabled, Inv, Made;
    InitInv(w, start);
    RunMakes(w, start, steps, 0);
    forall b | 0 <= b < |s.writers|
      ensures 2 * b < |s.issued| && s.issued[2 * b] == Start(b, Made(steps)[b].0, Made(steps)[b].1)
    {
      RunMakes(w, start, steps, b);
    }
  }

  // ---------- what is sent ----------

  /** u is what miner i gets for one of its first n nonces under this hash, and it passes the minimum. */
  ghost predicate Tried(w: World, i: nat, hash: seq<byte>, min: uint64, n: nat, u: UniqueOPRData) {
    u.difficulty > min && exists k | 1 <= k <= n :: u == UniqueOPRData(NonceAt(i % 256, k), w.pow(hash, NonceAt(i % 256, k)))
  }

  /** Exactly the nonces that pass are offered, and none twice. */
  lemma {:induction false} OffersTried(w: World, i: nat, hash: seq<byte>, min: uint64, n: nat)
    ensures forall u :: u in Offers(w, i, hash, min, n) <==> Tried(w, i, hash, min, n, u)
    ensures NoRepeats(Offers(w, i, hash, min, n))
  {
    hide NonceAt;
    if n > 0 {
      OffersTried(w, i, hash, min, n - 1);
      var prev, nonce := Offers(w, i, hash, min, n - 1), NonceAt(i % 256, n);
      var u0 := UniqueOPRData(nonce, w.pow(hash, nonce));
      if u0 in prev {
        var k :| 1 <= k <= n - 1 && u0 == UniqueOPRData(NonceAt(i % 256, k), w.pow(hash, NonceAt(i % 256, k)));
        NoncesDistinct(i % 256, n, i % 256, k);
        assert false;
      }
      forall u
        ensures u in Offers(w, i, hash, min, n) <==> Tried(w, i, hash, min, n, u)
      {
        TriedStep(w, i, hash, min, n, u);
      }
    }
  }

  lemma TriedStep(w: World, i: nat, hash: seq<byte>, min: uint64, n: nat, u: UniqueOPRData)
    requires n > 0
    ensures Tried(w, i, hash, min, n, u) <==>
      (Tried(w, i, hash, min, n - 1, u)
      || (u == UniqueOPRData(NonceAt(i % 256, n), w.pow(hash, NonceAt(i % 256, n))) && u.difficulty > min))
  {
    hide NonceAt;
  }

  /**
    What is sent for a block: from each miner at most one ranking, made by that miner, holding exactly
    those of its first `count` nonces that pass under the hash and the minimum of the record made for
    this block.
   */
  lemma SentForOneBlock(w: World, start: State, steps: seq<Step>, s: State, b: nat, a: nat)
    requires Reached(w, start, steps, s) && b < |s.writers| && a < |s.writers[b].sent|
    ensures b < |Made(steps)|
    ensures var x := s.writers[b].sent[a];
      && x.miner < w.n && x.ranking < |s.heap| && s.heap[x.ranking].owner == x.miner
      && (forall u :: u in s.heap[x.ranking].offered <==>
        Tried(w, x.miner, Made(steps)[b].0, Made(steps)[b].1, x.count, u))
      && (forall a' | 0 <= a' < |s.writers[b].sent| && a' != a :: s.writers[b].sent[a'].miner != x.miner)
  {
    hide MinerOk, Tried, Offers, Made;
    ReachedInv(w, start, steps, s);
    BlocksMade(w, start, steps, s);
    assert WriterOk(w, s, b);
    SubmissionRanking(w, s, b, a);
    var x := s.writers[b].sent[a];
    OffersTried(w, x.miner, s.issued[2 * b].oprHash, s.issued[2 * b].minimum, x.count);
  }

  /** One step takes nothing back of what was sent. */
  lemma StepSent(w: World, s: State, step: Step, b: nat)
    requires Inv(w, s) && Enabled(w, s, step) && b < |s.writers|
    ensures b < |Next(w, s, step).writers| && s.writers[b].sent <= Next(w, s, step).writers[b].sent
    ensures s.issued <= Next(w, s, step).issued
  {
    hide MinerOk, WriterOk, NonceAt, Commands;
  }

  lemma {:induction false} RunSent(w: World, s: State, steps: seq<Step>, b: nat)
    requires Inv(w, s) && Play(w, s, steps).Some? && b < |s.writers|
    ensures var t := Play(w, s, steps).value;
      b < |t.writers| && s.writers[b].sent <= t.writers[b].sent && s.issued <= t.issued
    decreases |steps|
  {
    hide Inv, Next, Enabled;
    if steps != [] {
      StepSent(w, s, steps[0], b);
      StepInv(w, s, steps[0]);
      RunSent(w, Next(w, s, steps[0]), steps[1..], b);
    }
  }

  /** Once sent, a ranking object is never written again, whatever happens afterwards. */
  lemma SentIsFinal(w: World, start: State, steps: seq<Step>, s: State, more: seq<Step>, t: State, b: nat, a: nat)
    requires Reached(w, start, steps, s) && Play(w, s, more) == Some(t)
    requires b < |s.writers| && a < |s.writers[b].sent|
    ensures b < |t.writers| && a < |t.writers[b].sent| && t.writers[b].sent[a] == s.writers[b].sent[a]
    ensures var x := s.writers[b].sent[a];
      x.ranking < |s.heap| && x.ranking < |t.heap| && t.heap[x.ranking] == s.heap[x.ranking]
  {
    hide MinerOk, WriterOk, Next, Enabled, Offers, Exclusive, HasSubmitted;
    ReachedInv(w, start, steps, s);
    RunInv(w, s, more);
    RunSent(w, s, more, b);
    SubmissionRanking(w, s, b, a);
    SubmissionRanking(w, t, b, a);
  }

  // ---------- the barrier between blocks ----------

  function Senders(sent: seq<Submission>): set<nat> {
    set x | x in sent :: x.miner
  }

  lemma {:induction false} SendersCount(sent: seq<Submission>)
    requires forall a, b | 0 <= a < b < |sent| :: sent[a].miner != sent[b].miner
    ensures |Senders(sent)| == |sent|
  {
    if sent != [] {
      var k := |sent| - 1;
      SendersCount(sent[..k]);
      assert Senders(sent) == Senders(sent[..k]) + {sent[k].miner} by {
        assert forall x :: x in sent <==> x in sent[..k] || x == sent[k];
      }
    }
  }

  function Below(n: nat): (r: set<nat>)
    ensures |r| == n && forall i: nat :: i in r <==> i < n
  {
    if n == 0 then {} else Below(n - 1) + {n - 1}
  }

  lemma SubsetOfSameSize(a: set<nat>, b: set<nat>)
    requires a <= b
    ensures |a| <= |b| && (|a| == |b| ==> a == b)
  {
    assert b == a + (b - a);
  }

  lemma SendersBound(w: World, s: State, b: nat)
    requires Inv(w, s) && b < |s.writers|
    ensures Senders(s.writers[b].sent) <= Below(w.n) && |s.writers[b].sent| <= w.n
    ensures |s.writers[b].sent| == w.n ==> Senders(s.writers[b].sent) == Below(w.n)
  {
    hide MinerOk;
    assert WriterOk(w, s, b);
    var sent := s.writers[b].sent;
    SendersCount(sent);
    forall x | x in sent
      ensures x.miner in Below(w.n)
    {
      var a :| 0 <= a < |sent| && sent[a] == x;
      SubmissionRanking(w, s, b, a);
    }
    SubsetOfSameSize(Senders(sent), Below(w.n));
  }

  /** Before the next block is started, every miner has sent its ranking for this one, once. */
  lemma Barrier(w: World, start: State, steps: seq<Step>, s: State, b: nat)
    requires Reached(w, start, steps, s) && b + 1 < |s.writers|
    ensures |s.writers[b].sent| == w.n && Senders(s.writers[b].sent) == Below(w.n)
  {
    hide MinerOk, WriterOk;
    ReachedInv(w, start, steps, s);
    SendersBound(w, s, b);
    CompleteHere(w, s, b);
  }

  /** A miner that has submitted a block is past its stop batch. */
  lemma AllPast(w: World, s: State, b: nat, i: nat)
    requires Inv(w, s) && b < |s.writers| && |s.writers[b].sent| >= w.n && i < w.n
    ensures HasSubmitted(s.miners[i], b)
  {
    hide MinerOk;
    SendersBound(w, s, b);
    var sent := s.writers[b].sent;
    assert i in Senders(sent);
    var x :| x in sent && x.miner == i;
    var a :| 0 <= a < |sent| && sent[a] == x;
    assert WriterOk(w, s, b);
    SubmissionRanking(w, s, b, a);
  }

  /** Handing out a batch never blocks: no more than one earlier batch is still on any queue. */
  lemma SendNeverBlocks(w: World, start: State, steps: seq<Step>, s: State)
    requires Reached(w, start, steps, s) && s.pc.Sending? && s.pc.next < w.n
    ensures Enabled(w, s, Send) && |s.miners[s.pc.next].queue| <= 1
  {
    hide WriterOk, PhaseOk;
    ReachedInv(w, start, steps, s);
    var i := s.pc.next;
    assert MinerOk(w, s, i);
    var b := |s.writers| - 1;
    if b > 0 {
      CompleteHere(w, s, b - 1);
      AllPast(w, s, b - 1, i);
    }
  }

  // ---------- no nil dereference ----------

  /** A miner that tries a nonce has a stats object; one that submits has that and both channels, of one block. */
  lemma NothingNil(w: World, start: State, steps: seq<Step>, s: State, i: nat)
    requires Reached(w, start, steps, s) && i < w.n
    ensures |s.miners| == w.n
    ensures Enabled(w, s, Hash(i)) ==> s.miners[i].stats
    ensures s.miners[i].pending != [] && s.miners[i].pending[0].SubmitNonces? ==>
      s.miners[i].stats && s.miners[i].writer.Some? && s.miners[i].statsChannel == s.miners[i].writer
    ensures s.miners[i].pending != [] && s.miners[i].pending[0].RecordAggregator? ==> Enabled(w, s, Handle(i))
  {
    hide WriterOk, Commands, Offers;
    ReachedInv(w, start, steps, s);
    if Enabled(w, s, Hash(i)) { HashingMiner(w, s, i); }
    if s.miners[i].pending != [] {
      Executing(w, s, i);
      var b := s.issued[s.miners[i].taken - 1];
      OnlyStopSubmits(b, Position(s.miners[i], b));
      if s.miners[i].pending[0].RecordAggregator? { CommandBlock(b, Position(s.miners[i], b)); }
    }
  }

  lemma CommandBlock(b: Batch, p: nat)
    requires p < |Commands(b)| && Commands(b)[p].RecordAggregator?
    ensures Commands(b)[p].block == b.block && b.Start?
  {
  }

  // ---------- what is written ----------

  /** Everything offered to the rankings the writer of block b has received so far. */
  function Collected(s: State, sent: seq<Submission>, k: nat): seq<UniqueOPRData>
    requires k <= |sent| && forall a | 0 <= a < k :: sent[a].ranking < |s.heap|
  {
    if k == 0 then [] else Collected(s, sent, k - 1) + s.heap[sent[k - 1].ranking].offered
  }

  /** A difficulty above the minimum that the nonce really has under the hash of the block. */
  ghost predicate Genuine(w: World, hash: seq<byte>, min: uint64, u: UniqueOPRData) {
    u.difficulty == w.pow(hash, u.nonce) && u.difficulty > min
  }

  /** What miners before the k-th sender offered starts with other id bytes than what that one offered. */
  lemma OtherNonces(w: World, i: nat, j: nat, hash: seq<byte>, min: uint64, n: nat, n': nat, u: UniqueOPRData,
      v: UniqueOPRData)
    requires i < 256 && j < 256 && i != j
    requires Tried(w, i, hash, min, n, u) && Tried(w, j, hash, min, n', v)
    ensures u != v
  {
    hide NonceAt;
    var k :| 1 <= k <= n && u == UniqueOPRData(NonceAt(i % 256, k), w.pow(hash, NonceAt(i % 256, k)));
    var k' :| 1 <= k' <= n' && v == UniqueOPRData(NonceAt(j % 256, k'), w.pow(hash, NonceAt(j % 256, k')));
    NoncesDistinct(i % 256, k, j % 256, k');
  }

  /** Each collected nonce is one that one of the senders tried. */
  lemma {:induction false} CollectedTried(w: World, s: State, b: nat, k: nat, u: UniqueOPRData)
    requires Inv(w, s) && b < |s.writers| && k <= |s.writers[b].sent|
    ensures 2 * b < |s.issued| && s.issued[2 * b].Start?
    ensures forall a | 0 <= a < k :: s.writers[b].sent[a].ranking < |s.heap|
    ensures u in Collected(s, s.writers[b].sent, k) ==>
      exists a | 0 <= a < k ::
        Tried(w, s.writers[b].sent[a].miner, s.issued[2 * b].oprHash, s.issued[2 * b].minimum, s.writers[b].sent[a].count, u)
  {
    hide MinerOk, Tried, Offers;
    assert WriterOk(w, s, b);
    if k > 0 {
      CollectedTried(w, s, b, k - 1, u);
      var x := s.writers[b].sent[k - 1];
      SubmissionRanking(w, s, b, k - 1);
      OffersTried(w, x.miner, s.issued[2 * b].oprHash, s.issued[2 * b].minimum, x.count);
    }
  }

  lemma {:induction false} CollectedOnce(w: World, s: State, b: nat, k: nat)
    requires Inv(w, s) && b < |s.writers| && k <= |s.writers[b].sent| && w.n <= 256
    ensures forall a | 0 <= a < k :: s.writers[b].sent[a].ranking < |s.heap|
    ensures NoRepeats(Collected(s, s.writers[b].sent, k))
  {
    hide MinerOk, Tried, Offers;
    assert WriterOk(w, s, b);
    var sent := s.writers[b].sent;
    if k > 0 {
      CollectedOnce(w, s, b, k - 1);
      var x := sent[k - 1];
      SubmissionRanking(w, s, b, k - 1);
      var hash, min := s.issued[2 * b].oprHash, s.issued[2 * b].minimum;
      OffersTried(w, x.miner, hash, min, x.count);
      var before, last := Collected(s, sent, k - 1), s.heap[x.ranking].offered;
      forall u, v | u in before && v in last
        ensures u != v
      {
        CollectedTried(w, s, b, k - 1, u);
        var a :| 0 <= a < k - 1 && Tried(w, sent[a].miner, hash, min, sent[a].count, u);
        SubmissionRanking(w, s, b, a);
        OtherNonces(w, sent[a].miner, x.miner, hash, min, sent[a].count, x.count, u, v);
      }
      JoinOnce(before, last);
    }
  }

  /**
    Whatever is selected from the collected rankings for block b, every entry written has a nonce no
    other entry has (with at most 256 miners), and a difficulty that the nonce really has under the
    OPR hash of the record made for that block and that passes its minimum.
   */
  lemma WrittenRecords(w: World, start: State, steps: seq<Step>, s: State, b: nat, written: seq<UniqueOPRData>)
    requires Reached(w, start, steps, s) && w.n <= 256
    requires b < |s.writers| && s.writers[b].received <= |s.writers[b].sent|
    requires forall a | 0 <= a < s.writers[b].received :: s.writers[b].sent[a].ranking < |s.heap|
    requires multiset(written) <= multiset(Collected(s, s.writers[b].sent, s.writers[b].received))
    ensures b < |Made(steps)|
    ensures forall u | u in written :: Genuine(w, Made(steps)[b].0, Made(steps)[b].1, u)
    ensures forall p, q | 0 <= p < q < |written| :: written[p].nonce != written[q].nonce
  {
    hide MinerOk, WriterOk, Tried, Collected, Genuine, Made;
    ReachedInv(w, start, steps, s);
    BlocksMade(w, start, steps, s);
    var sent, k := s.writers[b].sent, s.writers[b].received;
    CollectedOnce(w, s, b, k);
    SelectionOnce(written, Collected(s, sent, k));
    forall u | u in written
      ensures Genuine(w, s.issued[2 * b].oprHash, s.issued[2 * b].minimum, u)
    {
      assert u in multiset(written);
      assert u in multiset(Collected(s, sent, k));
      CollectedTried(w, s, b, k, u);
      var a :| 0 <= a < k && Tried(w, sent[a].miner, s.issued[2 * b].oprHash, s.issued[2 * b].minimum, sent[a].count, u);
      TriedGenuine(w, sent[a].miner, s.issued[2 * b].oprHash, s.issued[2 * b].minimum, sent[a].count, u);
    }
    var hash, min := Made(steps)[b].0, Made(steps)[b].1;
    forall p, q | 0 <= p < q < |written|
      ensures written[p].nonce != written[q].nonce
    {
      assert written[p] in written && written[q] in written && written[p] != written[q];
      if written[p].nonce == written[q].nonce { GenuineByNonce(w, hash, min, written[p], written[q]); }
    }
  }

  /** The nonce decides the difficulty. */
  lemma GenuineByNonce(w: World, hash: seq<byte>, min: uint64, u: UniqueOPRData, v: UniqueOPRData)
    requires Genuine(w, hash, min, u) && Genuine(w, hash, min, v) && u.nonce == v.nonce
    ensures u == v
  {
  }

  lemma TriedGenuine(w: World, i: nat, hash: seq<byte>, min: uint64, n: nat, u: UniqueOPRData)
    requires Tried(w, i, hash, min, n, u)
    ensures Genuine(w, hash, min, u)
  {
    hide NonceAt;
  }
}
