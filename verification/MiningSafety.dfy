/**
  What every run of the mining protocol keeps: alternating commands, rankings that belong to one
  block and are final once sent, and a complete hand-over before the next block.
 */
module MiningSafety {
  import opened Common
  import opened Aggregator
  import opened Nonce
  import opened MiningProtocol

  /** What a miner offers to its ranking while trying its first n nonces. */
  function Offers(w: World, i: nat, hash: seq<byte>, min: uint64, n: nat): seq<UniqueOPRData> {
    if n == 0 then []
    else
      var nonce := NonceAt(i % 256, n);
      var diff := w.pow(hash, nonce);
      Offers(w, i, hash, min, n - 1) + if diff > min then [UniqueOPRData(nonce, diff)] else []
  }

  // ---------- the invariant ----------

  /** The stream of batches: start 0, stop 0, start 1, stop 1, and so on. */
  ghost predicate Alternates(issued: seq<Batch>) {
    forall k | 0 <= k < |issued| ::
      if k % 2 == 0 then issued[k].Start? && issued[k].block == k / 2 else issued[k] == Stop(k / 2)
  }

  ghost predicate CoordinatorOk(s: State) {
    && Alternates(s.issued)
    && |s.writers| == (|s.issued| + 1) / 2
    && s.mining == (|s.issued| % 2 == 1)
    && (s.pc.Sending? ==> s.issued != [] && s.pc.next <= |s.miners|)
    && (s.pc.AwaitStats? ==>
      && s.issued != [] && !s.mining && s.pc.got <= |s.writers[Current(s)].sent|
      && (s.pc.got < |s.miners| || s.miners == []) && s.writers[Current(s)].collecting)
  }

  /** How many batches have been put on the queue of miner i. */
  function Delivered(s: State, i: nat): int {
    if s.pc.Sending? && i >= s.pc.next then |s.issued| - 1 else |s.issued|
  }

  /** How many commands of its latest batch a miner has executed. */
  function Position(m: Miner, b: Batch): int {
    |Commands(b)| - |m.pending|
  }

  ghost predicate QueueOk(m: Miner, issued: seq<Batch>, delivered: int) {
    && m.taken <= delivered <= |issued|
    && m.queue == issued[m.taken..delivered]
    && (if m.taken == 0 then m.pending == []
        else
          var b := issued[m.taken - 1];
          Position(m, b) >= 0 && m.pending == Commands(b)[Position(m, b)..])
  }

  /** The miner is set up for the block of a start batch and has been mining `count` nonces for it. */
  ghost predicate Mining(w: World, i: nat, m: Miner, b: Batch, r: Ranking)
    requires b.Start?
  {
    && m.writer == m.statsChannel == Some(b.block) && m.stats
    && m.oprHash == b.oprHash && m.minimum == b.minimum && !m.paused
    && r.offered == Offers(w, i, b.oprHash, b.minimum, m.count)
  }

  /** The miner has executed p commands of a start batch. */
  ghost predicate Starting(m: Miner, b: Batch, p: int, r: Ranking)
    requires b.Start?
  {
    && (p >= 1 ==> m.writer == Some(b.block))
    && (p >= 2 ==> m.statsChannel == Some(b.block))
    && (p >= 3 ==> m.stats && m.count == 0 && r.offered == [])
    && (p >= 4 ==> m.oprHash == b.oprHash)
    && (p >= 5 ==> m.minimum == b.minimum)
  }

  ghost predicate PhaseOk(w: World, i: nat, m: Miner, issued: seq<Batch>, r: Ranking)
    requires Alternates(issued) && m.taken <= |issued|
  {
    m.taken > 0 ==>
      var b := issued[m.taken - 1];
      var p := Position(m, b);
      if b.Start? then
        if p < 6 then Starting(m, b, p, r) else Mining(w, i, m, b, r)
      else
        (p == 0 ==> Mining(w, i, m, issued[m.taken - 2], r)) && (p == 2 ==> m.paused)
  }

  ghost predicate MinerOk(w: World, s: State, i: nat)
    requires i < |s.miners| && Alternates(s.issued)
  {
    var m := s.miners[i];
    && QueueOk(m, s.issued, Delivered(s, i))
    && m.ranking < |s.heap| && s.heap[m.ranking].owner == i
    && PhaseOk(w, i, m, s.issued, s.heap[m.ranking])
  }

  /** The miner still owns its current ranking: it is made, and not yet submitted. */
  predicate Exclusive(m: Miner, issued: seq<Batch>)
    requires m.taken <= |issued|
  {
    m.taken > 0 &&
    var b := issued[m.taken - 1];
    if b.Start? then Position(m, b) >= 3 else Position(m, b) == 0
  }

  /** The miner has executed the submission of a block. */
  predicate HasSubmitted(m: Miner, block: nat) {
    m.taken > 2 * block + 2 || (m.taken == 2 * block + 2 && |m.pending| <= 1)
  }

  ghost predicate SubmissionOk(w: World, s: State, block: nat, x: Submission)
    requires 2 * block < |s.issued| && s.issued[2 * block].Start?
  {
    && x.miner < |s.miners| && x.ranking < |s.heap|
    && HasSubmitted(s.miners[x.miner], block)
    && s.heap[x.ranking]
      == Ranking(x.miner, Offers(w, x.miner, s.issued[2 * block].oprHash, s.issued[2 * block].minimum, x.count))
    && (s.miners[x.miner].taken <= |s.issued| && Exclusive(s.miners[x.miner], s.issued) ==>
      s.miners[x.miner].ranking != x.ranking)
  }

  ghost predicate WriterOk(w: World, s: State, block: nat)
    requires block < |s.writers| && CoordinatorOk(s)
  {
    var sent := s.writers[block].sent;
    && s.writers[block].received <= |sent|
    && (forall a | 0 <= a < |sent| :: SubmissionOk(w, s, block, sent[a]))
    && (forall a, b | 0 <= a < b < |sent| :: sent[a].miner != sent[b].miner)
    && Complete(w, s, block)
  }

  /** Once the coordinator has gone past the stop of a block, every miner has submitted. */
  predicate Complete(w: World, s: State, block: nat)
    requires block < |s.writers|
  {
    2 * block + 2 < |s.issued| || (2 * block + 2 == |s.issued| && s.pc == Waiting) ==> |s.writers[block].sent| >= w.n
  }

  ghost predicate Inv(w: World, s: State) {
    && |s.miners| == w.n
    && CoordinatorOk(s)
    && (forall i | 0 <= i < |s.miners| :: MinerOk(w, s, i))
    && (forall b | 0 <= b < |s.writers| :: WriterOk(w, s, b))
  }

  lemma InitInv(w: World, s: State)
    requires Init(w, s)
    ensures Inv(w, s)
  {
  }

  // ---------- preservation ----------

  /** The history has grown, or not. */
  ghost predicate Extends(s: State, t: State) {
    |s.issued| <= |t.issued| && t.issued[..|s.issued|] == s.issued && Alternates(t.issued) && |t.miners| == |s.miners|
  }

  lemma MinerFrame(w: World, s: State, t: State, i: nat)
    requires CoordinatorOk(s) && i < |s.miners| && MinerOk(w, s, i) && Extends(s, t)
    requires t.miners[i] == s.miners[i] && Delivered(t, i) == Delivered(s, i)
    requires s.miners[i].ranking < |t.heap| && t.heap[s.miners[i].ranking] == s.heap[s.miners[i].ranking]
    ensures MinerOk(w, t, i)
  {
    hide Starting, Mining;
    var m := s.miners[i];
    assert forall k | 0 <= k < |s.issued| :: t.issued[k] == s.issued[k];
    assert t.issued[m.taken..Delivered(s, i)] == s.issued[m.taken..Delivered(s, i)];
  }

  lemma SubmissionFrame(w: World, s: State, t: State, b: nat, x: Submission)
    requires 2 * b < |s.issued| && s.issued[2 * b].Start? && SubmissionOk(w, s, b, x) && Extends(s, t)
    requires t.miners[x.miner] == s.miners[x.miner] && s.miners[x.miner].taken <= |s.issued|
    requires x.ranking < |t.heap| && t.heap[x.ranking] == s.heap[x.ranking]
    ensures SubmissionOk(w, t, b, x)
  {
    assert forall k | 0 <= k < |s.issued| :: t.issued[k] == s.issued[k];
  }

  lemma MinerRanking(w: World, s: State, i: nat)
    requires CoordinatorOk(s) && i < |s.miners| && MinerOk(w, s, i)
    ensures s.miners[i].ranking < |s.heap| && s.heap[s.miners[i].ranking].owner == i
    ensures s.miners[i].taken <= Delivered(s, i) <= |s.issued|
  {
  }

  lemma SubmissionRanking(w: World, s: State, b: nat, a: nat)
    requires Inv(w, s) && b < |s.writers| && a < |s.writers[b].sent|
    ensures SubmissionOk(w, s, b, s.writers[b].sent[a])
    ensures var x := s.writers[b].sent[a];
      x.miner < |s.miners| && x.ranking < |s.heap| && s.heap[x.ranking].owner == x.miner
      && s.miners[x.miner].taken <= |s.issued|
  {
    assert WriterOk(w, s, b);
    var x := s.writers[b].sent[a];
    MinerRanking(w, s, x.miner);
  }

  lemma CompleteHere(w: World, s: State, b: nat)
    requires Inv(w, s) && b < |s.writers|
    ensures Complete(w, s, b)
  {
    assert WriterOk(w, s, b);
  }

  /** A step of the coordinator or of a collector: no miner and no ranking moves. */
  lemma QuietInv(w: World, s: State, t: State)
    requires Inv(w, s) && Extends(s, t) && CoordinatorOk(t) && t.miners == s.miners && t.heap == s.heap
    requires forall i | 0 <= i < |s.miners| :: Delivered(t, i) == Delivered(s, i)
    requires |s.writers| <= |t.writers|
    requires forall b | 0 <= b < |s.writers| ::
      t.writers[b].sent == s.writers[b].sent && t.writers[b].received <= |t.writers[b].sent|
    requires forall b | |s.writers| <= b < |t.writers| :: t.writers[b] == NewWriter()
    requires forall b | 0 <= b < |t.writers| :: Complete(w, t, b)
    ensures Inv(w, t)
  {
    hide MinerOk, SubmissionOk, Complete;
    forall i | 0 <= i < |t.miners|
      ensures MinerOk(w, t, i)
    {
      MinerRanking(w, s, i);
      MinerFrame(w, s, t, i);
    }
    forall b | 0 <= b < |t.writers|
      ensures WriterOk(w, t, b)
    {
      if b < |s.writers| {
        assert WriterOk(w, s, b);
        forall a | 0 <= a < |t.writers[b].sent|
          ensures SubmissionOk(w, t, b, t.writers[b].sent[a])
        {
          SubmissionRanking(w, s, b, a);
          SubmissionFrame(w, s, t, b, s.writers[b].sent[a]);
        }
      }
    }
  }

  /** A minute event that makes a batch. */
  lemma MinuteStep(w: World, s: State, step: Step)
    requires Inv(w, s) && Enabled(w, s, step) && (step.Minute1? || step.Minute9?)
    ensures var t := Next(w, s, step);
      && Extends(s, t) && CoordinatorOk(t) && t.miners == s.miners && t.heap == s.heap && |s.writers| <= |t.writers|
      && (forall i | 0 <= i < |s.miners| :: Delivered(t, i) == Delivered(s, i))
  {
    hide MinerOk, WriterOk;
    var t := Next(w, s, step);
    assert t.issued[..|s.issued|] == s.issued;
  }

  lemma CoordinatorStep(w: World, s: State, step: Step)
    requires Inv(w, s) && Enabled(w, s, step)
    requires step.Minute1? || step.Minute9? || step.Sent? || step.ReceiveStats? || step.Collect?
    ensures var t := Next(w, s, step);
      && Extends(s, t) && CoordinatorOk(t) && t.miners == s.miners && t.heap == s.heap && |s.writers| <= |t.writers|
      && (forall i | 0 <= i < |s.miners| :: Delivered(t, i) == Delivered(s, i))
  {
    if step.Minute1? || step.Minute9? {
      hide *;
      MinuteStep(w, s, step);
    } else {
      hide MinerOk, WriterOk;
      assert Next(w, s, step).issued[..|s.issued|] == s.issued;
    }
  }

  lemma CoordinatorCompletes(w: World, s: State, step: Step, b: nat)
    requires Inv(w, s) && Enabled(w, s, step) && b < |Next(w, s, step).writers|
    requires step.Minute1? || step.Minute9? || step.Sent? || step.ReceiveStats? || step.Collect?
    ensures Complete(w, Next(w, s, step), b)
    ensures var t := Next(w, s, step);
      if b < |s.writers| then t.writers[b].sent == s.writers[b].sent && t.writers[b].received <= |t.writers[b].sent|
      else t.writers[b] == NewWriter()
  {
    hide MinerOk, WriterOk;
    if b < |s.writers| {
      CompleteHere(w, s, b);
      ReceivedBound(w, s, b);
    }
  }

  lemma CoordinatorInv(w: World, s: State, step: Step)
    requires Inv(w, s) && Enabled(w, s, step)
    requires step.Minute1? || step.Minute9? || step.Sent? || step.ReceiveStats? || step.Collect?
    ensures Inv(w, Next(w, s, step))
  {
    hide MinerOk, WriterOk, CoordinatorOk, Complete, Extends, Next, Enabled;
    CoordinatorStep(w, s, step);
    var t := Next(w, s, step);
    forall b | 0 <= b < |t.writers|
      ensures Complete(w, t, b)
      ensures
        if b < |s.writers| then t.writers[b].sent == s.writers[b].sent && t.writers[b].received <= |t.writers[b].sent|
        else t.writers[b] == NewWriter()
    {
      CoordinatorCompletes(w, s, step, b);
    }
    QuietInv(w, s, t);
  }

  lemma ReceivedBound(w: World, s: State, b: nat)
    requires Inv(w, s) && b < |s.writers|
    ensures s.writers[b].received <= |s.writers[b].sent|
  {
    assert WriterOk(w, s, b);
  }

  /** A step of miner i: nobody else moves, and no ranking of anybody else. */
  ghost predicate OnlyMiner(s: State, t: State, i: nat) {
    && i < |s.miners| == |t.miners| && t.issued == s.issued && |s.heap| <= |t.heap| && |t.writers| == |s.writers|
    && (forall j | 0 <= j < |s.miners| && j != i :: t.miners[j] == s.miners[j] && Delivered(t, j) == Delivered(s, j))
    && (forall r | 0 <= r < |s.heap| && s.heap[r].owner != i :: t.heap[r] == s.heap[r])
  }

  /** A step of miner i that submits nothing. */
  lemma MinerStepInv(w: World, s: State, t: State, i: nat)
    requires Inv(w, s) && OnlyMiner(s, t, i) && CoordinatorOk(t) && MinerOk(w, t, i)
    requires s.pc == Waiting <==> t.pc == Waiting
    requires forall b | 0 <= b < |s.writers| ::
      t.writers[b].sent == s.writers[b].sent && t.writers[b].received == s.writers[b].received
    requires forall b, a | 0 <= b < |s.writers| && 0 <= a < |s.writers[b].sent| && s.writers[b].sent[a].miner == i ::
      SubmissionOk(w, t, b, s.writers[b].sent[a])
    ensures Inv(w, t)
  {
    hide MinerOk, SubmissionOk, Complete;
    forall j | 0 <= j < |t.miners|
      ensures MinerOk(w, t, j)
    {
      if j != i {
        MinerRanking(w, s, j);
        MinerFrame(w, s, t, j);
      }
    }
    forall b | 0 <= b < |t.writers|
      ensures WriterOk(w, t, b)
    {
      assert WriterOk(w, s, b);
      forall a | 0 <= a < |t.writers[b].sent|
        ensures SubmissionOk(w, t, b, t.writers[b].sent[a])
      {
        OtherSubmission(w, s, t, i, b, a);
      }
      CompleteHere(w, s, b);
      SameComplete(w, s, t, b);
    }
  }

  lemma SameComplete(w: World, s: State, t: State, b: nat)
    requires b < |s.writers| && b < |t.writers| && |t.writers[b].sent| >= |s.writers[b].sent| && t.issued == s.issued
    requires (s.pc == Waiting <==> t.pc == Waiting) && Complete(w, s, b)
    ensures Complete(w, t, b)
  {
  }

  lemma OtherSubmission(w: World, s: State, t: State, i: nat, b: nat, a: nat)
    requires Inv(w, s) && OnlyMiner(s, t, i) && CoordinatorOk(t)
    requires b < |s.writers| && a < |s.writers[b].sent|
    ensures 2 * b < |t.issued| && t.issued[2 * b].Start?
    ensures s.writers[b].sent[a].miner != i ==> SubmissionOk(w, t, b, s.writers[b].sent[a])
  {
    hide MinerOk;
    SubmissionRanking(w, s, b, a);
    if s.writers[b].sent[a].miner != i {
      SubmissionFrame(w, s, t, b, s.writers[b].sent[a]);
    }
  }

  /** An earlier submission of miner i survives if its ranking is left alone and not taken up again. */
  lemma OwnSubmission(w: World, s: State, t: State, i: nat, b: nat, a: nat)
    requires Inv(w, s) && OnlyMiner(s, t, i) && CoordinatorOk(t)
    requires b < |s.writers| && a < |s.writers[b].sent| && s.writers[b].sent[a].miner == i
    requires s.miners[i].taken <= |s.issued| && t.miners[i].taken <= |t.issued|
    requires HasSubmitted(s.miners[i], b) ==> HasSubmitted(t.miners[i], b)
    requires forall r | 0 <= r < |s.heap| && r != s.miners[i].ranking :: t.heap[r] == s.heap[r]
    requires Exclusive(s.miners[i], s.issued) || t.heap[..|s.heap|] == s.heap
    requires Exclusive(t.miners[i], t.issued) ==>
      (Exclusive(s.miners[i], s.issued) && t.miners[i].ranking == s.miners[i].ranking) || t.miners[i].ranking >= |s.heap|
    ensures 2 * b < |t.issued| && t.issued[2 * b].Start?
    ensures SubmissionOk(w, t, b, s.writers[b].sent[a])
  {
    hide MinerOk;
    SubmissionRanking(w, s, b, a);
    var x := s.writers[b].sent[a];
    assert t.heap[x.ranking] == s.heap[x.ranking] by {
      if !Exclusive(s.miners[i], s.issued) { assert t.heap[..|s.heap|][x.ranking] == s.heap[x.ranking]; }
    }
  }

  lemma Queued(m: Miner, issued: seq<Batch>)
    requires issued != [] && QueueOk(m, issued, |issued| - 1)
    ensures QueueOk(m.(queue := m.queue + [issued[|issued| - 1]]), issued, |issued|)
  {
    hide Commands;
    var k := m.taken;
    assert issued[k..|issued| - 1] + [issued[|issued| - 1]] == issued[k..|issued|];
  }

  lemma PhaseIgnoresQueue(w: World, i: nat, m: Miner, queue: seq<Batch>, issued: seq<Batch>, r: Ranking)
    requires Alternates(issued) && m.taken <= |issued| && PhaseOk(w, i, m, issued, r)
    ensures PhaseOk(w, i, m.(queue := queue), issued, r)
  {
    hide Commands, Alternates, Offers;
  }

  /** A batch put on the queue of a miner. */
  lemma SendMiner(w: World, s: State, step: Step)
    requires Inv(w, s) && Enabled(w, s, step) && step.Send?
    ensures MinerOk(w, Next(w, s, step), s.pc.next)
  {
    hide QueueOk, PhaseOk, WriterOk;
    var i, m := s.pc.next, s.miners[s.pc.next];
    MinerRanking(w, s, i);
    assert MinerOk(w, s, i);
    Queued(m, s.issued);
    PhaseIgnoresQueue(w, i, m, m.queue + [s.issued[|s.issued| - 1]], s.issued, s.heap[m.ranking]);
  }

  lemma SendInv(w: World, s: State, step: Step)
    requires Inv(w, s) && Enabled(w, s, step) && step.Send?
    ensures Inv(w, Next(w, s, step))
  {
    hide MinerOk, WriterOk, SubmissionOk, Exclusive, Position;
    var t, i := Next(w, s, step), s.pc.next;
    SendMiner(w, s, step);
    MinerRanking(w, s, i);
    SameStanding(s.miners[i], t.miners[i], s.issued);
    forall b, a | 0 <= b < |s.writers| && 0 <= a < |s.writers[b].sent| && s.writers[b].sent[a].miner == i
      ensures SubmissionOk(w, t, b, s.writers[b].sent[a])
    {
      OwnSubmission(w, s, t, i, b, a);
    }
    MinerStepInv(w, s, t, i);
  }

  lemma SameStanding(m: Miner, m': Miner, issued: seq<Batch>)
    requires m.taken == m'.taken <= |issued| && m.pending == m'.pending
    ensures Exclusive(m, issued) == Exclusive(m', issued)
  {
  }

  /** The miner after taking the first batch off its queue. */
  function Taking(m: Miner): Miner
    requires m.queue != []
  {
    m.(queue := m.queue[1..], taken := m.taken + 1, pending := Commands(m.queue[0]))
  }

  lemma TakeQueue(m: Miner, issued: seq<Batch>, delivered: int)
    requires QueueOk(m, issued, delivered) && m.queue != [] && m.pending == []
    ensures m.queue[0] == issued[m.taken] && m.taken < |issued|
    ensures Taking(m).pending == Commands(issued[m.taken]) && Position(Taking(m), issued[m.taken]) == 0
    ensures m.taken > 0 ==> Position(m, issued[m.taken - 1]) == |Commands(issued[m.taken - 1])|
    ensures QueueOk(Taking(m), issued, delivered)
  {
    hide Commands;
    assert m.queue[1..] == issued[m.taken + 1..delivered];
  }

  lemma TakePhase(w: World, i: nat, m: Miner, issued: seq<Batch>, r: Ranking)
    requires Alternates(issued) && m.taken < |issued| && m.queue != [] && m.queue[0] == issued[m.taken]
    requires m.taken > 0 ==> m.pending == []
    requires PhaseOk(w, i, m, issued, r)
    ensures PhaseOk(w, i, Taking(m), issued, r)
    ensures Exclusive(Taking(m), issued) ==> Exclusive(m, issued)
  {
    hide Offers;
  }

  lemma TakeMiner(w: World, s: State, step: Step)
    requires Inv(w, s) && Enabled(w, s, step) && step.Take?
    ensures MinerOk(w, Next(w, s, step), step.miner)
    ensures Exclusive(Next(w, s, step).miners[step.miner], s.issued) ==> Exclusive(s.miners[step.miner], s.issued)
  {
    hide Commands, QueueOk, PhaseOk, Exclusive, WriterOk;
    var i := step.miner;
    MinerRanking(w, s, i);
    assert MinerOk(w, s, i);
    var m := s.miners[i];
    TakeQueue(m, s.issued, Delivered(s, i));
    TakePhase(w, i, m, s.issued, s.heap[m.ranking]);
  }

  /** Any step of miner i but a submission, once its own part is settled. */
  lemma OwnStepInv(w: World, s: State, t: State, i: nat)
    requires Inv(w, s) && OnlyMiner(s, t, i) && CoordinatorOk(t) && MinerOk(w, t, i)
    requires s.pc == Waiting <==> t.pc == Waiting
    requires forall b | 0 <= b < |s.writers| ::
      t.writers[b].sent == s.writers[b].sent && t.writers[b].received == s.writers[b].received
    requires s.miners[i].taken <= |s.issued| && t.miners[i].taken <= |t.issued|
    requires forall b: nat :: HasSubmitted(s.miners[i], b) ==> HasSubmitted(t.miners[i], b)
    requires forall r | 0 <= r < |s.heap| && r != s.miners[i].ranking :: t.heap[r] == s.heap[r]
    requires Exclusive(s.miners[i], s.issued) || t.heap[..|s.heap|] == s.heap
    requires Exclusive(t.miners[i], t.issued) ==>
      (Exclusive(s.miners[i], s.issued) && t.miners[i].ranking == s.miners[i].ranking) || t.miners[i].ranking >= |s.heap|
    ensures Inv(w, t)
  {
    hide MinerOk, WriterOk, SubmissionOk, Exclusive, HasSubmitted;
    forall b, a | 0 <= b < |s.writers| && 0 <= a < |s.writers[b].sent| && s.writers[b].sent[a].miner == i
      ensures SubmissionOk(w, t, b, s.writers[b].sent[a])
    {
      OwnSubmission(w, s, t, i, b, a);
    }
    MinerStepInv(w, s, t, i);
  }

  lemma TakeInv(w: World, s: State, step: Step)
    requires Inv(w, s) && Enabled(w, s, step) && step.Take?
    ensures Inv(w, Next(w, s, step))
  {
    hide MinerOk, WriterOk, SubmissionOk, Exclusive;
    TakeMiner(w, s, step);
    var t, i := Next(w, s, step), step.miner;
    MinerRanking(w, s, i);
    MinerRanking(w, t, i);
    OwnStepInv(w, s, t, i);
  }

  /** A miner tries nonces only for the block it was started for, and only into a ranking it has not sent. */
  lemma HashingMiner(w: World, s: State, i: nat)
    requires Inv(w, s) && Enabled(w, s, Hash(i))
    ensures var m := s.miners[i];
      && 0 < m.taken <= |s.issued| && s.issued[m.taken - 1].Start? && Exclusive(m, s.issued)
      && m.ranking < |s.heap| && Mining(w, i, m, s.issued[m.taken - 1], s.heap[m.ranking])
  {
    hide Mining, Starting, Offers, WriterOk;
    assert MinerOk(w, s, i);
  }

  lemma SameQueue(m: Miner, m': Miner, issued: seq<Batch>, delivered: int)
    requires QueueOk(m, issued, delivered) && m'.taken == m.taken && m'.queue == m.queue && m'.pending == m.pending
    ensures QueueOk(m', issued, delivered)
  {
  }

  lemma HashPhase(w: World, i: nat, m: Miner, issued: seq<Batch>, r: Ranking, r': Ranking)
    requires Alternates(issued) && 0 < m.taken <= |issued| && issued[m.taken - 1].Start? && m.pending == []
    requires Mining(w, i, m, issued[m.taken - 1], r)
    requires r'.offered == Offers(w, i, m.oprHash, m.minimum, m.count + 1)
    ensures PhaseOk(w, i, m.(count := m.count + 1), issued, r')
  {
    hide Starting, Alternates, Offers;
  }

  lemma HashOffers(w: World, i: nat, hash: seq<byte>, min: uint64, n: nat)
    ensures var nonce := NonceAt(i % 256, n + 1);
      var diff := w.pow(hash, nonce);
      Offers(w, i, hash, min, n + 1)
      == Offers(w, i, hash, min, n) + if diff > min then [UniqueOPRData(nonce, diff)] else []
  {
    hide NonceAt;
  }

  lemma HashMiner(w: World, s: State, i: nat)
    requires Inv(w, s) && Enabled(w, s, Hash(i))
    ensures MinerOk(w, Next(w, s, Hash(i)), i)
  {
    hide WriterOk, PhaseOk, QueueOk, Exclusive, Offers, NonceAt;
    HashingMiner(w, s, i);
    assert MinerOk(w, s, i);
    var m, t := s.miners[i], Next(w, s, Hash(i));
    HashOffers(w, i, m.oprHash, m.minimum, m.count);
    SameQueue(m, t.miners[i], s.issued, Delivered(s, i));
    HashPhase(w, i, m, s.issued, s.heap[m.ranking], t.heap[m.ranking]);
  }

  lemma HashInv(w: World, s: State, i: nat)
    requires Inv(w, s) && Enabled(w, s, Hash(i))
    ensures Inv(w, Next(w, s, Hash(i)))
  {
    hide MinerOk, WriterOk, SubmissionOk, Mining, Commands;
    HashMiner(w, s, i);
    HashingMiner(w, s, i);
    MinerRanking(w, s, i);
    OwnStepInv(w, s, Next(w, s, Hash(i)), i);
  }

  lemma BatchPosition(m: Miner, issued: seq<Batch>, delivered: int)
    requires QueueOk(m, issued, delivered) && m.pending != []
    ensures 0 < m.taken <= |issued|
    ensures var b := issued[m.taken - 1];
      var p := Position(m, b);
      && 0 <= p < |Commands(b)| && m.pending[0] == Commands(b)[p]
      && m.pending[1..] == Commands(b)[p + 1..] && Position(m.(pending := m.pending[1..]), b) == p + 1
  {
    hide Commands;
  }

  /** The block numbers in the alternating stream. */
  lemma BatchBlock(s: State, k: nat)
    requires CoordinatorOk(s) && k < |s.issued|
    ensures var b := s.issued[k];
      && b.block < |s.writers|
      && if b.Start? then k == 2 * b.block
         else k == 2 * b.block + 1 && s.issued[k - 1].Start? && s.issued[k - 1].block == b.block
  {
    if k > 0 { assert s.issued[k - 1].Start? <==> (k - 1) % 2 == 0; }
  }

  /** Where a miner is in the batch it is executing. */
  lemma Executing(w: World, s: State, i: nat)
    requires Inv(w, s) && i < |s.miners| && s.miners[i].pending != []
    ensures var m := s.miners[i];
      && 0 < m.taken <= |s.issued|
      && var b := s.issued[m.taken - 1];
      && var p := Position(m, b);
      && 0 <= p < |Commands(b)| && m.pending[0] == Commands(b)[p]
      && m.pending[1..] == Commands(b)[p + 1..] && Position(m.(pending := m.pending[1..]), b) == p + 1
      && m.ranking < |s.heap| && PhaseOk(w, i, m, s.issued, s.heap[m.ranking])
      && b.block < |s.writers|
      && if b.Start? then m.taken == 2 * b.block + 1
         else m.taken == 2 * b.block + 2 && s.issued[m.taken - 2].Start? && s.issued[m.taken - 2].block == b.block
  {
    hide PhaseOk, QueueOk, WriterOk, Commands, Position;
    assert MinerOk(w, s, i);
    BatchPosition(s.miners[i], s.issued, Delivered(s, i));
    BatchBlock(s, s.miners[i].taken - 1);
  }

  lemma NextInBatch(m: Miner, m': Miner, issued: seq<Batch>, delivered: int)
    requires QueueOk(m, issued, delivered) && m.pending != []
    requires m'.taken == m.taken && m'.queue == m.queue && m'.pending == m.pending[1..]
    ensures QueueOk(m', issued, delivered)
  {
    hide Commands;
  }

  /** A command never touches the queue, and is taken off the batch. */
  lemma ExecuteFrame(s: State, i: nat, m: Miner, c: Command)
    requires i < |s.miners|
    requires c.RecordAggregator? ==> c.block < |s.writers|
    requires c.SubmitNonces? ==> m.writer.Some? && m.writer.value < |s.writers|
    ensures var t := Execute(s, i, m, c);
      && t.issued == s.issued && t.pc == s.pc && |t.miners| == |s.miners| && t.mining == s.mining
      && t.miners[i] == Obey(m, c, |s.heap|)
      && t.miners[i].taken == m.taken && t.miners[i].pending == m.pending && t.miners[i].queue == m.queue
      && (forall j | 0 <= j < |s.miners| && j != i :: t.miners[j] == s.miners[j])
      && |t.writers| == |s.writers|
      && (forall b | 0 <= b < |s.writers| ::
        && t.writers[b].received == s.writers[b].received && t.writers[b].collecting == s.writers[b].collecting
        && t.writers[b].done == s.writers[b].done)
      && (!c.SubmitNonces? ==> forall b | 0 <= b < |s.writers| :: t.writers[b].sent == s.writers[b].sent)
      && (if c.ResetRecords? then t.heap == s.heap + [Ranking(i, [])] && t.miners[i].ranking == |s.heap|
          else t.heap == s.heap && t.miners[i].ranking == m.ranking)
  {
  }

  lemma HandleQueue(w: World, s: State, i: nat)
    requires Inv(w, s) && Enabled(w, s, Handle(i))
    ensures QueueOk(Next(w, s, Handle(i)).miners[i], s.issued, Delivered(s, i))
  {
    hide WriterOk, PhaseOk, QueueOk, Execute;
    assert MinerOk(w, s, i);
    var m := s.miners[i];
    ExecuteFrame(s, i, m.(pending := m.pending[1..]), m.pending[0]);
    NextInBatch(m, Next(w, s, Handle(i)).miners[i], s.issued, Delivered(s, i));
  }

  lemma StartCommand(w: World, i: nat, m: Miner, rest: seq<Command>, b: Batch, p: nat, next: nat, r: Ranking, r': Ranking)
    requires b.Start? && p < 6 && Starting(m, b, p, r) && r' == if p == 2 then Ranking(i, []) else r
    ensures var m' := Obey(m.(pending := rest), Commands(b)[p], next);
      if p < 5 then Starting(m', b, p + 1, r') else Mining(w, i, m', b, r')
  {
  }

  lemma StopCommand(m: Miner, b: Batch, next: nat)
    requires b.Stop?
    ensures |Commands(b)| == 2 && Obey(m, Commands(b)[1], next).paused
  {
  }

  lemma HandlePhase(w: World, s: State, i: nat)
    requires Inv(w, s) && Enabled(w, s, Handle(i))
    ensures var t := Next(w, s, Handle(i));
      && i < |t.miners| && t.miners[i].taken <= |s.issued| && t.miners[i].ranking < |t.heap|
      && t.heap[t.miners[i].ranking].owner == i
      && PhaseOk(w, i, t.miners[i], s.issued, t.heap[t.miners[i].ranking])
  {
    hide MinerOk, WriterOk, Alternates, Execute, Mining, Starting, Obey, Commands;
    MinerRanking(w, s, i);
    Executing(w, s, i);
    var m := s.miners[i];
    var t, b, m1 := Next(w, s, Handle(i)), s.issued[m.taken - 1], m.(pending := m.pending[1..]);
    var p := Position(m, b);
    OnlyStopSubmits(b, p);
    ExecuteFrame(s, i, m1, m.pending[0]);
    if b.Start? {
      StartCommand(w, i, m, m.pending[1..], b, p, |s.heap|, s.heap[m.ranking], t.heap[t.miners[i].ranking]);
    } else {
      StopCommand(m1, b, |s.heap|);
    }
  }

  lemma HandleStanding(w: World, s: State, i: nat)
    requires Inv(w, s) && Enabled(w, s, Handle(i))
    ensures var m, m' := s.miners[i], Next(w, s, Handle(i)).miners[i];
      && m.taken == m'.taken <= |s.issued|
      && (forall b: nat :: HasSubmitted(m, b) ==> HasSubmitted(m', b))
      && (Exclusive(m', s.issued) ==> (Exclusive(m, s.issued) && m'.ranking == m.ranking) || m'.ranking == |s.heap|)
  {
    hide WriterOk, MinerOk, Alternates, Execute, Mining, Starting, Commands, PhaseOk;
    Executing(w, s, i);
    var m := s.miners[i];
    ExecuteFrame(s, i, m.(pending := m.pending[1..]), m.pending[0]);
    var b := s.issued[m.taken - 1];
    OnlyStopSubmits(b, Position(m, b));
  }

  lemma HandleInv(w: World, s: State, i: nat)
    requires Inv(w, s) && Enabled(w, s, Handle(i)) && !s.miners[i].pending[0].SubmitNonces?
    ensures Inv(w, Next(w, s, Handle(i)))
  {
    hide WriterOk, MinerOk, PhaseOk, QueueOk, Execute, Exclusive, HasSubmitted;
    HandleMinerOk(w, s, i);
    HandleStanding(w, s, i);
    var t, m := Next(w, s, Handle(i)), s.miners[i];
    ExecuteFrame(s, i, m.(pending := m.pending[1..]), m.pending[0]);
    OwnStepInv(w, s, t, i);
  }

  lemma HandleMinerOk(w: World, s: State, i: nat)
    requires Inv(w, s) && Enabled(w, s, Handle(i))
    ensures var t := Next(w, s, Handle(i));
      && t.issued == s.issued && |t.miners| == |s.miners| && MinerOk(w, t, i)
  {
    hide WriterOk, PhaseOk, QueueOk, Execute;
    HandleQueue(w, s, i);
    HandlePhase(w, s, i);
    var m := s.miners[i];
    ExecuteFrame(s, i, m.(pending := m.pending[1..]), m.pending[0]);
  }

  /** The submission itself: the miner's mining is done, and it has not submitted this block before. */
  lemma Submitting(w: World, s: State, i: nat)
    requires Inv(w, s) && Enabled(w, s, Handle(i)) && s.miners[i].pending[0].SubmitNonces?
    ensures var m := s.miners[i];
      && m.writer.Some? && m.writer.value < |s.writers| && m.stats && m.statsChannel == m.writer
      && var b := m.writer.value;
      && m.taken == 2 * b + 2 <= |s.issued| && |m.pending| == 2 && s.issued[2 * b].Start?
      && m.ranking < |s.heap|
      && s.heap[m.ranking]
        == Ranking(i, Offers(w, i, s.issued[2 * b].oprHash, s.issued[2 * b].minimum, m.count))
      && Exclusive(m, s.issued) && !HasSubmitted(m, b) && !Exclusive(m.(pending := m.pending[1..]), s.issued)
      && HasSubmitted(m.(pending := m.pending[1..]), b)
  {
    hide WriterOk, MinerOk, Alternates, Commands, Offers;
    Executing(w, s, i);
    MinerRanking(w, s, i);
    var m := s.miners[i];
    var b := s.issued[m.taken - 1];
    OnlyStopSubmits(b, Position(m, b));
  }

  /** The coordinator does not notice a submission, except that more statistics are there. */
  lemma SubmitCoordinator(w: World, s: State, t: State)
    requires CoordinatorOk(s) && t.issued == s.issued && t.pc == s.pc && t.mining == s.mining
    requires |t.miners| == |s.miners| && |t.writers| == |s.writers|
    requires forall b | 0 <= b < |s.writers| ::
      |t.writers[b].sent| >= |s.writers[b].sent| && t.writers[b].collecting == s.writers[b].collecting
    ensures CoordinatorOk(t)
  {
  }

  /** What a submission changes: one more entry in the writer's log. */
  lemma SubmitFrame(w: World, s: State, i: nat)
    requires Inv(w, s) && Enabled(w, s, Handle(i)) && s.miners[i].pending[0].SubmitNonces?
    ensures var t, m := Next(w, s, Handle(i)), s.miners[i];
      && m.writer.Some? && m.writer.value < |s.writers| == |t.writers|
      && t.miners[i] == m.(pending := m.pending[1..]) && t.heap == s.heap
      && t.writers[m.writer.value].sent
        == s.writers[m.writer.value].sent + [Submission(i, m.ranking, m.count)]
      && (forall b | 0 <= b < |s.writers| && b != m.writer.value :: t.writers[b].sent == s.writers[b].sent)
      && OnlyMiner(s, t, i) && CoordinatorOk(t) && t.pc == s.pc
  {
    hide WriterOk, MinerOk, CoordinatorOk, Commands;
    SubmitCoordinator(w, s, Next(w, s, Handle(i)));
  }

  lemma SubmitKeeps(w: World, s: State, i: nat, b: nat, a: nat)
    requires Inv(w, s) && Enabled(w, s, Handle(i)) && s.miners[i].pending[0].SubmitNonces?
    requires b < |s.writers| && a < |s.writers[b].sent|
    ensures var t := Next(w, s, Handle(i));
      2 * b < |t.issued| && t.issued[2 * b].Start? && SubmissionOk(w, t, b, s.writers[b].sent[a])
    ensures s.miners[i].writer == Some(b) ==> s.writers[b].sent[a].miner != i
  {
    hide WriterOk, MinerOk, CoordinatorOk, Next, Enabled, Exclusive, HasSubmitted;
    HandleEnabled(w, s, i);
    var t, m := Next(w, s, Handle(i)), s.miners[i];
    SubmitFrame(w, s, i);
    Submitting(w, s, i);
    HandleStanding(w, s, i);
    SubmissionRanking(w, s, b, a);
    if s.writers[b].sent[a].miner == i {
      OwnSubmission(w, s, t, i, b, a);
    } else {
      OtherSubmission(w, s, t, i, b, a);
    }
  }

  lemma ReceivedSame(w: World, s: State, i: nat, b: nat)
    requires Inv(w, s) && Enabled(w, s, Handle(i)) && b < |s.writers|
    ensures b < |Next(w, s, Handle(i)).writers| && Next(w, s, Handle(i)).writers[b].received == s.writers[b].received
  {
    hide MinerOk, WriterOk, CoordinatorOk, Execute;
    ExecuteFrame(s, i, s.miners[i].(pending := s.miners[i].pending[1..]), s.miners[i].pending[0]);
  }

  lemma SubmitWriter(w: World, s: State, i: nat, b: nat)
    requires Inv(w, s) && Enabled(w, s, Handle(i)) && s.miners[i].pending[0].SubmitNonces?
    requires b < |s.writers|
    ensures var t := Next(w, s, Handle(i));
      b < |t.writers| && CoordinatorOk(t) && WriterOk(w, t, b)
  {
    hide MinerOk, Next, Enabled, Exclusive, HasSubmitted, SubmissionOk, Complete;
    HandleEnabled(w, s, i);
    var t, m := Next(w, s, Handle(i)), s.miners[i];
    SubmitFrame(w, s, i);
    ReceivedSame(w, s, i, b);
    Submitting(w, s, i);
    CompleteHere(w, s, b);
    SameComplete(w, s, t, b);
    assert WriterOk(w, s, b);
    forall a | 0 <= a < |t.writers[b].sent|
      ensures SubmissionOk(w, t, b, t.writers[b].sent[a])
    {
      if a < |s.writers[b].sent| {
        SubmitKeeps(w, s, i, b, a);
      } else {
        NewSubmission(w, s, i);
      }
    }
    forall a | 0 <= a < |s.writers[b].sent|
      ensures m.writer == Some(b) ==> s.writers[b].sent[a].miner != i
    {
      SubmitKeeps(w, s, i, b, a);
    }
  }

  lemma NewSubmission(w: World, s: State, i: nat)
    requires Inv(w, s) && Enabled(w, s, Handle(i)) && s.miners[i].pending[0].SubmitNonces?
    ensures var t, m := Next(w, s, Handle(i)), s.miners[i];
      && m.writer.Some? && 2 * m.writer.value < |t.issued| && t.issued[2 * m.writer.value].Start?
      && SubmissionOk(w, t, m.writer.value, Submission(i, m.ranking, m.count))
  {
    hide MinerOk, WriterOk, Execute, Exclusive, HasSubmitted, Offers;
    var m := s.miners[i];
    SubmitFrame(w, s, i);
    ExecuteFrame(s, i, m.(pending := m.pending[1..]), m.pending[0]);
    Submitting(w, s, i);
  }

  lemma SubmitInv(w: World, s: State, i: nat)
    requires Inv(w, s) && Enabled(w, s, Handle(i)) && s.miners[i].pending[0].SubmitNonces?
    ensures Inv(w, Next(w, s, Handle(i)))
  {
    hide MinerOk, WriterOk, Execute, Exclusive, HasSubmitted;
    var t, m := Next(w, s, Handle(i)), s.miners[i];
    SubmitFrame(w, s, i);
    ExecuteFrame(s, i, m.(pending := m.pending[1..]), m.pending[0]);
    forall b | 0 <= b < |t.writers|
      ensures WriterOk(w, t, b)
    {
      SubmitWriter(w, s, i, b);
    }
    forall j | 0 <= j < |t.miners|
      ensures MinerOk(w, t, j)
    {
      if j == i {
        HandleMinerOk(w, s, i);
      } else {
        MinerRanking(w, s, j);
        MinerFrame(w, s, t, j);
      }
    }
  }

  // ---------- all runs ----------

  lemma StepInv(w: World, s: State, step: Step)
    requires Inv(w, s) && Enabled(w, s, step)
    ensures Inv(w, Next(w, s, step))
  {
    hide Inv, Enabled, Next;
    match step
    case Minute1Skipped => SkipInv(w, s, step);
    case Minute9Skipped => SkipInv(w, s, step);
    case Minute1(_, _) => CoordinatorInv(w, s, step);
    case Minute9 => CoordinatorInv(w, s, step);
    case Sent => CoordinatorInv(w, s, step);
    case ReceiveStats => CoordinatorInv(w, s, step);
    case Collect(_) => CoordinatorInv(w, s, step);
    case Send => SendInv(w, s, step);
    case Take(_) => TakeInv(w, s, step);
    case Hash(i) => HashInv(w, s, i);
    case Handle(i) =>
      HandleEnabled(w, s, i);
      if s.miners[i].pending[0].SubmitNonces? { SubmitInv(w, s, i); } else { HandleInv(w, s, i); }
  }

  lemma SkipInv(w: World, s: State, step: Step)
    requires Inv(w, s) && Enabled(w, s, step) && (step.Minute1Skipped? || step.Minute9Skipped?)
    ensures Inv(w, Next(w, s, step))
  {
    hide Inv;
  }

  lemma HandleEnabled(w: World, s: State, i: nat)
    requires Enabled(w, s, Handle(i))
    ensures i < |s.miners| && s.miners[i].pending != []
  {
  }

  lemma {:induction false} RunInv(w: World, s: State, steps: seq<Step>)
    requires Inv(w, s) && Play(w, s, steps).Some?
    ensures Inv(w, Play(w, s, steps).value)
    decreases |steps|
  {
    hide Inv, Enabled, Next;
    if steps != [] {
      StepInv(w, s, steps[0]);
      RunInv(w, Next(w, s, steps[0]), steps[1..]);
    }
  }
}
