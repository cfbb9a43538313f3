/** When the mining protocol can get stuck, and when it cannot. */
module MiningProgress {
  import opened Common
  import opened MiningProtocol
  import opened MiningSafety
  import opened MiningTheorems
  import opened MiningCollection

  predicate SentBy(sent: seq<Submission>, i: nat) {
    exists a :: 0 <= a < |sent| && sent[a].miner == i
  }

  /** Who is past the submission of a block is in the log of its writer. */
  ghost predicate Logged(s: State) {
    forall i, b | 0 <= i < |s.miners| && 0 <= b < |s.writers| && HasSubmitted(s.miners[i], b) :: SentBy(s.writers[b].sent, i)
  }

  lemma InitLogged(w: World, s: State)
    requires Init(w, s)
    ensures Logged(s)
  {
  }

  lemma SentByMore(sent: seq<Submission>, more: seq<Submission>, i: nat)
    requires sent <= more && SentBy(sent, i)
    ensures SentBy(more, i)
  {
    var a :| 0 <= a < |sent| && sent[a].miner == i;
    assert more[a].miner == i;
  }

  /** What is logged stays logged. */
  lemma StillLogged(w: World, s: State, step: Step, i: nat, b: nat)
    requires Inv(w, s) && Logged(s) && Enabled(w, s, step) && i < |s.miners| && b < |s.writers|
    requires HasSubmitted(s.miners[i], b)
    ensures b < |Next(w, s, step).writers| && SentBy(Next(w, s, step).writers[b].sent, i)
  {
    hide MinerOk, WriterOk, SentBy, Next, Enabled;
    StepSent(w, s, step, b);
    SentByMore(s.writers[b].sent, Next(w, s, step).writers[b].sent, i);
  }

  lemma TakenNotSubmitted(w: World, s: State, i: nat, b: nat)
    requires Inv(w, s) && Enabled(w, s, Take(i)) && HasSubmitted(Next(w, s, Take(i)).miners[i], b)
    ensures HasSubmitted(s.miners[i], b) && b < |s.writers|
  {
    hide WriterOk, PhaseOk;
    TakesNext(w, s, i);
    BatchBlock(s, s.miners[i].taken);
  }

  lemma HandleSubmits(w: World, s: State, i: nat, b: nat)
    requires Inv(w, s) && Enabled(w, s, Handle(i)) && HasSubmitted(Next(w, s, Handle(i)).miners[i], b)
    ensures b < |s.writers|
    ensures !HasSubmitted(s.miners[i], b) ==> s.miners[i].pending[0].SubmitNonces? && s.miners[i].writer == Some(b)
  {
    hide MinerOk, WriterOk, PhaseOk, Execute, Commands, Alternates;
    HandleEnabled(w, s, i);
    var m := s.miners[i];
    Executing(w, s, i);
    ExecuteFrame(s, i, m.(pending := m.pending[1..]), m.pending[0]);
    var batch := s.issued[m.taken - 1];
    OnlyStopSubmits(batch, Position(m, batch));
    if m.pending[0].SubmitNonces? { Submitting(w, s, i); }
  }

  lemma HandleLogged(w: World, s: State, i: nat, b: nat)
    requires Inv(w, s) && Logged(s) && Enabled(w, s, Handle(i)) && HasSubmitted(Next(w, s, Handle(i)).miners[i], b)
    ensures b < |Next(w, s, Handle(i)).writers| && SentBy(Next(w, s, Handle(i)).writers[b].sent, i)
  {
    hide MinerOk, WriterOk, Next, Enabled, HasSubmitted;
    HandleEnabled(w, s, i);
    HandleSubmits(w, s, i, b);
    if HasSubmitted(s.miners[i], b) {
      StillLogged(w, s, Handle(i), i, b);
    } else {
      SubmitFrame(w, s, i);
      var sent := Next(w, s, Handle(i)).writers[b].sent;
      assert sent[|sent| - 1].miner == i;
    }
  }

  lemma OthersStand(w: World, s: State, step: Step, i: nat, b: nat)
    requires Inv(w, s) && Enabled(w, s, step) && step != Take(i) && step != Handle(i)
    requires i < |s.miners| && HasSubmitted(Next(w, s, step).miners[i], b) && b < |Next(w, s, step).writers|
    ensures HasSubmitted(s.miners[i], b) && b < |s.writers|
  {
    hide MinerOk, WriterOk, Commands;
    TakenBound(w, s, i);
  }

  /** One miner and one block: a step makes the miner pass the submission only by logging it. */
  lemma StepLogged(w: World, s: State, step: Step, i: nat, b: nat)
    requires Inv(w, s) && Logged(s) && Enabled(w, s, step) && i < |s.miners| && b < |Next(w, s, step).writers|
    requires i < |Next(w, s, step).miners| && HasSubmitted(Next(w, s, step).miners[i], b)
    ensures SentBy(Next(w, s, step).writers[b].sent, i)
  {
    hide MinerOk, WriterOk, SentBy, Next, Enabled, HasSubmitted;
    if step == Handle(i) {
      HandleLogged(w, s, i, b);
    } else {
      if step == Take(i) { TakenNotSubmitted(w, s, i, b); } else { OthersStand(w, s, step, i, b); }
      StillLogged(w, s, step, i, b);
    }
  }

  lemma {:induction false} RunLogged(w: World, s: State, steps: seq<Step>)
    requires Inv(w, s) && Logged(s) && Play(w, s, steps).Some?
    ensures Logged(Play(w, s, steps).value)
    decreases |steps|
  {
    hide Inv, Enabled, Next, HasSubmitted, SentBy;
    if steps != [] {
      var t := Next(w, s, steps[0]);
      StepInv(w, s, steps[0]);
      SameMiners(w, s, steps[0]);
      forall i, b | 0 <= i < |t.miners| && 0 <= b < |t.writers| && HasSubmitted(t.miners[i], b)
        ensures SentBy(t.writers[b].sent, i)
      {
        StepLogged(w, s, steps[0], i, b);
      }
      RunLogged(w, t, steps[1..]);
    }
  }

  // ---------- progress ----------

  /** A step towards the end of the current hand-over. */
  predicate Progress(step: Step) {
    step.Send? || step.Sent? || step.ReceiveStats? || step.Take? || step.Handle? || step.Collect?
  }

  /** The collector of the block being stopped has ended early, and the channel to it is full again. */
  predicate CollectorGone(w: World, s: State)
    requires s.writers != []
  {
    var x := s.writers[Current(s)];
    x.done && |x.sent| < w.n && |x.sent| >= x.received + w.keep
  }

  lemma Missing(sent: seq<Submission>, n: nat) returns (i: nat)
    requires |sent| < n
    ensures i < n && !SentBy(sent, i)
  {
    SendersAtMost(sent);
    i := Outside(Below(n), Senders(sent));
    assert forall a | 0 <= a < |sent| :: sent[a] in sent && sent[a].miner in Senders(sent);
  }

  lemma Outside(all: set<nat>, some: set<nat>) returns (x: nat)
    requires |some| < |all|
    ensures x in all && x !in some
  {
    if all <= some { SubsetOfSameSize(all, some); }
    x :| x in all && x !in some;
  }

  lemma {:induction false} SendersAtMost(sent: seq<Submission>)
    ensures |Senders(sent)| <= |sent|
  {
    if sent != [] {
      var k := |sent| - 1;
      SendersAtMost(sent[..k]);
      assert forall x :: x in sent <==> x in sent[..k] || x == sent[k];
      assert Senders(sent) == Senders(sent[..k]) + {sent[k].miner};
    }
  }

  /** The block being stopped is the last one, and all earlier ones are complete. */
  lemma Stopping(w: World, s: State)
    requires Inv(w, s) && s.pc.AwaitStats?
    ensures s.writers != [] && |s.issued| == 2 * Current(s) + 2 && s.writers[Current(s)].collecting
    ensures forall i | 0 <= i < w.n :: Delivered(s, i) == |s.issued|
  {
    hide MinerOk, WriterOk;
  }

  /** A miner between batches that has not submitted the block being stopped has a batch on its queue. */
  lemma LateQueue(w: World, s: State, i: nat)
    requires Inv(w, s) && s.pc.AwaitStats? && i < w.n && s.writers != [] && !HasSubmitted(s.miners[i], Current(s))
    requires s.miners[i].pending == []
    ensures Enabled(w, s, Take(i))
  {
    hide WriterOk, PhaseOk, CanHandle, Commands;
    Stopping(w, s);
    assert MinerOk(w, s, i);
    assert |s.miners[i].queue| == |s.issued| - s.miners[i].taken;
  }

  /** A miner inside a batch can go on, or waits at a full channel. */
  lemma LateCommand(w: World, s: State, i: nat)
    requires Inv(w, s) && s.pc.AwaitStats? && i < w.n && s.writers != [] && s.miners[i].pending != []
    ensures Enabled(w, s, Handle(i)) || |s.writers[Current(s)].sent| >= s.writers[Current(s)].received + w.keep
  {
    hide MinerOk, WriterOk, PhaseOk, CoordinatorOk, Commands, HasSubmitted;
    var m := s.miners[i];
    Executing(w, s, i);
    var batch := s.issued[m.taken - 1];
    if m.pending[0].SubmitNonces? {
      SubmitsCurrent(w, s, i);
    } else if m.pending[0].RecordAggregator? {
      CommandBlock(batch, Position(m, batch));
    }
  }

  /** Nobody is still at the submission of an earlier block. */
  lemma SubmitsCurrent(w: World, s: State, i: nat)
    requires Inv(w, s) && s.pc.AwaitStats? && i < w.n && s.miners[i].pending != [] && s.miners[i].pending[0].SubmitNonces?
    ensures s.writers != [] && s.miners[i].writer == Some(Current(s))
  {
    hide WriterOk, PhaseOk, Commands, Offers;
    Stopping(w, s);
    SubmittingBlock(w, s, i);
    var b := s.miners[i].writer.value;
    if b < Current(s) {
      CompleteHere(w, s, b);
      AllPast(w, s, b, i);
    }
  }

  lemma SubmittingBlock(w: World, s: State, i: nat)
    requires Inv(w, s) && i < w.n && s.miners[i].pending != [] && s.miners[i].pending[0].SubmitNonces?
    ensures var m := s.miners[i];
      m.writer.Some? && m.writer.value < |s.writers| && !HasSubmitted(m, m.writer.value)
  {
    hide WriterOk, MinerOk, Alternates, Commands, Offers;
    Executing(w, s, i);
    MinerRanking(w, s, i);
    var m := s.miners[i];
    var b := s.issued[m.taken - 1];
    OnlyStopSubmits(b, Position(m, b));
  }

  lemma SendingMoves(w: World, start: State, steps: seq<Step>, s: State)
    requires Reached(w, start, steps, s) && s.pc.Sending?
    ensures exists step :: Progress(step) && Enabled(w, s, step)
  {
    hide MinerOk, WriterOk;
    ReachedInv(w, start, steps, s);
    if s.pc.next < w.n {
      SendNeverBlocks(w, start, steps, s);
      assert Progress(Send) && Enabled(w, s, Send);
    } else {
      assert Progress(Sent) && Enabled(w, s, Sent);
    }
  }

  lemma StatsMissing(s: State)
    requires CoordinatorOk(s) && s.pc.AwaitStats? && s.miners != []
    ensures s.pc.got < |s.miners| && s.writers != [] && s.pc.got <= |s.writers[Current(s)].sent|
  {
  }

  /**
    Between two minute events the protocol cannot get stuck, except in one way: the collector of the
    block being stopped counted fewer miners than there are and has ended, and those who came late
    have filled its channel.
   */
  lemma StuckOnlyBehindCollector(w: World, start: State, steps: seq<Step>, s: State)
    requires Reached(w, start, steps, s) && s.pc != Waiting && w.n >= 1 && w.keep >= 1
    ensures (exists step :: Progress(step) && Enabled(w, s, step)) || (s.writers != [] && CollectorGone(w, s))
  {
    hide MinerOk, WriterOk, HasSubmitted, CoordinatorOk, Alternates, CanHandle, SentBy;
    ReachedInv(w, start, steps, s);
    InitInv(w, start);
    InitLogged(w, start);
    RunLogged(w, start, steps);
    if s.pc.Sending? {
      SendingMoves(w, start, steps, s);
    } else {
      Stopping(w, s);
      var x := s.writers[Current(s)];
      if s.pc.got < |x.sent| {
        assert Progress(ReceiveStats) && Enabled(w, s, ReceiveStats);
      } else {
        StatsMissing(s);
        var i := Missing(x.sent, w.n);
        if s.miners[i].pending == [] { LateQueue(w, s, i); } else { LateCommand(w, s, i); }
        assert Progress(Take(i)) && Progress(Handle(i)) && Progress(Collect(Current(s)));
        if !x.done && |x.sent| >= x.received + w.keep { assert Enabled(w, s, Collect(Current(s))); }
      }
    }
  }

  lemma EndedHeard(s: State, b: nat)
    requires Counted(s) && b < |s.writers| && s.writers[b].done
    ensures s.writers[b].received >= 1
  {
    hide Registrations;
    assert CollectorOk(s.writers[b]);
  }

  /** With room in the channel for all but one of the miners the protocol never gets stuck. */
  lemma NeverStuck(w: World, start: State, steps: seq<Step>, s: State)
    requires Reached(w, start, steps, s) && s.pc != Waiting && w.n >= 1 && w.keep >= 1 && w.keep + 1 >= w.n
    ensures exists step :: Progress(step) && Enabled(w, s, step)
  {
    hide Reached, Counted, Enabled;
    StuckOnlyBehindCollector(w, start, steps, s);
    ReachedCounted(w, start, steps, s);
    if s.writers != [] && s.writers[Current(s)].done {
      EndedHeard(s, Current(s));
    }
  }
}
