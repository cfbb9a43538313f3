/** A run of the mining protocol that gets stuck, and exactly when there is one. */
module MiningDeadlock {
  import opened Common
  import opened Nonce
  import opened MiningProtocol
  import opened MiningSafety
  import opened MiningTheorems
  import opened MiningCollection
  import opened MiningProgress

  ghost predicate Reachable(w: World, s: State) {
    exists start, steps :: Reached(w, start, steps, s)
  }

  lemma ReachableInv(w: World, s: State)
    requires Reachable(w, s)
    ensures Inv(w, s) && Counted(s) && |s.miners| == w.n
  {
    hide Reached, Counted;
    var start, steps :| Reached(w, start, steps, s);
    ReachedInv(w, start, steps, s);
    ReachedCounted(w, start, steps, s);
  }

  lemma ReachNext(w: World, s: State, step: Step)
    requires Reachable(w, s) && Enabled(w, s, step)
    ensures Reachable(w, Next(w, s, step))
  {
    hide Enabled, Next, Init;
    var start, steps :| Reached(w, start, steps, s);
    PlayOne(w, s, step);
    PlayBoth(w, start, steps, [step]);
    assert Reached(w, start, steps + [step], Next(w, s, step));
  }

  function Launch(w: World): State {
    State(false, Waiting, [], seq(w.n, (i: nat) => Miner([], 0, [], false, [], 0, 0, i, false, None, None, w.keep)),
      seq(w.n, (i: nat) => Ranking(i, [])), [])
  }

  lemma LaunchReachable(w: World)
    ensures Reachable(w, Launch(w))
  {
    assert Init(w, Launch(w));
    assert Reached(w, Launch(w), [], Launch(w));
  }

  // ---------- moving one goroutine ----------

  /** Only miner i has moved; of the writers at most the number of registrations has changed. */
  ghost predicate Apart(s: State, t: State, i: nat) {
    && t.issued == s.issued && t.pc == s.pc && t.mining == s.mining
    && |t.miners| == |s.miners| && |t.writers| == |s.writers|
    && (forall j | 0 <= j < |s.miners| && j != i :: t.miners[j] == s.miners[j])
    && (forall b | 0 <= b < |s.writers| :: t.writers[b] == s.writers[b].(registered := t.writers[b].registered))
  }

  /** The coordinator hands the last issued batch to everybody. */
  lemma HandOut(w: World, s: State) returns (t: State)
    requires Reachable(w, s) && s.pc.Sending?
    ensures Reachable(w, t) && t.pc.Sending? && t.pc.next >= w.n
    ensures t.issued == s.issued && t.writers == s.writers && t.mining == s.mining && |t.miners| == |s.miners|
    ensures forall i | 0 <= i < |s.miners| ::
      t.miners[i].taken == s.miners[i].taken && t.miners[i].pending == s.miners[i].pending
      && t.miners[i].count == s.miners[i].count
  {
    t := s;
    while t.pc.next < w.n
      invariant Reachable(w, t) && t.pc.Sending?
      invariant t.issued == s.issued && t.writers == s.writers && t.mining == s.mining && |t.miners| == |s.miners|
      invariant forall i | 0 <= i < |s.miners| ::
        t.miners[i].taken == s.miners[i].taken && t.miners[i].pending == s.miners[i].pending
        && t.miners[i].count == s.miners[i].count
      decreases w.n - t.pc.next
    {
      t := HandOutOne(w, t);
    }
  }

  lemma HandOutOne(w: World, s: State) returns (t: State)
    requires Reachable(w, s) && s.pc.Sending? && s.pc.next < w.n
    ensures Reachable(w, t) && t.pc == Sending(s.pc.next + 1)
    ensures t.issued == s.issued && t.writers == s.writers && t.mining == s.mining && |t.miners| == |s.miners|
    ensures forall i | 0 <= i < |s.miners| ::
      t.miners[i].taken == s.miners[i].taken && t.miners[i].pending == s.miners[i].pending
      && t.miners[i].count == s.miners[i].count
  {
    hide Reachable, Inv;
    CanSend(w, s);
    t := Next(w, s, Send);
    ReachNext(w, s, Send);
  }

  lemma CanSend(w: World, s: State)
    requires Reachable(w, s) && s.pc.Sending? && s.pc.next < w.n
    ensures Enabled(w, s, Send)
  {
    hide Reached, Enabled;
    var start, steps :| Reached(w, start, steps, s);
    SendNeverBlocks(w, start, steps, s);
  }

  /** A miner between batches takes the next one that was handed to it. */
  lemma TakeOne(w: World, s: State, i: nat) returns (t: State)
    requires Reachable(w, s) && i < w.n == |s.miners| && s.miners[i].pending == []
    requires s.miners[i].taken < Delivered(s, i)
    ensures Reachable(w, t) && Apart(s, t, i) && s.miners[i].taken < |s.issued|
    ensures t.miners[i].taken == s.miners[i].taken + 1 && t.miners[i].count == s.miners[i].count
    ensures t.miners[i].pending == Commands(s.issued[s.miners[i].taken])
  {
    hide Reachable, Inv, Commands;
    ReachableInv(w, s);
    HasQueue(w, s, i);
    TakesNext(w, s, i);
    t := Next(w, s, Take(i));
    ReachNext(w, s, Take(i));
  }

  lemma HasQueue(w: World, s: State, i: nat)
    requires Inv(w, s) && i < |s.miners|
    ensures |s.miners[i].queue| == Delivered(s, i) - s.miners[i].taken
    ensures s.miners[i].pending == [] && s.miners[i].taken < Delivered(s, i) ==> Enabled(w, s, Take(i))
  {
    hide PhaseOk, WriterOk;
    assert MinerOk(w, s, i);
  }

  /** One command that is not a submission. */
  lemma HandleOne(w: World, s: State, i: nat) returns (t: State)
    requires Reachable(w, s) && i < w.n == |s.miners| && s.miners[i].pending != []
    requires !s.miners[i].pending[0].SubmitNonces?
    ensures Reachable(w, t) && Apart(s, t, i)
    ensures t.miners[i].taken == s.miners[i].taken && t.miners[i].pending == s.miners[i].pending[1..]
  {
    hide Reachable, Inv, Execute;
    CanObey(w, s, i);
    var m := s.miners[i];
    t := Next(w, s, Handle(i));
    ReachNext(w, s, Handle(i));
    ExecuteFrame(s, i, m.(pending := m.pending[1..]), m.pending[0]);
  }

  lemma CanObey(w: World, s: State, i: nat)
    requires Reachable(w, s) && i < w.n == |s.miners| && s.miners[i].pending != []
    requires !s.miners[i].pending[0].SubmitNonces?
    ensures Enabled(w, s, Handle(i))
  {
    hide Reached;
    var start, steps :| Reached(w, start, steps, s);
    NothingNil(w, start, steps, s, i);
  }

  /** The rest of a batch without a submission. */
  lemma {:induction false} FinishBatch(w: World, s: State, i: nat) returns (t: State)
    requires Reachable(w, s) && i < w.n == |s.miners|
    requires forall p | 0 <= p < |s.miners[i].pending| :: !s.miners[i].pending[p].SubmitNonces?
    ensures Reachable(w, t) && Apart(s, t, i)
    ensures t.miners[i].taken == s.miners[i].taken && t.miners[i].pending == []
    decreases |s.miners[i].pending|
  {
    hide Reachable;
    if s.miners[i].pending == [] {
      t := s;
    } else {
      var u := HandleOne(w, s, i);
      t := FinishBatch(w, u, i);
    }
  }

  // ---------- the run ----------

  predicate NotBegun(m: Miner) {
    m.taken == 0 && m.pending == []
  }

  predicate Through(m: Miner) {
    m.taken == 2 && m.pending == []
  }

  predicate AtSubmission(m: Miner) {
    m.taken == 2 && m.pending == [SubmitNonces, PauseMining]
  }

  lemma Stream(w: World, s: State)
    requires Inv(w, s)
    ensures |s.issued| >= 1 ==> s.issued[0].Start? && s.issued[0].block == 0
    ensures |s.issued| >= 2 ==> s.issued[1] == Stop(0)
  {
    hide MinerOk, WriterOk;
  }

  /** A miner works through a start batch. */
  lemma Begin(w: World, s: State, i: nat) returns (t: State)
    requires Reachable(w, s) && i < w.n == |s.miners| && NotBegun(s.miners[i]) && Delivered(s, i) >= 1
    ensures Reachable(w, t) && Apart(s, t, i) && t.miners[i].taken == 1 && t.miners[i].pending == []
  {
    hide Reachable, Inv;
    ReachableInv(w, s);
    Stream(w, s);
    var u := TakeOne(w, s, i);
    NoSubmission(s.issued[0]);
    t := FinishBatch(w, u, i);
  }

  lemma NoSubmission(b: Batch)
    requires b.Start?
    ensures forall p | 0 <= p < |Commands(b)| :: !Commands(b)[p].SubmitNonces?
  {
    forall p | 0 <= p < |Commands(b)|
      ensures !Commands(b)[p].SubmitNonces?
    {
      OnlyStopSubmits(b, p);
    }
  }

  /** A miner that has not begun works up to its submission. */
  lemma ComeToSubmission(w: World, s: State, i: nat) returns (t: State)
    requires Reachable(w, s) && i < w.n == |s.miners| && Delivered(s, i) >= 2
    requires NotBegun(s.miners[i]) || (s.miners[i].taken == 1 && s.miners[i].pending == [])
    ensures Reachable(w, t) && Apart(s, t, i) && AtSubmission(t.miners[i])
    ensures s.miners[i].taken == 1 ==> t.miners[i].count == s.miners[i].count
  {
    hide Reachable, Inv;
    var u := s;
    if NotBegun(s.miners[i]) { u := Begin(w, s, i); }
    ReachableInv(w, u);
    Stream(w, u);
    t := TakeOne(w, u, i);
  }

  /** The only block's writer, apart from who is registered. */
  ghost predicate Room(w: World, s: State) {
    |s.writers| == 1 && |s.writers[0].sent| < s.writers[0].received + w.keep
  }

  /** A miner sends its ranking and pauses. */
  lemma Submit(w: World, s: State, i: nat) returns (t: State)
    requires Reachable(w, s) && i < w.n == |s.miners| && AtSubmission(s.miners[i]) && Room(w, s)
    ensures Reachable(w, t) && |t.miners| == |s.miners| && Through(t.miners[i])
    ensures t.issued == s.issued && t.pc == s.pc && t.mining == s.mining
    ensures forall j | 0 <= j < |s.miners| && j != i :: t.miners[j] == s.miners[j]
    ensures |t.writers| == 1
    ensures t.writers[0].sent == s.writers[0].sent + [Submission(i, s.miners[i].ranking, s.miners[i].count)]
    ensures t.writers[0] == s.writers[0].(registered := t.writers[0].registered, sent := t.writers[0].sent)
  {
    hide Reachable, Inv, Execute;
    ReachableInv(w, s);
    SubmittingBlock(w, s, i);
    var m, u := s.miners[i], Next(w, s, Handle(i));
    ReachNext(w, s, Handle(i));
    SubmitFrame(w, s, i);
    ExecuteFrame(s, i, m.(pending := m.pending[1..]), m.pending[0]);
    assert u.miners[i].pending == [PauseMining];
    t := FinishBatch(w, u, i);
  }

  /**
    Block 0 is being stopped, its collector has ended with the first ranking, k rankings have been sent
    and `got` statistics received; the first k miners are through, those from `next` on have not begun.
   */
  ghost predicate Behind(w: World, s: State, k: nat, next: nat, got: nat) {
    && Reachable(w, s) && |s.miners| == w.n && |s.issued| == 2 && s.pc == AwaitStats(got) && |s.writers| == 1
    && s.writers[0].done && s.writers[0].received == 1 && |s.writers[0].sent| == k <= next
    && (forall j | 0 <= j < w.n ::
      if j < k then Through(s.miners[j]) else if j < next then AtSubmission(s.miners[j]) else NotBegun(s.miners[j]))
  }

  /** Block 0 is started, and only miner 0 has noticed. */
  lemma OneBegun(w: World) returns (s: State)
    requires w.n >= 2
    ensures Reachable(w, s) && |s.miners| == w.n && s.issued == [Start(0, [], 0)] && s.pc == Waiting && s.mining
    ensures |s.writers| == 1 && s.writers[0].sent == [] && s.writers[0].received == 0 && !s.writers[0].done
    ensures s.miners[0].taken == 1 && s.miners[0].pending == []
    ensures forall j | 1 <= j < w.n :: NotBegun(s.miners[j])
  {
    hide Reachable, Inv;
    LaunchReachable(w);
    var s0, step := Launch(w), Minute1([], 0);
    ReachNext(w, s0, step);
    var s1 := HandOut(w, Next(w, s0, step));
    ReachableInv(w, s1);
    ReachNext(w, s1, Sent);
    var s2 := Next(w, s1, Sent);
    ReachableInv(w, s2);
    s := Begin(w, s2, 0);
    ReachableInv(w, s);
  }

  /** The block is stopped; no miner has noticed. */
  lemma StopBlock(w: World, s: State) returns (t: State)
    requires Reachable(w, s) && |s.miners| == w.n && |s.issued| == |s.writers| == 1 && s.pc == Waiting && s.mining
    ensures Reachable(w, t) && |t.miners| == w.n && t.issued == s.issued + [Stop(0)] && t.pc == AwaitStats(0)
    ensures t.writers == [s.writers[0].(collecting := true)]
    ensures forall i | 0 <= i < w.n ::
      t.miners[i].taken == s.miners[i].taken && t.miners[i].pending == s.miners[i].pending
      && t.miners[i].count == s.miners[i].count
  {
    hide Reachable, Inv;
    ReachNext(w, s, Minute9);
    var u := HandOut(w, Next(w, s, Minute9));
    ReachableInv(w, u);
    ReachNext(w, u, Sent);
    t := Next(w, u, Sent);
  }

  /** The block is stopped, and miner 0 has sent its ranking. */
  lemma OneSent(w: World) returns (s: State)
    requires w.n >= 2 && w.keep >= 1
    ensures Reachable(w, s) && |s.miners| == w.n && |s.issued| == 2 && s.pc == AwaitStats(0)
    ensures |s.writers| == 1 && |s.writers[0].sent| == 1 && s.writers[0].received == 0
    ensures s.writers[0].collecting && !s.writers[0].done
    ensures Through(s.miners[0]) && forall j | 1 <= j < w.n :: NotBegun(s.miners[j])
  {
    hide Reachable;
    var s0 := OneBegun(w);
    var s1 := StopBlock(w, s0);
    s := MinerZeroSends(w, s1);
  }

  lemma MinerZeroSends(w: World, s: State) returns (t: State)
    requires Reachable(w, s) && |s.miners| == w.n >= 2 && w.keep >= 1 && |s.issued| == 2 && s.pc == AwaitStats(0)
    requires |s.writers| == 1 && s.writers[0].sent == [] && s.writers[0].received == 0
    requires s.writers[0].collecting && !s.writers[0].done
    requires s.miners[0].taken == 1 && s.miners[0].pending == [] && forall j | 1 <= j < w.n :: NotBegun(s.miners[j])
    ensures Reachable(w, t) && |t.miners| == w.n && |t.issued| == 2 && t.pc == AwaitStats(0)
    ensures |t.writers| == 1 && |t.writers[0].sent| == 1 && t.writers[0].received == 0
    ensures t.writers[0].collecting && !t.writers[0].done
    ensures Through(t.miners[0]) && forall j | 1 <= j < w.n :: NotBegun(t.miners[j])
  {
    hide Reachable, Inv;
    var u := ComeToSubmission(w, s, 0);
    t := Submit(w, u, 0);
  }

  lemma OnlyMinerZero(miners: seq<Miner>)
    requires miners != [] && Through(miners[0]) && forall j | 1 <= j < |miners| :: NotBegun(miners[j])
    ensures Registrations(miners, 0) == 1
  {
    hide Registrations;
    assert HasRegistered(miners[0], 0);
    RegistrationsAreSize(miners, 0);
    assert RegisteredMiners(miners, 0) == {0};
  }

  /** The collector takes it for complete: a run in which the other miners are missed. */
  lemma MinersMissed(w: World) returns (s: State)
    requires w.n >= 2 && w.keep >= 1
    ensures Behind(w, s, 1, 1, 0)
  {
    hide Reachable, Inv, Registrations;
    var u := OneSent(w);
    ReachableInv(w, u);
    OnlyMinerZero(u.miners);
    ReachNext(w, u, Collect(0));
    s := Next(w, u, Collect(0));
  }

  /** The collector of block b has ended without hearing every miner. */
  ghost predicate Misses(w: World, s: State, b: nat) {
    b < |s.writers| && s.writers[b].done && s.writers[b].received < w.n
  }

  /** As soon as there are two miners, a collector can end too early. */
  lemma MissesIff(w: World)
    requires w.n >= 1 && w.keep >= 1
    ensures (exists s, b: nat :: Reachable(w, s) && Misses(w, s, b)) <==> w.n >= 2
  {
    hide Reachable, Inv, Registrations;
    if w.n >= 2 {
      var s := MinersMissed(w);
      assert Reachable(w, s) && Misses(w, s, 0);
    } else {
      forall s, b: nat | Reachable(w, s) && b < |s.writers|
        ensures !Misses(w, s, b)
      {
        ReachableInv(w, s);
      }
    }
  }

  lemma OneMoreSends(w: World, s: State, k: nat) returns (t: State)
    requires Behind(w, s, k, k, 0) && k < w.n && k <= w.keep
    ensures Behind(w, t, k + 1, k + 1, 0)
  {
    hide Reachable;
    var u := ComeToSubmission(w, s, k);
    t := Submit(w, u, k);
  }

  /** Those who come late fill the channel, */
  lemma FillChannel(w: World, s: State) returns (t: State)
    requires Behind(w, s, 1, 1, 0) && w.keep + 1 <= w.n
    ensures Behind(w, t, w.keep + 1, w.keep + 1, 0)
  {
    hide Behind;
    t := s;
    for k := 1 to w.keep + 1
      invariant Behind(w, t, k, k, 0)
    {
      t := OneMoreSends(w, t, k);
    }
  }

  lemma OneMoreBlocks(w: World, s: State, k: nat, next: nat) returns (t: State)
    requires Behind(w, s, k, next, 0) && next < w.n
    ensures Behind(w, t, k, next + 1, 0)
  {
    hide Reachable;
    t := ComeToSubmission(w, s, next);
  }

  /** and the rest of them block. */
  lemma BlockRest(w: World, s: State, k: nat) returns (t: State)
    requires Behind(w, s, k, k, 0) && k <= w.n
    ensures Behind(w, t, k, w.n, 0)
  {
    hide Behind;
    t := s;
    for next := k to w.n
      invariant Behind(w, t, k, next, 0)
    {
      t := OneMoreBlocks(w, t, k, next);
    }
  }

  lemma OneMoreReceived(w: World, s: State, k: nat, got: nat) returns (t: State)
    requires Behind(w, s, k, w.n, got) && got < k && got + 1 < w.n
    ensures Behind(w, t, k, w.n, got + 1)
  {
    hide Reachable, Inv;
    t := Next(w, s, ReceiveStats);
    ReachNext(w, s, ReceiveStats);
  }

  /** The coordinator gets the statistics of those that are through. */
  lemma ReceiveSome(w: World, s: State, k: nat) returns (t: State)
    requires Behind(w, s, k, w.n, 0) && k < w.n
    ensures Behind(w, t, k, w.n, k)
  {
    hide Behind;
    t := s;
    for got := 0 to k
      invariant Behind(w, t, k, w.n, got)
    {
      t := OneMoreReceived(w, t, k, got);
    }
  }

  ghost predicate CanProgress(w: World, s: State) {
    exists step :: Progress(step) && Enabled(w, s, step)
  }

  /** No goroutine can do anything, and no minute event is waited for. */
  ghost predicate Deadlocked(w: World, s: State) {
    forall step :: !Enabled(w, s, step)
  }

  lemma ThroughResting(w: World, s: State, i: nat)
    requires Inv(w, s) && i < |s.miners| && |s.issued| == 2 && !s.pc.Sending? && Through(s.miners[i])
    ensures !Enabled(w, s, Take(i)) && !Enabled(w, s, Handle(i)) && !Enabled(w, s, Hash(i))
  {
    hide WriterOk;
    Stream(w, s);
    assert MinerOk(w, s, i);
  }

  lemma SubmissionBlocked(w: World, s: State, i: nat)
    requires Inv(w, s) && i < w.n == |s.miners| && AtSubmission(s.miners[i])
    requires |s.writers| == 1 && |s.writers[0].sent| >= s.writers[0].received + w.keep
    ensures !Enabled(w, s, Take(i)) && !Enabled(w, s, Handle(i)) && !Enabled(w, s, Hash(i))
  {
    hide Inv;
    SubmittingBlock(w, s, i);
  }

  lemma NothingMoves(w: World, s: State, step: Step)
    requires Behind(w, s, w.keep + 1, w.n, w.keep + 1)
    ensures !Enabled(w, s, step)
  {
    hide Reachable, Inv, Through, AtSubmission;
    ReachableInv(w, s);
    match step
    case Take(i) => if i < w.n { MinerRests(w, s, i); }
    case Handle(i) => if i < w.n { MinerRests(w, s, i); }
    case Hash(i) => if i < w.n { MinerRests(w, s, i); }
    case _ =>
  }

  lemma MinerRests(w: World, s: State, i: nat)
    requires Behind(w, s, w.keep + 1, w.n, w.keep + 1) && i < w.n
    ensures !Enabled(w, s, Take(i)) && !Enabled(w, s, Handle(i)) && !Enabled(w, s, Hash(i))
  {
    hide Reachable, Inv, Through, AtSubmission;
    ReachableInv(w, s);
    if i < w.keep + 1 { ThroughResting(w, s, i); } else { SubmissionBlocked(w, s, i); }
  }

  /** With two miners more than the channel holds, there is a run after which nothing moves any more. */
  lemma StuckRun(w: World)
    requires w.keep >= 1 && w.n >= w.keep + 2
    ensures exists s :: Reachable(w, s) && s.pc != Waiting && Deadlocked(w, s)
  {
    hide Reachable, Enabled;
    var s := MinersMissed(w);
    s := FillChannel(w, s);
    s := BlockRest(w, s, w.keep + 1);
    s := ReceiveSome(w, s, w.keep + 1);
    forall step
      ensures !Enabled(w, s, step)
    {
      NothingMoves(w, s, step);
    }
    assert Deadlocked(w, s);
  }

  /** Exactly then can the protocol get stuck between two minute events. */
  lemma StuckIff(w: World)
    requires w.n >= 1 && w.keep >= 1
    ensures (exists s :: Reachable(w, s) && s.pc != Waiting && !CanProgress(w, s)) <==> w.n >= w.keep + 2
  {
    hide Reached, Enabled;
    if w.n >= w.keep + 2 {
      StuckRun(w);
      var s :| Reachable(w, s) && s.pc != Waiting && Deadlocked(w, s);
      assert !CanProgress(w, s);
    } else {
      forall s | Reachable(w, s) && s.pc != Waiting
        ensures CanProgress(w, s)
      {
        var start, steps :| Reached(w, start, steps, s);
        NeverStuck(w, start, steps, s);
      }
    }
  }
}
