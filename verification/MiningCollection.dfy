/** Whom the collector of a block waits for: what it counts, when it ends, and whom it can miss. */
module MiningCollection {
  import opened Common
  import opened Nonce
  import opened MiningProtocol
  import opened MiningSafety
  import opened MiningTheorems

  /** The miner has registered with the writer of a block. */
  predicate HasRegistered(m: Miner, block: nat) {
    m.taken > 2 * block + 1 || (m.taken == 2 * block + 1 && |m.pending| <= 5)
  }

  function Registrations(miners: seq<Miner>, block: nat): (r: nat)
    ensures r <= |miners|
  {
    if miners == [] then 0
    else
      var k := |miners| - 1;
      Registrations(miners[..k], block) + if HasRegistered(miners[k], block) then 1 else 0
  }

  /** The collector has ended at a moment when it had heard from all who were registered, or has not yet. */
  ghost predicate CollectorOk(x: Writer) {
    if x.done then 1 <= x.received <= x.registered else x.received == 0 || x.received < x.registered
  }

  ghost predicate Counted(s: State) {
    forall b | 0 <= b < |s.writers| ::
      s.writers[b].registered == Registrations(s.miners, b) && CollectorOk(s.writers[b])
  }

  lemma InitCounted(w: World, s: State)
    requires Init(w, s)
    ensures Counted(s)
  {
  }

  lemma {:induction false} AllRegistered(miners: seq<Miner>, b: nat)
    ensures Registrations(miners, b) == |miners| <==> forall i | 0 <= i < |miners| :: HasRegistered(miners[i], b)
  {
    hide HasRegistered;
    if miners != [] {
      var k := |miners| - 1;
      AllRegistered(miners[..k], b);
    }
  }

  lemma {:induction false} SameRegistrations(before: seq<Miner>, after: seq<Miner>, b: nat)
    requires |before| == |after|
    requires forall i | 0 <= i < |before| :: HasRegistered(before[i], b) == HasRegistered(after[i], b)
    ensures Registrations(before, b) == Registrations(after, b)
  {
    hide HasRegistered;
    if before != [] {
      var k := |before| - 1;
      SameRegistrations(before[..k], after[..k], b);
    }
  }

  lemma {:induction false} OneMore(before: seq<Miner>, after: seq<Miner>, b: nat, i: nat)
    requires |before| == |after| && i < |before| && !HasRegistered(before[i], b) && HasRegistered(after[i], b)
    requires forall j | 0 <= j < |before| && j != i :: HasRegistered(before[j], b) == HasRegistered(after[j], b)
    ensures Registrations(after, b) == Registrations(before, b) + 1
  {
    hide HasRegistered;
    var k := |before| - 1;
    if i == k {
      SameRegistrations(before[..k], after[..k], b);
    } else {
      OneMore(before[..k], after[..k], b, i);
    }
  }

  lemma {:induction false} SomeRegistered(miners: seq<Miner>, b: nat, i: nat)
    requires i < |miners| && HasRegistered(miners[i], b)
    ensures Registrations(miners, b) >= 1
  {
    hide HasRegistered;
    var k := |miners| - 1;
    if i < k { SomeRegistered(miners[..k], b, i); }
  }

  // ---------- one step ----------

  /** The step is a miner registering for block b. */
  predicate Registers(s: State, step: Step, b: nat) {
    step.Handle? && step.miner < |s.miners| && s.miners[step.miner].pending != []
    && s.miners[step.miner].pending[0] == RecordAggregator(b)
  }

  lemma StepRegistered(w: World, s: State, step: Step, b: nat)
    requires Inv(w, s) && Enabled(w, s, step) && b < |s.writers|
    ensures var t := Next(w, s, step);
      && b < |t.writers|
      && t.writers[b].registered == s.writers[b].registered + (if Registers(s, step, b) then 1 else 0)
      && (step != Collect(b) ==> t.writers[b].received == s.writers[b].received && t.writers[b].done == s.writers[b].done)
  {
    hide Inv, NonceAt, Commands;
  }

  /** What a batch has to do with registering: only the first command of a start batch does it. */
  lemma OnlyStartRegisters(batch: Batch, p: nat)
    requires p < |Commands(batch)|
    ensures if batch.Start? && p == 0 then Commands(batch)[p] == RecordAggregator(batch.block)
      else !Commands(batch)[p].RecordAggregator?
  {
  }

  lemma HandleRegisters(w: World, s: State, i: nat, b: nat)
    requires Inv(w, s) && Enabled(w, s, Handle(i))
    ensures i < |s.miners| == |Next(w, s, Handle(i)).miners|
    ensures HasRegistered(Next(w, s, Handle(i)).miners[i], b) <==>
      (HasRegistered(s.miners[i], b) || Registers(s, Handle(i), b))
    ensures Registers(s, Handle(i), b) ==> !HasRegistered(s.miners[i], b)
  {
    hide MinerOk, WriterOk, PhaseOk, Execute, Commands, Alternates;
    HandleEnabled(w, s, i);
    var m := s.miners[i];
    Executing(w, s, i);
    ExecuteFrame(s, i, m.(pending := m.pending[1..]), m.pending[0]);
    var batch := s.issued[m.taken - 1];
    OnlyStartRegisters(batch, Position(m, batch));
  }

  lemma TakeRegisters(w: World, s: State, i: nat, b: nat)
    requires Inv(w, s) && Enabled(w, s, Take(i))
    ensures HasRegistered(Next(w, s, Take(i)).miners[i], b) <==> HasRegistered(s.miners[i], b)
  {
    hide WriterOk, PhaseOk, MinerOk;
    TakesNext(w, s, i);
    BatchBlock(s, s.miners[i].taken);
  }

  /** A step moves the registration of at most the miner whose step it is. */
  lemma StepRegisters(w: World, s: State, step: Step, i: nat, b: nat)
    requires Inv(w, s) && Enabled(w, s, step) && i < |s.miners|
    ensures i < |Next(w, s, step).miners|
    ensures HasRegistered(Next(w, s, step).miners[i], b) <==>
      (HasRegistered(s.miners[i], b) || (step == Handle(i) && Registers(s, step, b)))
    ensures step == Handle(i) && Registers(s, step, b) ==> !HasRegistered(s.miners[i], b)
  {
    if step == Handle(i) {
      hide *;
      HandleRegisters(w, s, i, b);
    } else if step == Take(i) {
      TakeRegisters(w, s, i, b);
    } else {
      hide MinerOk, WriterOk, Commands;
    }
  }

  lemma StepCount(w: World, s: State, step: Step, b: nat)
    requires Inv(w, s) && Enabled(w, s, step) && b < |s.writers|
    ensures Registrations(Next(w, s, step).miners, b)
      == Registrations(s.miners, b) + if Registers(s, step, b) then 1 else 0
  {
    hide Inv, Enabled, Next, HasRegistered, Registrations;
    var t := Next(w, s, step);
    SameMiners(w, s, step);
    forall i | 0 <= i < |s.miners|
      ensures HasRegistered(t.miners[i], b) <==>
        (HasRegistered(s.miners[i], b) || (step == Handle(i) && Registers(s, step, b)))
      ensures step == Handle(i) && Registers(s, step, b) ==> !HasRegistered(s.miners[i], b)
    {
      StepRegisters(w, s, step, i, b);
    }
    if Registers(s, step, b) {
      OneMore(s.miners, t.miners, b, step.miner);
    } else {
      SameRegistrations(s.miners, t.miners, b);
    }
  }

  /** Nobody has registered for a block that is not started yet. */
  lemma NoneYet(w: World, s: State, step: Step)
    requires Inv(w, s) && Enabled(w, s, step) && |Next(w, s, step).writers| > |s.writers|
    ensures Next(w, s, step).writers == s.writers + [NewWriter()]
    ensures Registrations(Next(w, s, step).miners, |s.writers|) == 0
  {
    hide MinerOk, WriterOk, Commands, NonceAt;
    assert step.Minute1?;
    forall i | 0 <= i < |s.miners|
      ensures !HasRegistered(s.miners[i], |s.writers|)
    {
      TakenBound(w, s, i);
    }
    NoRegistrations(s.miners, |s.writers|);
  }

  lemma {:induction false} NoRegistrations(miners: seq<Miner>, b: nat)
    requires forall i | 0 <= i < |miners| :: !HasRegistered(miners[i], b)
    ensures Registrations(miners, b) == 0
  {
    hide HasRegistered;
    if miners != [] {
      NoRegistrations(miners[..|miners| - 1], b);
    }
  }

  /** Who has sent to a writer has registered with it. */
  lemma SenderRegistered(w: World, s: State, b: nat)
    requires Inv(w, s) && b < |s.writers| && s.writers[b].sent != []
    ensures Registrations(s.miners, b) >= 1
  {
    hide MinerOk, Registrations;
    SubmissionRanking(w, s, b, 0);
    SomeRegistered(s.miners, b, s.writers[b].sent[0].miner);
  }

  lemma CollectCounted(w: World, s: State, b: nat)
    requires Inv(w, s) && Counted(s) && Enabled(w, s, Collect(b))
    ensures b < |Next(w, s, Collect(b)).writers| && CollectorOk(Next(w, s, Collect(b)).writers[b])
  {
    hide Inv, Registrations;
    SenderRegistered(w, s, b);
  }

  lemma StepCounted(w: World, s: State, step: Step)
    requires Inv(w, s) && Counted(s) && Enabled(w, s, step)
    ensures Counted(Next(w, s, step))
  {
    hide Inv, Enabled, Next, Registrations, Registers;
    var t := Next(w, s, step);
    forall b | 0 <= b < |t.writers|
      ensures t.writers[b].registered == Registrations(t.miners, b) && CollectorOk(t.writers[b])
    {
      if b < |s.writers| {
        StepRegistered(w, s, step, b);
        StepCount(w, s, step, b);
        if step == Collect(b) { CollectCounted(w, s, b); }
      } else {
        NoneYet(w, s, step);
      }
    }
  }

  lemma {:induction false} RunCounted(w: World, s: State, steps: seq<Step>)
    requires Inv(w, s) && Counted(s) && Play(w, s, steps).Some?
    ensures Counted(Play(w, s, steps).value)
    decreases |steps|
  {
    hide Inv, Counted, Enabled, Next;
    if steps != [] {
      StepInv(w, s, steps[0]);
      StepCounted(w, s, steps[0]);
      RunCounted(w, Next(w, s, steps[0]), steps[1..]);
    }
  }

  lemma ReachedCounted(w: World, start: State, steps: seq<Step>, s: State)
    requires Reached(w, start, steps, s)
    ensures Counted(s)
  {
    InitInv(w, start);
    InitCounted(w, start);
    RunCounted(w, start, steps);
  }

  // ---------- whom the collector hears ----------

  function RegisteredMiners(miners: seq<Miner>, b: nat): set<nat> {
    set i | 0 <= i < |miners| && HasRegistered(miners[i], b)
  }

  lemma {:induction false} RegistrationsAreSize(miners: seq<Miner>, b: nat)
    ensures |RegisteredMiners(miners, b)| == Registrations(miners, b)
  {
    hide HasRegistered;
    if miners == [] {
      assert RegisteredMiners(miners, b) == {};
    } else {
      var k := |miners| - 1;
      RegistrationsAreSize(miners[..k], b);
      assert RegisteredMiners(miners, b)
        == RegisteredMiners(miners[..k], b) + if HasRegistered(miners[k], b) then {k} else {};
    }
  }

  /** The first k senders are k registered miners. */
  lemma SendersRegistered(w: World, s: State, b: nat, k: nat)
    requires Inv(w, s) && b < |s.writers| && k <= |s.writers[b].sent|
    ensures Senders(s.writers[b].sent[..k]) <= RegisteredMiners(s.miners, b)
    ensures |Senders(s.writers[b].sent[..k])| == k
  {
    hide MinerOk;
    assert WriterOk(w, s, b);
    var sent := s.writers[b].sent;
    SendersCount(sent[..k]);
    forall x | x in sent[..k]
      ensures x.miner in RegisteredMiners(s.miners, b)
    {
      var a :| 0 <= a < k && sent[a] == x;
      SubmissionRanking(w, s, b, a);
    }
  }

  /** With k registered miners, the first k senders are all of them. */
  lemma AllHeard(w: World, s: State, b: nat, k: nat, i: nat)
    requires Inv(w, s) && b < |s.writers| && k <= |s.writers[b].sent| && k == Registrations(s.miners, b)
    requires i < |s.miners|
    ensures HasRegistered(s.miners[i], b) <==> i in Senders(s.writers[b].sent[..k])
  {
    hide Inv, HasRegistered, Registrations, Senders;
    SendersRegistered(w, s, b, k);
    RegistrationsAreSize(s.miners, b);
    SubsetOfSameSize(Senders(s.writers[b].sent[..k]), RegisteredMiners(s.miners, b));
  }

  /** When the collector of a block ends, it has heard exactly the miners that are registered by then. */
  lemma HeardIffRegistered(w: World, start: State, steps: seq<Step>, s: State, b: nat, i: nat)
    requires Reached(w, start, steps, s) && Enabled(w, s, Collect(b)) && i < w.n
    requires Next(w, s, Collect(b)).writers[b].done
    ensures |s.miners| == w.n
    ensures var x := Next(w, s, Collect(b)).writers[b];
      && x.received <= |x.sent|
      && (HasRegistered(s.miners[i], b) <==> i in Senders(x.sent[..x.received]))
  {
    hide MinerOk, WriterOk, HasRegistered, Registrations, Senders;
    ReachedInv(w, start, steps, s);
    ReachedCounted(w, start, steps, s);
    AllHeard(w, s, b, s.writers[b].received + 1, i);
  }

  /** Once the collector has ended, nothing more is received, and a miner that registers now is not heard. */
  lemma LateIsMissed(w: World, start: State, steps: seq<Step>, s: State, more: seq<Step>, t: State, b: nat, i: nat)
    requires Reached(w, start, steps, s) && Play(w, s, more) == Some(t) && i < w.n
    requires b < |s.writers| && s.writers[b].done
    ensures |s.miners| == w.n && b < |t.writers| && t.writers[b].done
    ensures s.writers[b].received == t.writers[b].received <= |t.writers[b].sent|
    ensures !HasRegistered(s.miners[i], b) ==> i !in Senders(t.writers[b].sent[..t.writers[b].received])
  {
    hide MinerOk, WriterOk, Next, Enabled, HasRegistered;
    ReachedInv(w, start, steps, s);
    RunEnded(w, s, more, b);
    RunSent(w, s, more, b);
    ReceivedBound(w, s, b);
    assert t.writers[b].sent[..s.writers[b].received] == s.writers[b].sent[..s.writers[b].received];
    SendersRegistered(w, s, b, s.writers[b].received);
  }

  lemma {:induction false} RunEnded(w: World, s: State, more: seq<Step>, b: nat)
    requires Inv(w, s) && b < |s.writers| && s.writers[b].done && Play(w, s, more).Some?
    ensures var t := Play(w, s, more).value;
      b < |t.writers| && t.writers[b].done && t.writers[b].received == s.writers[b].received
    decreases |more|
  {
    hide Inv, Next;
    if more != [] {
      StepInv(w, s, more[0]);
      StepRegistered(w, s, more[0], b);
      RunEnded(w, Next(w, s, more[0]), more[1..], b);
    }
  }

  /** If all miners are registered while the collector still waits, it hears all of them before it ends. */
  lemma AllCollected(w: World, start: State, steps: seq<Step>, s: State, more: seq<Step>, t: State, b: nat)
    requires Reached(w, start, steps, s) && Play(w, s, more) == Some(t)
    requires b < |s.writers| && s.writers[b].registered == w.n && !s.writers[b].done
    ensures b < |t.writers| && (t.writers[b].done ==> t.writers[b].received == w.n)
  {
    ReachedInv(w, start, steps, s);
    ReachedCounted(w, start, steps, s);
    RunCollected(w, s, more, b);
  }

  lemma {:induction false} RunCollected(w: World, s: State, steps: seq<Step>, b: nat)
    requires Inv(w, s) && Counted(s) && b < |s.writers| && Play(w, s, steps).Some?
    requires s.writers[b].registered == w.n && (s.writers[b].done ==> s.writers[b].received == w.n)
    ensures var t := Play(w, s, steps).value;
      b < |t.writers| && (t.writers[b].done ==> t.writers[b].received == w.n)
    decreases |steps|
  {
    hide Inv, Counted, Next, Registrations;
    if steps != [] {
      var t := Next(w, s, steps[0]);
      StepInv(w, s, steps[0]);
      StepCounted(w, s, steps[0]);
      StepRegistered(w, s, steps[0], b);
      RegisteredBound(w, t, b);
      if steps[0] == Collect(b) { CollectEnds(w, s, b); }
      RunCollected(w, t, steps[1..], b);
    }
  }

  lemma CollectEnds(w: World, s: State, b: nat)
    requires Enabled(w, s, Collect(b))
    ensures b < |s.writers| == |Next(w, s, Collect(b)).writers|
    ensures var x := Next(w, s, Collect(b)).writers[b];
      && x.received == s.writers[b].received + 1 && x.registered == s.writers[b].registered
      && (x.done <==> x.received == x.registered)
  {
  }

  /** Never more registrations than miners. */
  lemma RegisteredBound(w: World, s: State, b: nat)
    requires Inv(w, s) && Counted(s) && b < |s.writers|
    ensures s.writers[b].registered <= w.n
    ensures s.writers[b].registered == w.n <==> forall i | 0 <= i < w.n :: HasRegistered(s.miners[i], b)
  {
    hide MinerOk, WriterOk, CoordinatorOk;
    AllRegistered(s.miners, b);
  }
}
