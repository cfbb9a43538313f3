/** Every hand-over ends: a measure that each step towards its end decreases. */
module MiningHandOver {
  import opened Common
  import opened Nonce
  import opened MiningProtocol
  import opened MiningSafety
  import opened MiningTheorems
  import opened MiningProgress

  function SumOf<T>(s: seq<T>, f: T -> nat): nat {
    if s == [] then 0 else SumOf(s[..|s| - 1], f) + f(s[|s| - 1])
  }

  lemma {:induction false} SumUpdate<T>(s: seq<T>, f: T -> nat, i: nat, x: T)
    requires i < |s|
    ensures SumOf(s[i := x], f) == SumOf(s, f) - f(s[i]) + f(x)
  {
    var k := |s| - 1;
    if i < k {
      SumUpdate(s[..k], f, i, x);
      assert s[i := x][..k] == s[..k][i := x];
    } else {
      assert s[i := x][..k] == s[..k];
    }
  }

  /** Batches to take, commands to execute, and the submission that one of these may be. */
  function MinerWork(m: Miner): nat {
    13 * |m.queue| + 2 * |m.pending|
  }

  /** Rankings to collect. */
  function WriterWork(x: Writer): nat {
    if x.done || |x.sent| < x.received then 0 else |x.sent| - x.received
  }

  /** Batches to hand out, each with the work it makes, and statistics to receive. */
  function CoordinatorWork(pc: Pc, n: nat): nat {
    match pc
    case Waiting => 0
    case Sending(next) => if next < n then 14 * (n - next) + n + 2 else n + 2
    case AwaitStats(got) => if got < n then n - got + 1 else 1
  }

  /** What is left to do before the protocol comes to rest. */
  function Measure(s: State): nat {
    CoordinatorWork(s.pc, |s.miners|) + SumOf(s.miners, MinerWork) + SumOf(s.writers, WriterWork)
  }

  lemma SendDecreases(w: World, s: State)
    requires Enabled(w, s, Send)
    ensures Measure(Next(w, s, Send)) < Measure(s)
  {
    hide SumOf;
    var i, t := s.pc.next, Next(w, s, Send);
    SumUpdate(s.miners, MinerWork, i, t.miners[i]);
  }

  lemma SentDecreases(w: World, s: State)
    requires Enabled(w, s, Sent)
    ensures Measure(Next(w, s, Sent)) < Measure(s)
  {
    hide SumOf;
    var t, b := Next(w, s, Sent), Current(s);
    SumUpdate(s.writers, WriterWork, b, s.writers[b].(collecting := true));
    assert SumOf(t.writers, WriterWork) == SumOf(s.writers, WriterWork);
  }

  lemma ReceiveDecreases(w: World, s: State)
    requires Inv(w, s) && Enabled(w, s, ReceiveStats)
    ensures Measure(Next(w, s, ReceiveStats)) < Measure(s)
  {
    hide SumOf, MinerOk, WriterOk;
    SendersBound(w, s, Current(s));
  }

  lemma TakeDecreases(w: World, s: State, i: nat)
    requires Enabled(w, s, Take(i))
    ensures Measure(Next(w, s, Take(i))) < Measure(s)
  {
    hide SumOf;
    SumUpdate(s.miners, MinerWork, i, Next(w, s, Take(i)).miners[i]);
  }

  lemma CollectDecreases(w: World, s: State, b: nat)
    requires Enabled(w, s, Collect(b))
    ensures Measure(Next(w, s, Collect(b))) < Measure(s)
  {
    hide SumOf;
    SumUpdate(s.writers, WriterWork, b, Next(w, s, Collect(b)).writers[b]);
  }

  /** A command adds at most one ranking to a writer's work. */
  lemma ExecuteWork(s: State, i: nat, m: Miner, c: Command)
    requires i < |s.miners|
    requires c.RecordAggregator? ==> c.block < |s.writers|
    requires c.SubmitNonces? ==> m.writer.Some? && m.writer.value < |s.writers|
    ensures SumOf(Execute(s, i, m, c).writers, WriterWork) <= SumOf(s.writers, WriterWork) + 1
  {
    hide SumOf;
    var t := Execute(s, i, m, c);
    match c
    case RecordAggregator(b) => SumUpdate(s.writers, WriterWork, b, t.writers[b]);
    case SubmitNonces => SumUpdate(s.writers, WriterWork, m.writer.value, t.writers[m.writer.value]);
    case _ =>
  }

  lemma HandleDecreases(w: World, s: State, i: nat)
    requires Enabled(w, s, Handle(i))
    ensures Measure(Next(w, s, Handle(i))) < Measure(s)
  {
    hide SumOf, Execute;
    var m, t := s.miners[i], Next(w, s, Handle(i));
    var m1 := m.(pending := m.pending[1..]);
    ExecuteFrame(s, i, m1, m.pending[0]);
    ExecuteWork(s, i, m1, m.pending[0]);
    assert t.miners == s.miners[i := t.miners[i]];
    SumUpdate(s.miners, MinerWork, i, t.miners[i]);
  }

  /** Each step towards the end of a hand-over leaves less to do. */
  lemma ProgressDecreases(w: World, s: State, step: Step)
    requires Inv(w, s) && Enabled(w, s, step) && Progress(step)
    ensures Measure(Next(w, s, step)) < Measure(s)
  {
    hide Inv, Enabled, Next, Measure;
    match step
    case Send => SendDecreases(w, s);
    case Sent => SentDecreases(w, s);
    case ReceiveStats => ReceiveDecreases(w, s);
    case Take(i) => TakeDecreases(w, s, i);
    case Handle(i) => HandleDecreases(w, s, i);
    case Collect(b) => CollectDecreases(w, s, b);
  }

  /** Trying a nonce does not delay anything. */
  lemma HashNeutral(w: World, s: State, i: nat)
    requires Enabled(w, s, Hash(i))
    ensures Measure(Next(w, s, Hash(i))) == Measure(s)
  {
    hide SumOf, NonceAt;
    SumUpdate(s.miners, MinerWork, i, Next(w, s, Hash(i)).miners[i]);
  }

  // ---------- all runs ----------

  /** The steps that hand something over, minute events and tried nonces aside. */
  function ProgressSteps(steps: seq<Step>): nat {
    if steps == [] then 0 else (if Progress(steps[0]) then 1 else 0) + ProgressSteps(steps[1..])
  }

  /** Between two minute events no more is handed over than the measure says, in whatever order. */
  lemma {:induction false} HandOverBounded(w: World, s: State, steps: seq<Step>)
    requires Inv(w, s) && Play(w, s, steps).Some?
    requires forall a | 0 <= a < |steps| :: !steps[a].Minute1? && !steps[a].Minute9?
    ensures ProgressSteps(steps) + Measure(Play(w, s, steps).value) <= Measure(s)
    decreases |steps|
  {
    hide Inv, Enabled, Next, Measure;
    if steps != [] {
      var t := Next(w, s, steps[0]);
      StepInv(w, s, steps[0]);
      HandOverBounded(w, t, steps[1..]);
      if Progress(steps[0]) {
        ProgressDecreases(w, s, steps[0]);
      } else if steps[0].Hash? {
        HashNeutral(w, s, steps[0].miner);
      } else {
        SkipNeutral(w, s, steps[0]);
      }
    }
  }

  lemma SkipNeutral(w: World, s: State, step: Step)
    requires Enabled(w, s, step) && (step.Minute1Skipped? || step.Minute9Skipped?)
    ensures Next(w, s, step) == s
  {
  }

  /** The steps only hand over, are no more than the measure says, and leave the coordinator waiting. */
  ghost predicate BringsToRest(w: World, s: State, more: seq<Step>) {
    && (forall a | 0 <= a < |more| :: Progress(more[a]))
    && |more| <= Measure(s)
    && Play(w, s, more).Some? && Play(w, s, more).value.pc == Waiting
  }

  /** Where the protocol never gets stuck, a hand-over can always be brought to its end. */
  lemma HandOverEnds(w: World, start: State, steps: seq<Step>, s: State)
    requires Reached(w, start, steps, s) && w.n >= 1 && w.keep >= 1 && w.keep + 1 >= w.n
    ensures exists more :: BringsToRest(w, s, more)
  {
    var more := LeadToRest(w, start, steps, s);
  }

  lemma {:induction false} LeadToRest(w: World, start: State, steps: seq<Step>, s: State) returns (more: seq<Step>)
    requires Reached(w, start, steps, s) && w.n >= 1 && w.keep >= 1 && w.keep + 1 >= w.n
    ensures BringsToRest(w, s, more)
    decreases Measure(s)
  {
    hide Enabled, Next, Measure, Init;
    if s.pc == Waiting {
      more := [];
    } else {
      NeverStuck(w, start, steps, s);
      var step :| Progress(step) && Enabled(w, s, step);
      var t := Next(w, s, step);
      ReachedInv(w, start, steps, s);
      ProgressDecreases(w, s, step);
      PlayOne(w, s, step);
      PlayBoth(w, start, steps, [step]);
      var rest := LeadToRest(w, start, steps + [step], t);
      more := [step] + rest;
      PlayBoth(w, s, [step], rest);
    }
  }
}
