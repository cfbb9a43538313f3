/**
  The mining protocol (mining/coordinator.go, miner.go, entryWriter.go) as a state machine: one
  coordinator, the miners with their command queues, and the writer of each block. Every step is
  one action of one goroutine; any interleaving is allowed.
 */
module MiningProtocol {
  import opened Common
  import opened Aggregator
  import opened Nonce

  /** LXRHash: the difficulty of a nonce for an OPR hash. */
  type Pow = (seq<byte>, seq<byte>) -> uint64

  /** The two batches the coordinator sends, with the number of the block they belong to. */
  datatype Batch =
    | Start(block: nat, oprHash: seq<byte>, minimum: uint64)
    | Stop(block: nat)

  datatype Command =
    | RecordAggregator(block: nat)
    | StatsAggregator(block: nat)
    | ResetRecords
    | NewOPRHash(oprHash: seq<byte>)
    | MinimumAccept(minimum: uint64)
    | RecordsToKeep(keep: nat)                              // understood by a miner, in no batch
    | ResumeMining
    | SubmitNonces
    | PauseMining

  function Commands(b: Batch): (r: seq<Command>)
    ensures |r| == if b.Start? then 6 else 2
  {
    match b
    case Start(w, hash, min) =>
      [RecordAggregator(w), StatsAggregator(w), ResetRecords, NewOPRHash(hash), MinimumAccept(min), ResumeMining]
    case Stop(_) => [SubmitNonces, PauseMining]
  }

  /** The one submission, of a stop batch, and the one reset, of a start batch. */
  lemma OnlyStopSubmits(b: Batch, p: nat)
    requires p < |Commands(b)|
    ensures Commands(b)[p].SubmitNonces? <==> b.Stop? && p == 0
    ensures Commands(b)[p].ResetRecords? <==> b.Start? && p == 2
    ensures !Commands(b)[p].RecordsToKeep?
  {
  }

  /**
    A miner. `pending` is what is left of the batch it is handling, `ranking` a reference into the
    heap, `count` the state of its nonce counter, `keep` the size of the next ranking it makes; a nil
    stats object or channel is None or false.
   */
  datatype Miner = Miner(
    queue: seq<Batch>, taken: nat, pending: seq<Command>, paused: bool,
    oprHash: seq<byte>, minimum: uint64, count: nat, ranking: nat,
    stats: bool, writer: Option<nat>, statsChannel: Option<nat>, keep: nat)

  /** A ranking object, seen as the nonces offered to it; `owner` is the miner that made it. */
  datatype Ranking = Ranking(owner: nat, offered: seq<UniqueOPRData>)

  /**
    A ranking sent to a writer, together with the miner's statistics for the block: who sent which
    object, after how many nonces.
   */
  datatype Submission = Submission(miner: nat, ranking: nat, count: nat)

  /** The writer of a block: registered miners, everything ever sent to it, how much it has received. */
  datatype Writer = Writer(registered: nat, sent: seq<Submission>, collecting: bool, received: nat, done: bool)

  datatype Pc =
    | Waiting                               // for the next minute event
    | Sending(next: nat)                    // the last issued batch goes to miner `next`
    | AwaitStats(got: nat)                  // of the block just stopped

  datatype State = State(
    mining: bool, pc: Pc, issued: seq<Batch>,
    miners: seq<Miner>, heap: seq<Ranking>, writers: seq<Writer>)

  /** Fixed for a run: the number of miners, how many nonces each keeps, and the hash. */
  datatype World = World(n: nat, keep: nat, pow: Pow)

  const QUEUE_CAPACITY: nat := 10

  // ---------- steps ----------

  /** Miners start with an empty ranking of their own and wait for a first command. */
  predicate Init(w: World, s: State) {
    && !s.mining && s.pc == Waiting && s.issued == [] && s.writers == []
    && |s.miners| == w.n && |s.heap| == w.n
    && (forall i | 0 <= i < w.n ::
      && s.miners[i] == Miner([], 0, [], false, [], 0, 0, i, false, None, None, w.keep)
      && s.heap[i] == Ranking(i, []))
  }

  datatype Step =
    | Minute1Skipped                                        // no balance, no OPR, or already mining
    | Minute1(oprHash: seq<byte>, minimum: uint64)          // an OPR was made
    | Minute9Skipped
    | Minute9
    | Send
    | Sent
    | ReceiveStats
    | Take(miner: nat)                                      // a miner takes a batch off its queue
    | Handle(miner: nat)                                    // and executes the next command of it
    | Hash(miner: nat)                                      // or tries a nonce
    | Collect(block: nat)

  /** The block number of the last issued batch. */
  function Current(s: State): nat {
    if s.writers == [] then 0 else |s.writers| - 1
  }

  function NewWriter(): Writer {
    Writer(0, [], false, 0, false)
  }

  predicate Enabled(w: World, s: State, step: Step) {
    match step
    case Minute1Skipped => s.pc == Waiting
    case Minute1(_, _) => s.pc == Waiting && !s.mining
    case Minute9Skipped => s.pc == Waiting && !s.mining
    case Minute9 => s.pc == Waiting && s.mining
    case Send => s.pc.Sending? && s.pc.next < |s.miners| && s.issued != [] && |s.miners[s.pc.next].queue| < QUEUE_CAPACITY
    case Sent => s.pc.Sending? && s.pc.next >= |s.miners| && s.issued != [] && s.writers != []
    case ReceiveStats => s.pc.AwaitStats? && s.writers != [] && s.pc.got < |s.writers[Current(s)].sent|
    case Take(i) => i < |s.miners| && s.miners[i].pending == [] && s.miners[i].queue != []
    case Handle(i) => i < |s.miners| && s.miners[i].pending != [] && CanHandle(w, s, s.miners[i], s.miners[i].pending[0])
    case Hash(i) => i < |s.miners| && s.miners[i].taken > 0 && s.miners[i].pending == [] && !s.miners[i].paused
      && s.miners[i].ranking < |s.heap|
    case Collect(b) =>
      b < |s.writers| && s.writers[b].collecting && !s.writers[b].done && s.writers[b].received < |s.writers[b].sent|
  }

  /** A send on a full or nil channel blocks; an unknown writer cannot be registered with. */
  predicate CanHandle(w: World, s: State, m: Miner, c: Command) {
    match c
    case RecordAggregator(b) => b < |s.writers|
    case SubmitNonces =>
      m.writer.Some? && m.writer.value < |s.writers|
      && |s.writers[m.writer.value].sent| < s.writers[m.writer.value].received + w.keep
    case _ => true
  }

  function Next(w: World, s: State, step: Step): State
    requires Enabled(w, s, step)
  {
    match step
    case Minute1Skipped => s
    case Minute1(hash, min) =>
      s.(mining := true, pc := Sending(0), issued := s.issued + [Start(|s.writers|, hash, min)],
         writers := s.writers + [NewWriter()])
    case Minute9Skipped => s
    case Minute9 => s.(mining := false, pc := Sending(0), issued := s.issued + [Stop(Current(s))])
    case Send =>
      var i := s.pc.next;
      var m := s.miners[i];
      s.(pc := Sending(i + 1), miners := s.miners[i := m.(queue := m.queue + [s.issued[|s.issued| - 1]])])
    case Sent =>
      if s.issued[|s.issued| - 1].Start? then s.(pc := Waiting)
      else s.(pc := AwaitStats(0), writers := s.writers[Current(s) := s.writers[Current(s)].(collecting := true)])
    case ReceiveStats =>
      s.(pc := if s.pc.got + 1 == |s.miners| then Waiting else AwaitStats(s.pc.got + 1))
    case Take(i) =>
      var m := s.miners[i];
      s.(miners := s.miners[i := m.(queue := m.queue[1..], taken := m.taken + 1, pending := Commands(m.queue[0]))])
    case Handle(i) =>
      var m := s.miners[i];
      Execute(s, i, m.(pending := m.pending[1..]), m.pending[0])
    case Hash(i) =>
      var m := s.miners[i];
      var nonce := NonceAt(i % 256, m.count + 1);
      var diff := w.pow(m.oprHash, nonce);
      var r := s.heap[m.ranking];
      s.(miners := s.miners[i := m.(count := m.count + 1)],
         heap := if diff > m.minimum
           then s.heap[m.ranking := r.(offered := r.offered + [UniqueOPRData(nonce, diff)])] else s.heap)
    case Collect(b) =>
      var x := s.writers[b];
      s.(writers := s.writers[b := x.(received := x.received + 1, done := x.received + 1 == x.registered)])
  }

  /** What a command does to the fields of the miner; a new ranking gets the reference `next`. */
  function Obey(m: Miner, c: Command, next: nat): Miner {
    match c
    case RecordAggregator(b) => m.(writer := Some(b))
    case StatsAggregator(b) => m.(statsChannel := Some(b))
    case ResetRecords => m.(count := 0, ranking := next, stats := true)
    case NewOPRHash(hash) => m.(oprHash := hash)
    case MinimumAccept(min) => m.(minimum := min)
    case RecordsToKeep(keep) => m.(keep := keep)
    case ResumeMining => m.(paused := false)
    case SubmitNonces => m
    case PauseMining => m.(paused := true)
  }

  function Execute(s: State, i: nat, m: Miner, c: Command): State
    requires i < |s.miners|
    requires c.RecordAggregator? ==> c.block < |s.writers|
    requires c.SubmitNonces? ==> m.writer.Some? && m.writer.value < |s.writers|
  {
    var t := s.(miners := s.miners[i := Obey(m, c, |s.heap|)]);
    match c
    case RecordAggregator(b) =>
      var x := s.writers[b];
      t.(writers := s.writers[b := x.(registered := x.registered + 1)])
    case ResetRecords => t.(heap := s.heap + [Ranking(i, [])])
    case SubmitNonces =>
      var b := m.writer.value;
      var x := s.writers[b];
      t.(writers := s.writers[b := x.(sent := x.sent + [Submission(i, m.ranking, m.count)])])
    case _ => t
  }

  /** A run: the steps one after the other, None if one of them cannot be taken. */
  function Play(w: World, s: State, steps: seq<Step>): Option<State>
    decreases |steps|
  {
    if steps == [] then Some(s)
    else if !Enabled(w, s, steps[0]) then None
    else Play(w, Next(w, s, steps[0]), steps[1..])
  }
}
