/**
  Nonces start with one byte of the miner's number, so miners 0 and 256 try the same ones. Exactly when
  that can put one nonce into a block twice.
 */
module SharedNonces {
  import opened Common
  import opened Sequences
  import opened StableSort
  import opened Grading
  import opened Aggregator
  import opened Nonce
  import opened MiningProtocol
  import opened MiningSafety
  import opened MiningTheorems
  import opened MiningCollection
  import opened MiningDeadlock

  // ---------- the run ----------

  /** Hashes that favour the first nonce of the miners whose number ends with a zero byte. */
  function Favour(hash: seq<byte>, nonce: seq<byte>): uint64 {
    if nonce == NonceAt(0, 1) then 2 else 1
  }

  function Favoured(): UniqueOPRData {
    UniqueOPRData(NonceAt(0, 1), 2)
  }

  /** A miner that has started tries one nonce. */
  lemma TryOne(w: World, s: State, i: nat) returns (t: State)
    requires Reachable(w, s) && i < w.n == |s.miners| && s.miners[i].taken == 1 && s.miners[i].pending == []
    ensures Reachable(w, t) && Apart(s, t, i)
    ensures t.miners[i].taken == 1 && t.miners[i].pending == [] && t.miners[i].count >= 1
  {
    hide Reachable, Inv, NonceAt;
    ReachableInv(w, s);
    CanHash(w, s, i);
    t := Next(w, s, Hash(i));
    ReachNext(w, s, Hash(i));
  }

  lemma CanHash(w: World, s: State, i: nat)
    requires Inv(w, s) && i < |s.miners| && s.miners[i].taken == 1 && s.miners[i].pending == []
    ensures Enabled(w, s, Hash(i))
  {
    hide WriterOk, Offers;
    assert MinerOk(w, s, i);
  }

  /** Only miners 0 and 256 work on block 0, and each has tried a nonce. */
  ghost predicate TwoBusy(w: World, s: State) {
    && Reachable(w, s) && |s.miners| == w.n >= 257 && |s.issued| >= 1 && s.issued[0] == Start(0, [], 0)
    && |s.writers| == 1 && !s.writers[0].done
    && (forall j | 0 <= j < w.n && j != 0 && j != 256 :: NotBegun(s.miners[j]))
    && s.miners[0].count >= 1 && s.miners[256].count >= 1
  }

  lemma TwoBegun(w: World) returns (s: State)
    requires w.n >= 257
    ensures TwoBusy(w, s) && |s.issued| == 1 && s.pc == Waiting && s.mining
    ensures s.writers[0].sent == [] && s.writers[0].received == 0
    ensures forall i | i in {0, 256} :: s.miners[i].taken == 1 && s.miners[i].pending == []
  {
    hide Reachable;
    var s0 := OneBegun(w);
    var s1 := TryOne(w, s0, 0);
    var s2 := Begin(w, s1, 256);
    s := TryOne(w, s2, 256);
  }

  /** Both have sent, one after the other, and the collector has taken what they sent. */
  lemma TwoSent(w: World) returns (s: State, r: nat, r': nat, c: nat, c': nat)
    requires w.n >= 257 && w.keep >= 1
    ensures Reachable(w, s) && |s.issued| >= 1 && s.issued[0] == Start(0, [], 0) && |s.writers| == 1
    ensures s.writers[0].sent == [Submission(0, r, c), Submission(256, r', c')] && c >= 1 && c' >= 1
    ensures s.writers[0].received == 2 && s.writers[0].done
  {
    hide Reachable, Inv, Registrations;
    var s0 := TwoBegun(w);
    var s1 := StopBlock(w, s0);
    var s2 := ComeToSubmission(w, s1, 0);
    var s3 := Submit(w, s2, 0);
    var s4 := ComeToSubmission(w, s3, 256);
    ReachableInv(w, s4);
    TwoRegistered(s4.miners);
    ReachNext(w, s4, Collect(0));
    var s5 := Next(w, s4, Collect(0));
    var s6 := Submit(w, s5, 256);
    ReachableInv(w, s6);
    TwoRegistered(s6.miners);
    ReachNext(w, s6, Collect(0));
    s := Next(w, s6, Collect(0));
    r, c := s.writers[0].sent[0].ranking, s.writers[0].sent[0].count;
    r', c' := s.writers[0].sent[1].ranking, s.writers[0].sent[1].count;
  }

  lemma TwoRegistered(miners: seq<Miner>)
    requires |miners| >= 257 && miners[0].taken == miners[256].taken == 2
    requires forall j | 0 <= j < |miners| && j != 0 && j != 256 :: NotBegun(miners[j])
    ensures Registrations(miners, 0) == 2
  {
    hide Registrations;
    RegistrationsAreSize(miners, 0);
    assert HasRegistered(miners[0], 0) && HasRegistered(miners[256], 0);
    assert RegisteredMiners(miners, 0) == {0, 256};
  }

  // ---------- what is written ----------

  /** What the writer of block b may write after its collector has ended: the `keep` best it has collected. */
  ghost predicate Writable(w: World, s: State, b: nat, written: seq<UniqueOPRData>) {
    && b < |s.writers| && s.writers[b].done && s.writers[b].received <= |s.writers[b].sent|
    && (forall a | 0 <= a < s.writers[b].received :: s.writers[b].sent[a].ranking < |s.heap|)
    && var all := Collected(s, s.writers[b].sent, s.writers[b].received);
      Difficulties(written) == Top(w.keep, Difficulties(all)) && multiset(written) <= multiset(all)
  }

  ghost predicate DistinctNonces(written: seq<UniqueOPRData>) {
    forall p, q | 0 <= p < q < |written| :: written[p].nonce != written[q].nonce
  }

  /** With n miners that keep so many records, no block ever gets one nonce twice. */
  ghost predicate AlwaysDistinct(n: nat, keep: nat) {
    forall w: World, s, b: nat, written | w.n == n && w.keep == keep && Reachable(w, s) && Writable(w, s, b, written) ::
      DistinctNonces(written)
  }

  lemma {:induction false} TwoPlaces<T(!new)>(r: seq<T>, x: T) returns (p: nat, q: nat)
    requires multiset(r)[x] >= 2
    ensures p < q < |r| && r[p] == r[q] == x
  {
    var k := |r| - 1;
    assert r == r[..k] + [r[k]];
    if r[k] == x {
      assert x in multiset(r[..k]);
      p :| 0 <= p < k && r[..k][p] == x;
      q := k;
    } else {
      p, q := TwoPlaces(r[..k], x);
    }
  }

  /** Two that nothing exceeds are the first two of the largest. */
  lemma TopTwo(keep: nat, ds: seq<uint64>, d: uint64)
    requires keep >= 2 && multiset(ds)[d] >= 2 && forall e <- ds :: e <= d
    ensures |Top(keep, ds)| >= 2 && Top(keep, ds)[0] == Top(keep, ds)[1] == d
  {
    var sorted := Sort(ds, Negated);
    SortContents(ds, Negated);
    SortSorted(ds, Negated);
    var p, q := TwoPlaces(sorted, d);
    forall i | 0 <= i < 2
      ensures sorted[i] == d
    {
      SortMember(ds, Negated, sorted[i]);
      assert Negated(sorted[i]) <= Negated(sorted[q]);
    }
  }

  /** Some list of the keep best can be written. */
  lemma BestOf(keep: nat, all: seq<UniqueOPRData>) returns (best: seq<UniqueOPRData>)
    ensures Difficulties(best) == Top(keep, Difficulties(all)) && multiset(best) <= multiset(all)
  {
    var key := (u: UniqueOPRData) => Negated(u.difficulty);
    var sorted := Sort(all, key);
    SortContents(all, key);
    MapSort(all, key, Difficulty, Negated);
    best := Prefix(sorted, keep);
    assert sorted == best + sorted[|best|..];
    assert Map(sorted, Difficulty)[..|best|] == Map(best, Difficulty);
  }

  /** Miner i tries the favoured nonce first, if its number ends with a zero byte. */
  lemma TriesFavoured(w: World, i: nat, c: nat)
    requires w.pow == Favour && i % 256 == 0 && c >= 1
    ensures Favoured() in Offers(w, i, [], 0, c)
  {
    hide NonceAt, Offers;
    OffersTried(w, i, [], 0, c);
    assert Favoured() == UniqueOPRData(NonceAt(i % 256, 1), w.pow([], NonceAt(i % 256, 1)));
    assert Tried(w, i, [], 0, c, Favoured());
  }

  lemma FavouredAlone(w: World, u: UniqueOPRData)
    requires w.pow == Favour && Genuine(w, [], 0, u)
    ensures u.difficulty <= 2 && (u.difficulty == 2 ==> u == Favoured())
  {
    hide NonceAt;
  }

  lemma CollectedGenuine(w: World, s: State, b: nat, k: nat, u: UniqueOPRData)
    requires Inv(w, s) && b < |s.writers| && k <= |s.writers[b].sent|
    ensures 2 * b < |s.issued| && s.issued[2 * b].Start?
    ensures forall a | 0 <= a < k :: s.writers[b].sent[a].ranking < |s.heap|
    ensures u in Collected(s, s.writers[b].sent, k) ==> Genuine(w, s.issued[2 * b].oprHash, s.issued[2 * b].minimum, u)
  {
    hide Inv, Tried, Genuine, Collected;
    CollectedTried(w, s, b, k, u);
    var sent := s.writers[b].sent;
    if u in Collected(s, sent, k) {
      var a :| 0 <= a < k && Tried(w, sent[a].miner, s.issued[2 * b].oprHash, s.issued[2 * b].minimum, sent[a].count, u);
      TriedGenuine(w, sent[a].miner, s.issued[2 * b].oprHash, s.issued[2 * b].minimum, sent[a].count, u);
    }
  }

  lemma SubmissionFavours(w: World, s: State, a: nat)
    requires Inv(w, s) && w.pow == Favour && |s.issued| >= 1 && s.issued[0] == Start(0, [], 0) && |s.writers| == 1
    requires a < |s.writers[0].sent| && s.writers[0].sent[a].miner % 256 == 0 && s.writers[0].sent[a].count >= 1
    ensures s.writers[0].sent[a].ranking < |s.heap| && Favoured() in s.heap[s.writers[0].sent[a].ranking].offered
  {
    hide Inv, Offers, Favoured;
    SubmissionRanking(w, s, 0, a);
    TriesFavoured(w, s.writers[0].sent[a].miner, s.writers[0].sent[a].count);
  }

  lemma CollectedTwo(s: State, sent: seq<Submission>)
    requires |sent| == 2 && sent[0].ranking < |s.heap| && sent[1].ranking < |s.heap|
    ensures Collected(s, sent, 2) == s.heap[sent[0].ranking].offered + s.heap[sent[1].ranking].offered
  {
    assert Collected(s, sent, 0) == [];
    assert Collected(s, sent, 1) == s.heap[sent[0].ranking].offered;
  }

  /** What the two have offered holds the favoured nonce twice. */
  lemma FavouredTwice(w: World, s: State, r: nat, r': nat, c: nat, c': nat)
    requires Inv(w, s) && w.pow == Favour && |s.issued| >= 1 && s.issued[0] == Start(0, [], 0) && |s.writers| == 1
    requires s.writers[0].sent == [Submission(0, r, c), Submission(256, r', c')] && c >= 1 && c' >= 1
    ensures r < |s.heap| && r' < |s.heap|
    ensures multiset(Collected(s, s.writers[0].sent, 2))[Favoured()] >= 2
  {
    hide Inv, Collected, Favoured;
    SubmissionFavours(w, s, 0);
    SubmissionFavours(w, s, 1);
    CollectedTwo(s, s.writers[0].sent);
    InBoth(s.heap[r].offered, s.heap[r'].offered, Favoured());
  }

  lemma InBoth<T>(x: seq<T>, y: seq<T>, u: T)
    requires u in x && u in y
    ensures multiset(x + y)[u] >= 2
  {
    assert u in multiset(x) && u in multiset(y);
  }

  lemma DifficultiesTwice(all: seq<UniqueOPRData>, u: UniqueOPRData)
    requires multiset(all)[u] >= 2
    ensures multiset(Difficulties(all))[u.difficulty] >= 2
  {
    var p, q := TwoPlaces(all, u);
    TwiceInMultiset(Difficulties(all), p, q);
  }

  /** With 257 miners and room for two records, one nonce can be written twice. */
  lemma NonceRepeats(w: World)
    requires w.n >= 257 && w.keep >= 2 && w.pow == Favour
    ensures exists s, written :: Reachable(w, s) && Writable(w, s, 0, written) && !DistinctNonces(written)
  {
    hide Reachable, Inv, Top, Difficulties, Collected, NonceAt, Genuine;
    var s, r, r', c, c' := TwoSent(w);
    ReachableInv(w, s);
    FavouredTwice(w, s, r, r', c, c');
    var all := Collected(s, s.writers[0].sent, 2);
    var written := BestOf(w.keep, all);
    DifficultiesTwice(all, Favoured());
    forall u | u in all
      ensures u.difficulty <= 2 && (u.difficulty == 2 ==> u == Favoured())
    {
      CollectedGenuine(w, s, 0, 2, u);
      FavouredAlone(w, u);
    }
    FirstTwo(w.keep, all, written);
    assert Writable(w, s, 0, written);
  }

  lemma FirstTwo(keep: nat, all: seq<UniqueOPRData>, written: seq<UniqueOPRData>)
    requires keep >= 2 && multiset(Difficulties(all))[2] >= 2
    requires forall u <- all :: u.difficulty <= 2 && (u.difficulty == 2 ==> u == Favoured())
    requires Difficulties(written) == Top(keep, Difficulties(all)) && multiset(written) <= multiset(all)
    ensures !DistinctNonces(written)
  {
    hide Top, Favoured;
    forall e | e in Difficulties(all)
      ensures e <= 2
    {
      var i :| 0 <= i < |all| && Difficulties(all)[i] == e;
      assert all[i] in all;
    }
    TopTwo(keep, Difficulties(all), 2);
    assert written[0] in multiset(written) && written[1] in multiset(written);
    assert written[0] in all && written[1] in all;
    assert Difficulties(written)[0] == written[0].difficulty && Difficulties(written)[1] == written[1].difficulty;
    assert written[0] == written[1] == Favoured();
  }

  /** Exactly then: one nonce can get into a block twice if there are more than 256 miners and more than one record. */
  lemma AlwaysDistinctIff(n: nat, keep: nat)
    requires keep >= 1
    ensures AlwaysDistinct(n, keep) <==> n <= 256 || keep == 1
  {
    hide Reachable, Writable, DistinctNonces;
    if n <= 256 || keep == 1 {
      forall w: World, s, b: nat, written | w.n == n && w.keep == keep && Reachable(w, s) && Writable(w, s, b, written)
        ensures DistinctNonces(written)
      {
        if n <= 256 { FewMiners(w, s, b, written); } else { OneRecord(w, s, b, written); }
      }
    } else {
      var w := World(n, keep, Favour);
      NonceRepeats(w);
    }
  }

  lemma FewMiners(w: World, s: State, b: nat, written: seq<UniqueOPRData>)
    requires w.n <= 256 && Reachable(w, s) && Writable(w, s, b, written)
    ensures DistinctNonces(written)
  {
    hide Reached, Collected, Top, Difficulties, Genuine;
    var start, steps :| Reached(w, start, steps, s);
    WrittenRecords(w, start, steps, s, b, written);
  }

  lemma OneRecord(w: World, s: State, b: nat, written: seq<UniqueOPRData>)
    requires w.keep == 1 && Writable(w, s, b, written)
    ensures DistinctNonces(written)
  {
    hide Collected;
    assert |written| == |Difficulties(written)| <= 1;
  }
}
