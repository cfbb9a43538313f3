/** Which records are graded at all: what the filters and the cutoff keep, said of the records themselves. */
module Selection {
  import opened Common
  import opened StableSort
  import opened Grading
  import opened Staking

  // ---------- duplicates ----------

  lemma {:induction false} DistinctOneMore(s: seq<Opr>, o: Opr, seen: set<seq<byte>>)
    ensures Distinct(s + [o], seen) == Distinct(s, seen) +
      if o.nonce + o.oprHash in seen || exists x <- s :: x.nonce + x.oprHash == o.nonce + o.oprHash then [] else [o]
  {
    if s == [] {
      assert [] + [o] == [o] && [o][1..] == [];
    } else {
      assert (s + [o])[1..] == s[1..] + [o] && s == [s[0]] + s[1..];
      DistinctOneMore(s[1..], o, if Id(s[0]) in seen then seen else seen + {Id(s[0])});
    }
  }

  /** Records come in one by one: another is kept, behind the others, unless one came before with its nonce and OPR hash. */
  lemma RecordKept(s: seq<Opr>, o: Opr)
    ensures Distinct([], {}) == []
    ensures Distinct(s + [o], {}) == Distinct(s, {}) +
      if exists x <- s :: x.nonce + x.oprHash == o.nonce + o.oprHash then [] else [o]
  {
    DistinctOneMore(s, o, {});
  }

  lemma {:induction false} AddressOneMore(s: seq<Opr>, o: Opr, seen: set<seq<byte>>)
    ensures DistinctAddresses(s + [o], seen) == DistinctAddresses(s, seen) +
      if o.address in seen || exists x <- s :: x.address == o.address then [] else [o]
  {
    if s == [] {
      assert [] + [o] == [o] && [o][1..] == [];
    } else {
      assert (s + [o])[1..] == s[1..] + [o] && s == [s[0]] + s[1..];
      AddressOneMore(s[1..], o, if s[0].address in seen then seen else seen + {s[0].address});
    }
  }

  /** A staking record is kept unless one came before with its address. */
  lemma StakeKept(s: seq<Opr>, o: Opr)
    ensures DistinctAddresses([], {}) == []
    ensures DistinctAddresses(s + [o], {}) == DistinctAddresses(s, {}) +
      if exists x <- s :: x.address == o.address then [] else [o]
  {
    AddressOneMore(s, o, {});
  }

  // ---------- the cutoff ----------

  /**
    What is graded: of the records that give their true difficulty the `limit` most difficult, or all if
    there are fewer, the most difficult first.
   */
  lemma CutoffKeeps(pow: Pow, d: seq<Opr>, limit: int)
    requires limit >= 1
    ensures var r := TopHonest(pow, d, limit);
      && |r| <= limit
      && (forall o <- r :: o in d && pow(o.oprHash + o.nonce) == o.selfReportedDifficulty)
      && (forall i, j | 0 <= i < j < |r| :: r[i].selfReportedDifficulty >= r[j].selfReportedDifficulty)
      && forall o <- d | pow(o.oprHash + o.nonce) == o.selfReportedDifficulty && o !in r ::
        |r| == limit && forall x <- r :: x.selfReportedDifficulty >= o.selfReportedDifficulty
  {
    hide TopHonest, Sort, HonestOnes, Prefix;
    TopHonestIs(pow, d, limit);
    var honest := HonestOnes(pow, d);
    var all, r := Sort(honest, ByDifficulty), TopHonest(pow, d, limit);
    SortContents(honest, ByDifficulty);
    SortSorted(honest, ByDifficulty);
    PrefixIs(all, limit);
    forall o
      ensures o in all <==> o in d && pow(o.oprHash + o.nonce) == o.selfReportedDifficulty
    {
      assert o in all <==> o in multiset(all);
      assert o in honest <==> o in multiset(honest);
      HonestOne(pow, d, o);
    }
    forall i, j | 0 <= i < j < |all|
      ensures all[i].selfReportedDifficulty >= all[j].selfReportedDifficulty
    {
      assert ByDifficulty(all[i]) <= ByDifficulty(all[j]);
    }
  }

  lemma HonestOne(pow: Pow, d: seq<Opr>, o: Opr)
    ensures o in HonestOnes(pow, d) <==> o in d && Honest(pow, o)
  {
    FilterMember(d, x => Honest(pow, x), o);
  }

  lemma PrefixIs(s: seq<Opr>, n: nat)
    ensures var r := Prefix(s, n);
      && |r| <= |s| && |r| <= n && r == s[..|r|] && (|r| == n || r == s)
  {
  }
}
