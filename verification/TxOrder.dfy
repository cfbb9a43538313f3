/** The order of transaction ids, and who gets the dust, said in terms of the hashes and indexes themselves. */
module TxOrder {
  import opened Common
  import opened TxId
  import opened ConversionSupply

  /** The hash with the smaller character where they first differ, and of one hash the smaller index. */
  ghost predicate Lower(i: int, h: string, j: int, k: string) {
    (exists p :: DiffersAt(h, k, p)) || (h == k && i < j)
  }

  ghost predicate DiffersAt(h: string, k: string, p: int) {
    0 <= p < |h| && p < |k| && h[..p] == k[..p] && h[p] < k[p]
  }

  predicate Proper(i: int, h: string) {
    0 <= i < 0x8000_0000 && IsHash(h)
  }

  lemma {:induction false} DifferenceLess(a: string, b: string, p: int)
    requires DiffersAt(a, b, p)
    ensures StringLess(a, b)
    decreases p
  {
    if p > 0 {
      assert a[..p][0] == b[..p][0];
      assert a[1..][..p - 1] == a[..p][1..] && b[1..][..p - 1] == b[..p][1..];
      DifferenceLess(a[1..], b[1..], p - 1);
    }
  }

  lemma {:induction false} LessDifference(a: string, b: string) returns (p: int)
    requires |a| == |b| && StringLess(a, b)
    ensures DiffersAt(a, b, p)
    decreases |a|
  {
    if a[0] < b[0] {
      p := 0;
    } else {
      var q := LessDifference(a[1..], b[1..]);
      p := q + 1;
      assert a[..p] == [a[0]] + a[1..][..q] && b[..p] == [b[0]] + b[1..][..q];
    }
  }

  /** Go's order of strings of one length: the first difference decides. */
  lemma StringLessIs(a: string, b: string)
    requires |a| == |b|
    ensures StringLess(a, b) <==> exists p :: DiffersAt(a, b, p)
  {
    hide DiffersAt;
    if StringLess(a, b) { var p := LessDifference(a, b); }
    if p :| DiffersAt(a, b, p) { DifferenceLess(a, b, p); }
  }

  lemma SameHashNoDifference(h: string)
    ensures !exists p :: DiffersAt(h, h, p)
  {
  }

  lemma BeforeIs(i: int, h: string, j: int, k: string)
    requires Proper(i, h) && Proper(j, k)
    ensures Before(FormatTxID(i, h), FormatTxID(j, k)) <==> Lower(i, h, j, k)
  {
    hide FormatTxID, SortKey, StringLess, DiffersAt;
    FormatInjective(i, h, j, k);
    FormatInjective(j, k, i, h);
    StringLessIs(h, k);
    SameHashNoDifference(h);
  }

  /** Of two ids the sort puts that one in front, whatever order they come in. */
  lemma SortTwo(i: int, h: string, j: int, k: string)
    requires Proper(i, h) && Proper(j, k) && (i, h) != (j, k)
    ensures var a, b := FormatTxID(i, h), FormatTxID(j, k);
      && (SortTxIDS([a, b]) == [a, b] <==> Lower(i, h, j, k))
      && (SortTxIDS([b, a]) == [a, b] <==> Lower(i, h, j, k))
      && (Lower(i, h, j, k) <==> !Lower(j, k, i, h))
  {
    hide FormatTxID, Lower, Before, SortKey, KeyLess;
    var a, b := FormatTxID(i, h), FormatTxID(j, k);
    BeforeIs(i, h, j, k);
    BeforeIs(j, k, i, h);
    FormatInjective(i, h, j, k);
    FormatInjective(j, k, i, h);
    EitherBefore(a, b);
    SortPair(a, b);
    SortPair(b, a);
    assert [a, b][0] != [b, a][0];
  }

  lemma EitherBefore(a: string, b: string)
    requires SortKey(a) != SortKey(b)
    ensures Before(a, b) <==> !Before(b, a)
  {
    hide SortKey, KeyLess;
    KeyOrder(SortKey(a), SortKey(b), SortKey(a));
  }

  lemma SortPair(a: string, b: string)
    ensures SortTxIDS([a, b]) == if Before(b, a) then [b, a] else [a, b]
  {
    hide Before;
    assert [a, b][1..] == [b] && [b][1..] == [];
    assert SortTxIDS([b]) == [b];
    assert InsertTxID(a, []) == [a];
  }

  /** In a sorted list no id stands behind one that it is lower than. */
  lemma SortedByHash(s: seq<string>, a: nat, b: nat, i: int, h: string, j: int, k: string)
    requires a < b < |s| && Proper(i, h) && Proper(j, k)
    requires SortTxIDS(s)[a] == FormatTxID(i, h) && SortTxIDS(s)[b] == FormatTxID(j, k)
    ensures !Lower(j, k, i, h)
  {
    hide FormatTxID, Lower, Before, SortKey, KeyLess;
    SortIsStable(s, TxKey(0, ""));
    BeforeIs(j, k, i, h);
  }

  // ---------- the dust ----------

  /** Nobody asks for more, and everybody else who asks for as much has a higher hash, or a higher index of that hash. */
  ghost predicate LowestOfHighest(reqs: Requests, i: int, h: string) {
    && FormatTxID(i, h) in reqs
    && (forall t | t in reqs :: reqs[t] <= reqs[FormatTxID(i, h)])
    && (forall j, k | Proper(j, k) && (j, k) != (i, h) && FormatTxID(j, k) in reqs
        && reqs[FormatTxID(j, k)] == reqs[FormatTxID(i, h)] :: Lower(i, h, j, k))
  }

  /** Those who ask for the most have txids as FormatTxID makes them. */
  ghost predicate TopCanonical(reqs: Requests) {
    forall t | t in reqs && forall u | u in reqs :: reqs[u] <= reqs[t] :: Canonical(t)
  }

  /** The txid is one that FormatTxID makes. */
  lemma CanonicalIs(t: string)
    requires Canonical(t)
    ensures var key := SortKey(t); Proper(key.index, key.hash) && FormatTxID(key.index, key.hash) == t
  {
    hide FormatTxID, Split;
    FormatSplit(t);
  }

  lemma FirstIsLowest(reqs: Requests, i: int, h: string)
    requires TopCanonical(reqs) && Proper(i, h) && FormatTxID(i, h) in reqs
    ensures First(reqs, FormatTxID(i, h)) <==> LowestOfHighest(reqs, i, h)
  {
    hide FormatTxID, Canonical, Before, SortKey, KeyLess, Lower;
    var w := FormatTxID(i, h);
    if First(reqs, w) {
      forall j, k | Proper(j, k) && (j, k) != (i, h) && FormatTxID(j, k) in reqs && reqs[FormatTxID(j, k)] == reqs[w]
        ensures Lower(i, h, j, k)
      {
        BeforeIs(j, k, i, h);
        SortTwo(i, h, j, k);
      }
    }
    if LowestOfHighest(reqs, i, h) {
      forall t | t in reqs && reqs[t] == reqs[w]
        ensures !Before(t, w)
      {
        CanonicalIs(t);
        var j, k := SortKey(t).index, SortKey(t).hash;
        if (j, k) != (i, h) {
          SortTwo(i, h, j, k);
          BeforeIs(j, k, i, h);
        } else {
          NotBoth(t, w);
        }
      }
    }
  }

  /** Then only one request can be first. */
  lemma FirstOnce(reqs: Requests, a: string, b: string)
    requires TopCanonical(reqs) && First(reqs, a) && First(reqs, b)
    ensures a == b
  {
    hide FormatTxID, Canonical, SortKey, KeyLess;
    FirstKnown(reqs, a);
    FirstKnown(reqs, b);
    CanonicalIs(a);
    CanonicalIs(b);
    KeyOrder(SortKey(a), SortKey(b), SortKey(a));
    assert !Before(a, b) && !Before(b, a);
  }

  lemma FirstKnown(reqs: Requests, a: string)
    requires First(reqs, a)
    ensures a in reqs && forall u | u in reqs :: reqs[u] <= reqs[a]
  {
  }

  /**
    When the bank is cut, every request gets its floor proportion, and the lowest hash among those who
    ask for the most gets what is left on top; the lowest index, if it is there more than once.
   */
  lemma DustToLowest(reqs: Requests, bank: uint64, order: seq<string>, i: int, h: string)
    requires Enumerates(order, reqs) && Total(reqs) >= bank && TopCanonical(reqs)
    requires Proper(i, h) && FormatTxID(i, h) in reqs
    ensures var t := FormatTxID(i, h);
      PayoutsIn(reqs, bank, order)[t] == reqs[t] * bank / Denominator(reqs)
        + (if LowestOfHighest(reqs, i, h) then bank - Sum(reqs.Keys, Shares(reqs, bank)) else 0)
    ensures forall u | u in reqs :: Shares(reqs, bank)[u] == reqs[u] * bank / Denominator(reqs)
  {
    hide FormatTxID, Canonical, First, Winner, LowestOfHighest, PayoutsIn, Shares, Sum;
    var t := FormatTxID(i, h);
    assert t in order;
    BankGoesOut(reqs, bank, order);
    FirstIsLowest(reqs, i, h);
    if First(reqs, t) { FirstOnce(reqs, t, Winner(order, reqs)); }
    forall u | u in reqs
      ensures Shares(reqs, bank)[u] == reqs[u] * bank / Denominator(reqs)
    {
      ExactShare(reqs, bank, u);
    }
  }
}
