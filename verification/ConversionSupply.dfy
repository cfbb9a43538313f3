/** Sharing a limited PEG supply among conversion requests (modules/conversions/conversionlimit.go). */
module ConversionSupply {
  import opened Common
  import opened Conversions
  import opened Division
  import opened Radix
  import opened TxId

  type Requests = map<string, uint64>

  // ---------- sums over maps ----------

  ghost function Sum(ks: set<string>, m: Requests): nat
    requires ks <= m.Keys
  {
    if ks == {} then 0 else
      var k :| k in ks;
      m[k] + Sum(ks - {k}, m)
  }

  /** The order of summation does not matter. */
  lemma {:induction false} SumTake(ks: set<string>, m: Requests, k: string)
    requires ks <= m.Keys && k in ks
    ensures Sum(ks, m) == m[k] + Sum(ks - {k}, m)
    decreases ks
  {
    var j :| j in ks && Sum(ks, m) == m[j] + Sum(ks - {j}, m);
    if j != k {
      SumTake(ks - {j}, m, k);
      SumTake(ks - {k}, m, j);
      assert ks - {j} - {k} == ks - {k} - {j};
    }
  }

  lemma SumAdd(ks: set<string>, m: Requests, k: string)
    requires ks <= m.Keys && k in m && k !in ks
    ensures Sum(ks + {k}, m) == Sum(ks, m) + m[k]
  {
    SumTake(ks + {k}, m, k);
    assert ks + {k} - {k} == ks;
  }

  lemma {:induction false} SumSame(ks: set<string>, m: Requests, m': Requests)
    requires ks <= m.Keys && ks <= m'.Keys && forall k | k in ks :: m[k] == m'[k]
    ensures Sum(ks, m) == Sum(ks, m')
    decreases ks
  {
    if ks != {} {
      var k :| k in ks;
      SumTake(ks, m, k);
      SumTake(ks, m', k);
      SumSame(ks - {k}, m, m');
    }
  }

  lemma {:induction false} SumPart(ks: set<string>, all: set<string>, m: Requests)
    requires ks <= all <= m.Keys
    ensures Sum(ks, m) <= Sum(all, m)
    decreases all
  {
    if ks != all {
      var k :| k in all && k !in ks;
      SumTake(all, m, k);
      SumPart(ks, all - {k}, m);
    }
  }

  ghost function Total(m: Requests): nat {
    Sum(m.Keys, m)
  }

  // ---------- the floor shares ----------

  /** p(c) of a request c; Uint64 keeps the low 64 bits. */
  function PayoutBig(requested: uint64, bank: uint64, totalRequested: nat): uint64 {
    if requested == 0 || bank == 0 || totalRequested == 0 then 0
    else
      Product(requested, bank);
      requested * bank / totalRequested % TWO64
  }

  /** A request that is part of the total gets its exact floor proportion: no truncation. */
  lemma ShareIs(c: uint64, bank: uint64, total: nat)
    requires c <= total && total > 0
    ensures Gives(c, bank, total, PayoutBig(c, bank, total))
    ensures PayoutBig(c, bank, total) == c * bank / total <= bank
  {
    Product(c, bank);
    var n := c * bank;
    Quotient(n, total, n / total);
    Times(c, total, bank);
    assert n < (bank + 1) * total;
    Cancel(n / total, bank, total);
    if c == 0 || bank == 0 { Quotient(n, total, 0); }
  }

  ghost function Shares(reqs: Requests, bank: uint64): (p: Requests)
    ensures p.Keys == reqs.Keys
  {
    map k | k in reqs :: PayoutBig(reqs[k], bank, Total(reqs))
  }

  lemma RequestPart(reqs: Requests, k: string)
    requires k in reqs
    ensures reqs[k] <= Total(reqs)
  {
    SumTake(reqs.Keys, reqs, k);
  }

  /** s shares of n requests that ask for r in all: between the proportion and n units below it. */
  ghost predicate Sandwiched(s: nat, n: nat, r: nat, bank: nat, total: nat) {
    s * total <= r * bank && (if n == 0 then r == 0 else r * bank < (s + n) * total)
  }

  lemma SandwichedMore(s: nat, n: nat, r: nat, bank: nat, total: nat, c: nat, v: nat)
    requires Sandwiched(s, n, r, bank, total) && Gives(c, bank, total, v)
    ensures Sandwiched(s + v, n + 1, r + c, bank, total)
  {
    assert (s + v) * total == s * total + v * total && (r + c) * bank == r * bank + c * bank;
    assert (s + v + (n + 1)) * total == (s + n) * total + (v + 1) * total;
    if n == 0 { assert r * bank == 0; Product(s, total); }
  }

  lemma {:induction false} SharesSandwiched(reqs: Requests, bank: uint64, ks: set<string>)
    requires ks <= reqs.Keys && Total(reqs) > 0
    ensures Sandwiched(Sum(ks, Shares(reqs, bank)), |ks|, Sum(ks, reqs), bank, Total(reqs))
    decreases ks
  {
    hide Sandwiched, Gives, PayoutBig;
    if k :| k in ks {
      SharesSandwiched(reqs, bank, ks - {k});
      SumTake(ks, reqs, k);
      SumTake(ks, Shares(reqs, bank), k);
      RequestPart(reqs, k);
      ShareIs(reqs[k], bank, Total(reqs));
      SandwichedMore(Sum(ks - {k}, Shares(reqs, bank)), |ks - {k}|, Sum(ks - {k}, reqs), bank, Total(reqs),
        reqs[k], PayoutBig(reqs[k], bank, Total(reqs)));
    } else {
      NothingSandwiched(bank, Total(reqs));
    }
  }

  lemma NothingSandwiched(bank: nat, total: nat)
    ensures Sandwiched(0, 0, 0, bank, total)
  {
  }

  /** The shares of any of the requests fit the bank; those of all leave less than one unit per request. */
  lemma SharesFit(reqs: Requests, bank: uint64, ks: set<string>)
    requires ks <= reqs.Keys && bank <= Total(reqs)
    ensures Sum(ks, Shares(reqs, bank)) <= bank
    ensures ks == reqs.Keys && ks != {} ==> bank - Sum(ks, Shares(reqs, bank)) < |ks|
  {
    hide Sandwiched, PayoutBig;
    SumPart(ks, reqs.Keys, reqs);
    if Total(reqs) > 0 {
      SharesSandwiched(reqs, bank, ks);
      Fits(Sum(ks, Shares(reqs, bank)), |ks|, Sum(ks, reqs), bank, Total(reqs));
    } else {
      NoShares(reqs, bank, ks);
    }
  }

  lemma Fits(s: nat, n: nat, r: nat, bank: nat, total: nat)
    requires Sandwiched(s, n, r, bank, total) && r <= total && total > 0
    ensures s <= bank && (r == total && n > 0 ==> bank - s < n)
  {
    Times(r, total, bank);
    assert s * total < (bank + 1) * total;
    Cancel(s, bank, total);
    if r == total && n > 0 && bank >= s + n { Times(s + n, bank, total); }
  }

  lemma {:induction false} NoShares(reqs: Requests, bank: uint64, ks: set<string>)
    requires ks <= reqs.Keys && Total(reqs) == 0
    ensures Sum(ks, Shares(reqs, bank)) == 0
    decreases ks
  {
    if k :| k in ks {
      NoShares(reqs, bank, ks - {k});
      SumTake(ks, Shares(reqs, bank), k);
    }
  }

  ghost function Dust(reqs: Requests, bank: uint64): (d: uint64)
    requires bank <= Total(reqs)
    ensures d <= bank && d == bank - Sum(reqs.Keys, Shares(reqs, bank))
    ensures reqs != map[] ==> d < |reqs|
  {
    SharesFit(reqs, bank, reqs.Keys);
    bank - Sum(reqs.Keys, Shares(reqs, bank))
  }

  // ---------- the dust ----------

  /** Every request once, in the order in which a loop over the map happens to meet them. */
  ghost predicate Enumerates(order: seq<string>, reqs: Requests) {
    && (forall k :: k in order <==> k in reqs)
    && (forall i, j | 0 <= i < j < |order| :: order[i] != order[j])
  }

  /** The highest amount met so far, at least zero, and the txids that ask for it. */
  function Highest(order: seq<string>, reqs: Requests): (r: (uint64, seq<string>))
    requires forall k | k in order :: k in reqs
    ensures forall k :: k in r.1 <==> k in order && reqs[k] == r.0
    ensures forall k | k in order :: reqs[k] <= r.0
    ensures order != [] ==> r.1 != []
  {
    if order == [] then (0, [])
    else
      var last := order[|order| - 1];
      var r := Highest(order[..|order| - 1], reqs);
      assert order == order[..|order| - 1] + [last];
      if reqs[last] > r.0 then (reqs[last], [last])
      else if reqs[last] == r.0 then (r.0, r.1 + [last])
      else r
  }

  /** Who gets the dust. */
  function Winner(order: seq<string>, reqs: Requests): string
    requires order != [] && forall k | k in order :: k in reqs
  {
    var top := Highest(order, reqs).1;
    SortTxIDS(top)[0]
  }

  /** Nobody asks for more, and of those who ask for the same nobody has a smaller key. */
  ghost predicate First(reqs: Requests, w: string) {
    && w in reqs
    && (forall k | k in reqs :: reqs[k] <= reqs[w])
    && (forall k | k in reqs && reqs[k] == reqs[w] :: !Before(k, w))
  }

  lemma WinnerFirst(order: seq<string>, reqs: Requests)
    requires Enumerates(order, reqs) && order != []
    ensures First(reqs, Winner(order, reqs))
  {
    hide Before;
    var h := Highest(order, reqs);
    var i := SortFirst(h.1);
    var w := h.1[i];
    assert w in h.1;
    forall k | k in reqs && reqs[k] == reqs[w]
      ensures !Before(k, w)
    {
      assert k in h.1;
      var j :| 0 <= j < |h.1| && h.1[j] == k;
    }
  }

  /** Someone who is first can be met first, and then wins. */
  lemma FirstWins(reqs: Requests, w: string, order: seq<string>)
    requires First(reqs, w) && Enumerates(order, reqs) && order != [] && order[0] == w
    ensures Winner(order, reqs) == w
  {
    hide Before;
    var h := Highest(order, reqs);
    HighestStarts(order, reqs);
    var i := SortFirst(h.1);
    assert h.1[i] in h.1 && !Before(h.1[i], w);
  }

  lemma {:induction false} HighestStarts(order: seq<string>, reqs: Requests)
    requires order != [] && forall k | k in order :: k in reqs
    requires forall k | k in order :: reqs[k] <= reqs[order[0]]
    ensures Highest(order, reqs).1 != [] && Highest(order, reqs).1[0] == order[0]
  {
    var init, last := order[..|order| - 1], order[|order| - 1];
    assert order == init + [last];
    if init != [] {
      HighestStarts(init, reqs);
      var r := Highest(init, reqs);
      assert r.1[0] in r.1 && r.0 == reqs[order[0]];
      assert last in order;
    }
  }

  lemma {:induction false} Enumeration(ks: set<string>) returns (order: seq<string>)
    ensures forall k :: k in order <==> k in ks
    ensures forall i, j | 0 <= i < j < |order| :: order[i] != order[j]
    decreases ks
  {
    if k :| k in ks {
      var rest := Enumeration(ks - {k});
      order := [k] + rest;
    } else {
      order := [];
    }
  }

  lemma StartingWith(reqs: Requests, w: string) returns (order: seq<string>)
    requires w in reqs
    ensures Enumerates(order, reqs) && order != [] && order[0] == w
  {
    var rest := Enumeration(reqs.Keys - {w});
    order := [w] + rest;
  }

  // ---------- payouts ----------

  /** The payouts when the dust loop meets the requests in this order. */
  ghost function PayoutsIn(reqs: Requests, bank: uint64, order: seq<string>): (p: Requests)
    requires Enumerates(order, reqs)
    ensures p.Keys == reqs.Keys
  {
    if Total(reqs) < bank || order == [] then reqs
    else
      var shares, w := Shares(reqs, bank), Winner(order, reqs);
      WinnerFirst(order, reqs);
      ShareAndDust(reqs, bank, w);
      shares[w := shares[w] + Dust(reqs, bank)]
  }

  lemma ShareAndDust(reqs: Requests, bank: uint64, w: string)
    requires w in reqs && bank <= Total(reqs)
    ensures Shares(reqs, bank)[w] + Dust(reqs, bank) <= bank
  {
    SharesFit(reqs, bank, {w});
    SumPart({w}, reqs.Keys, Shares(reqs, bank));
    SumTake({w}, Shares(reqs, bank), w);
  }

  /**
    When the total reaches the bank, the whole bank goes out: the exact floor proportion to everyone, and what is left, less
    than one unit per request, to one of those who ask for the most.
   */
  lemma BankGoesOut(reqs: Requests, bank: uint64, order: seq<string>)
    requires Enumerates(order, reqs) && order != [] && Total(reqs) >= bank
    ensures var p := PayoutsIn(reqs, bank, order);
      && Sum(reqs.Keys, p) == bank
      && Dust(reqs, bank) < |reqs|
      && First(reqs, Winner(order, reqs))
      && (forall k | k in reqs ::
        p[k] == reqs[k] * bank / Denominator(reqs) + (if k == Winner(order, reqs) then Dust(reqs, bank) else 0))
  {
    hide First, Winner, PayoutBig;
    var p, w, shares := PayoutsIn(reqs, bank, order), Winner(order, reqs), Shares(reqs, bank);
    WinnerFirst(order, reqs);
    FirstIn(reqs, w);
    SumTake(reqs.Keys, p, w);
    SumTake(reqs.Keys, shares, w);
    SumSame(reqs.Keys - {w}, p, shares);
    forall k | k in reqs
      ensures shares[k] == reqs[k] * bank / Denominator(reqs)
    {
      ExactShare(reqs, bank, k);
    }
  }

  lemma FirstIn(reqs: Requests, w: string)
    requires First(reqs, w)
    ensures w in reqs && forall k | k in reqs :: reqs[k] <= reqs[w]
  {
  }

  /** The total, or 1 when nothing at all was asked for: all proportions are 0 then. */
  ghost function Denominator(reqs: Requests): (d: nat)
    ensures d > 0
  {
    if Total(reqs) == 0 then 1 else Total(reqs)
  }

  lemma ExactShare(reqs: Requests, bank: uint64, k: string)
    requires k in reqs
    ensures Shares(reqs, bank)[k] == reqs[k] * bank / Denominator(reqs)
  {
    RequestPart(reqs, k);
    if Total(reqs) > 0 { ShareIs(reqs[k], bank, Total(reqs)); }
  }

  /** Everybody gets exactly what they ask for if and only if all of it fits the bank. */
  lemma FullOrdersIff(reqs: Requests, bank: uint64, order: seq<string>)
    requires Enumerates(order, reqs)
    ensures PayoutsIn(reqs, bank, order) == reqs <==> Total(reqs) <= bank
  {
    hide PayoutsIn, Winner, Shares, Dust, Total;
    EmptyOrder(reqs, order);
    if Total(reqs) < bank || order == [] {
      NoDust(reqs, bank, order);
      if order == [] { NothingAsked(reqs); }
    } else {
      BankGoesOut(reqs, bank, order);
      SumIsTotal(reqs);
      if Total(reqs) == bank { ExactFit(reqs, bank, order); }
    }
  }

  lemma NothingAsked(reqs: Requests)
    requires reqs == map[]
    ensures Total(reqs) == 0
  {
  }

  lemma SumIsTotal(reqs: Requests)
    ensures Sum(reqs.Keys, reqs) == Total(reqs)
  {
  }

  /** When the requests add up to the bank every share is the request itself, so no dust is left. */
  lemma ExactFit(reqs: Requests, bank: uint64, order: seq<string>)
    requires Enumerates(order, reqs) && order != [] && Total(reqs) == bank
    ensures PayoutsIn(reqs, bank, order) == reqs
  {
    hide Winner, First, Sum;
    forall k | k in reqs
      ensures Shares(reqs, bank)[k] == reqs[k]
    {
      RequestPart(reqs, k);
      WholeShare(reqs[k], bank);
    }
    SumSame(reqs.Keys, Shares(reqs, bank), reqs);
    WithDust(reqs, bank, order);
  }

  lemma WholeShare(c: uint64, bank: uint64)
    requires c <= bank
    ensures PayoutBig(c, bank, bank) == c
  {
    if bank > 0 {
      ShareIs(c, bank, bank);
      assert c * bank < (c + 1) * bank;
      Quotient(c * bank, bank, c);
    }
  }

  // ---------- more than was asked for ----------

  /** What a request loses of the shortage: its proportion, rounded up. */
  function Cut(requested: uint64, short: nat, total: nat): (c: uint64)
    requires total > 0 && short <= total && requested <= total
    ensures c <= requested
  {
    Product(requested, short);
    Times(short, total, requested);
    assert requested * short + total - 1 < (requested + 1) * total;
    Quotient(requested * short + total - 1, total, 0);
    Below(requested * short + total - 1, total, requested);
    (requested * short + total - 1) / total
  }

  lemma Below(n: nat, d: nat, q: nat)
    requires d > 0 && n < (q + 1) * d
    ensures 0 <= n / d <= q
  {
    Quotient(n, d, n / d);
    Cancel(n / d, q, d);
  }

  /** A floor share is the request less its cut. */
  lemma ShareIsCut(c: uint64, bank: uint64, total: nat)
    requires c <= total && total > 0 && bank <= total
    ensures PayoutBig(c, bank, total) == c - Cut(c, total - bank, total)
  {
    ShareIs(c, bank, total);
    var v, n := PayoutBig(c, bank, total), c * (total - bank) + total - 1;
    assert n == c * total - c * bank + total - 1;
    assert (c - v) * total == c * total - v * total && (c - v + 1) * total == c * total - v * total + total;
    assert (v + 1) * total == v * total + total;
    Product(c, total - bank);
    Quotient(n, total, c - v);
  }

  /** The cut of one request when the bank does not cover them all. */
  ghost function CutFor(reqs: Requests, bank: uint64, k: string): uint64
    requires k in reqs && bank <= Total(reqs)
  {
    RequestPart(reqs, k);
    Cut(reqs[k], Total(reqs) - bank, Denominator(reqs))
  }

  ghost function Cuts(reqs: Requests, bank: uint64): (p: Requests)
    requires bank <= Total(reqs)
    ensures p.Keys == reqs.Keys
  {
    map k | k in reqs :: CutFor(reqs, bank, k)
  }

  lemma {:induction false} CutsAndShares(reqs: Requests, bank: uint64, ks: set<string>)
    requires ks <= reqs.Keys && bank <= Total(reqs)
    ensures Sum(ks, Shares(reqs, bank)) + Sum(ks, Cuts(reqs, bank)) == Sum(ks, reqs)
    decreases ks
  {
    hide PayoutBig, Cut;
    if k :| k in ks {
      CutsAndShares(reqs, bank, ks - {k});
      SumTake(ks, Shares(reqs, bank), k);
      SumTake(ks, Cuts(reqs, bank), k);
      SumTake(ks, reqs, k);
      CutOfShare(reqs, bank, k);
    }
  }

  lemma CutOfShare(reqs: Requests, bank: uint64, k: string)
    requires k in reqs && bank <= Total(reqs)
    ensures (Shares(reqs, bank)[k] as int) + (Cuts(reqs, bank)[k] as int) == reqs[k]
  {
    hide PayoutBig, Cut, Total;
    RequestPart(reqs, k);
    if Total(reqs) > 0 { ShareIsCut(reqs[k], bank, Total(reqs)); } else { NoShare(bank); }
  }

  lemma NoShare(bank: uint64)
    ensures PayoutBig(0, bank, 0) == 0 && Cut(0, 0, 1) == 0
  {
  }

  /**
    Somebody gets more than they ask for exactly if they get the dust and the cuts of the others,
    each rounded up, come to more than the total exceeds the bank by.
   */
  lemma OverpaidIff(reqs: Requests, bank: uint64, order: seq<string>, k: string)
    requires Enumerates(order, reqs) && k in reqs
    ensures PayoutsIn(reqs, bank, order)[k] > reqs[k] <==>
      (Total(reqs) >= bank && order != [] && k == Winner(order, reqs)
      && Sum(reqs.Keys - {k}, Cuts(reqs, bank)) > Total(reqs) - bank)
  {
    hide PayoutBig, Cut, Winner, First;
    if Total(reqs) >= bank && order != [] {
      var p, w := PayoutsIn(reqs, bank, order), Winner(order, reqs);
      BankGoesOut(reqs, bank, order);
      FirstIn(reqs, w);
      CutOfShare(reqs, bank, k);
      SumTake(reqs.Keys, p, w);
      SumTake(reqs.Keys, reqs, w);
      SumSame(reqs.Keys - {w}, p, Shares(reqs, bank));
      CutsAndShares(reqs, bank, reqs.Keys - {w});
    }
  }

  /** Three requests of one unit and a bank of two: one of them gets both. */
  lemma SomebodyOverpaid(a: string, b: string, c: string, order: seq<string>)
    requires a != b && b != c && a != c && Enumerates(order, map[a := 1, b := 1, c := 1])
    ensures exists k | k in {a, b, c} :: PayoutsIn(map[a := 1, b := 1, c := 1], 2, order)[k] == 2
  {
    hide PayoutsIn, Winner, Dust, Shares, First, Sum;
    var reqs: Requests := map[a := 1, b := 1, c := 1];
    assert a in order && a in reqs && b in reqs && c in reqs;
    SumOfThree(a, b, c, reqs);
    BankGoesOut(reqs, 2, order);
    var p, w := PayoutsIn(reqs, 2, order), Winner(order, reqs);
    SumOfThree(a, b, c, p);
    assert Denominator(reqs) == 3;
    assert forall k | k in reqs :: reqs[k] * 2 / Denominator(reqs) == 0;
    FirstIn(reqs, w);
    assert p[w] == 2;
  }

  lemma SumOfThree(a: string, b: string, c: string, m: Requests)
    requires a != b && b != c && a != c && m.Keys == {a, b, c}
    ensures Sum(m.Keys, m) == (m[a] as int) + (m[b] as int) + (m[c] as int)
  {
    SumTake(m.Keys, m, a);
    assert m.Keys - {a} == {b, c} && {b, c} - {b} == {c} && {c} - {c} == {};
    SumTake({b, c}, m, b);
    SumTake({c}, m, c);
  }

  /** A larger request never gets a smaller payout. */
  lemma LargerGetsMore(reqs: Requests, bank: uint64, order: seq<string>, a: string, b: string)
    requires Enumerates(order, reqs) && a in reqs && b in reqs && reqs[a] < reqs[b]
    ensures PayoutsIn(reqs, bank, order)[a] <= PayoutsIn(reqs, bank, order)[b]
  {
    hide Winner, PayoutBig, Before;
    if Total(reqs) >= bank {
      assert a in order;
      WinnerFirst(order, reqs);
      RequestPart(reqs, a);
      RequestPart(reqs, b);
      ShareIs(reqs[a], bank, Total(reqs));
      ShareIs(reqs[b], bank, Total(reqs));
      ProportionGrows(reqs[a], reqs[b], bank, Total(reqs), Shares(reqs, bank)[a], Shares(reqs, bank)[b]);
    }
  }

  lemma ProportionGrows(a: nat, b: nat, bank: nat, total: nat, u: nat, v: nat)
    requires a <= b && Gives(a, bank, total, u) && Gives(b, bank, total, v)
    ensures u <= v
  {
    Times(a, b, bank);
    Cancel(u, v, total);
  }

  // ---------- the order of the map ----------

  /** The payouts do not depend on the order of the loop. */
  ghost predicate OrderFree(reqs: Requests, bank: uint64) {
    forall o, o' | Enumerates(o, reqs) && Enumerates(o', reqs) :: PayoutsIn(reqs, bank, o) == PayoutsIn(reqs, bank, o')
  }

  /** Of those who ask for the most, only one has the smallest key. */
  ghost predicate OneFirst(reqs: Requests) {
    forall a, b | First(reqs, a) && First(reqs, b) :: a == b
  }

  /** The winner and the dust decide everything. */
  lemma SameWinner(reqs: Requests, bank: uint64, o: seq<string>, o': seq<string>)
    requires Enumerates(o, reqs) && Enumerates(o', reqs) && o != [] && o' != [] && Total(reqs) >= bank
    requires Winner(o, reqs) == Winner(o', reqs) || Dust(reqs, bank) == 0
    ensures PayoutsIn(reqs, bank, o) == PayoutsIn(reqs, bank, o')
  {
    hide First, Winner, Shares, Dust;
    WinnerFirst(o, reqs);
    WinnerFirst(o', reqs);
    FirstIn(reqs, Winner(o, reqs));
    FirstIn(reqs, Winner(o', reqs));
    var p, p' := PayoutsIn(reqs, bank, o), PayoutsIn(reqs, bank, o');
    assert forall k | k in reqs :: p[k] == p'[k];
  }

  lemma OneFirstFree(reqs: Requests, bank: uint64)
    requires Total(reqs) < bank || OneFirst(reqs) || Dust(reqs, bank) == 0
    ensures OrderFree(reqs, bank)
  {
    forall o, o' | Enumerates(o, reqs) && Enumerates(o', reqs)
      ensures PayoutsIn(reqs, bank, o) == PayoutsIn(reqs, bank, o')
    {
      hide First, Winner, PayoutsIn, Enumerates, Dust, Shares, Total;
      SameEmpty(reqs, o, o');
      if Total(reqs) >= bank && o != [] {
        WinnerFirst(o, reqs);
        WinnerFirst(o', reqs);
        SameWinner(reqs, bank, o, o');
      } else {
        NoDust(reqs, bank, o);
        NoDust(reqs, bank, o');
      }
    }
  }

  lemma WithDust(reqs: Requests, bank: uint64, o: seq<string>)
    requires Enumerates(o, reqs) && o != [] && Total(reqs) >= bank
    ensures var w, shares := Winner(o, reqs), Shares(reqs, bank);
      && w in reqs && shares[w] + Dust(reqs, bank) < TWO64
      && PayoutsIn(reqs, bank, o) == shares[w := shares[w] + Dust(reqs, bank)]
  {
    hide Winner, Shares, Dust, First;
    WinnerFirst(o, reqs);
    FirstIn(reqs, Winner(o, reqs));
    ShareAndDust(reqs, bank, Winner(o, reqs));
  }

  lemma EmptyOrder(reqs: Requests, o: seq<string>)
    requires Enumerates(o, reqs)
    ensures o == [] <==> reqs == map[]
  {
    if o != [] { assert o[0] in o; }
    if reqs != map[] {
      var k :| k in reqs;
      assert k in o;
    }
  }

  lemma NoDust(reqs: Requests, bank: uint64, o: seq<string>)
    requires Enumerates(o, reqs) && (Total(reqs) < bank || o == [])
    ensures PayoutsIn(reqs, bank, o) == reqs
  {
  }

  lemma SameEmpty(reqs: Requests, o: seq<string>, o': seq<string>)
    requires Enumerates(o, reqs) && Enumerates(o', reqs)
    ensures o == [] <==> o' == []
  {
    if o != [] { assert o[0] in o; }
    if o' != [] { assert o'[0] in o'; }
  }

  lemma TwoFirstNotFree(reqs: Requests, bank: uint64, a: string, b: string)
    requires First(reqs, a) && First(reqs, b) && a != b && Total(reqs) >= bank && Dust(reqs, bank) > 0
    ensures !OrderFree(reqs, bank)
  {
    hide First, Winner, Shares;
    FirstIn(reqs, a);
    FirstIn(reqs, b);
    var o := StartingWith(reqs, a);
    var o' := StartingWith(reqs, b);
    FirstWins(reqs, a, o);
    FirstWins(reqs, b, o');
    assert PayoutsIn(reqs, bank, o)[a] == Shares(reqs, bank)[a] + Dust(reqs, bank);
    assert PayoutsIn(reqs, bank, o')[a] == Shares(reqs, bank)[a];
  }

  /** Exactly when the order of the loop over the map cannot be seen in the result. */
  lemma OrderFreeIff(reqs: Requests, bank: uint64)
    ensures OrderFree(reqs, bank) <==> Total(reqs) < bank || OneFirst(reqs) || Dust(reqs, bank) == 0
  {
    hide OrderFree, First;
    if Total(reqs) < bank || OneFirst(reqs) || Dust(reqs, bank) == 0 {
      OneFirstFree(reqs, bank);
    } else {
      var a, b :| First(reqs, a) && First(reqs, b) && a != b;
      TwoFirstNotFree(reqs, bank, a, b);
    }
  }

  /** With canonical txids of single transactions the order never shows. */
  lemma CanonicalOrderFree(reqs: Requests, bank: uint64)
    requires forall k | k in reqs :: Canonical(k)
    ensures OrderFree(reqs, bank)
  {
    hide OrderFree, Canonical, KeyLess;
    forall a, b | First(reqs, a) && First(reqs, b)
      ensures a == b
    {
      CanonicalKeys(a, b);
      KeyOrder(SortKey(a), SortKey(b), SortKey(a));
    }
    OneFirstFree(reqs, bank);
  }

  lemma CanonicalKeys(a: string, b: string)
    requires Canonical(a) && Canonical(b)
    ensures SortKey(a) == SortKey(b) ==> a == b
  {
    hide FormatTxID;
    FormatSplit(a);
    FormatSplit(b);
  }

  /**
    With others it can: "1-h" and "01-h" are two keys of the map but one key for the sort, so when both
    ask for one unit of a bank of one, whoever is met first gets it.
   */
  lemma PaddedTie(h: string)
    requires IsHash(h)
    ensures var a, b := FormatTxIDWithPad(1, 1, h), FormatTxIDWithPad(2, 1, h);
      && a == "1-" + h && b == "01-" + h
      && VerifyTransactionHash(a) == VerifyTransactionHash(b) == Ok(TxKey(1, h))
      && a != b && !OrderFree(map[a := 1, b := 1], 1)
  {
    hide SplitTxID, OrderFree, FormatTxIDWithPad, IsHash;
    var a, b := FormatTxIDWithPad(1, 1, h), FormatTxIDWithPad(2, 1, h);
    PaddedTexts(h);
    SplitFormat(1, 1, h);
    SplitFormat(2, 1, h);
    TieOfTwo(a, b);
  }

  /** Two requests of one unit, a bank of one, and equal keys. */
  lemma TieOfTwo(a: string, b: string)
    requires a != b && SortKey(a) == SortKey(b)
    ensures !OrderFree(map[a := 1, b := 1], 1)
  {
    hide SortKey, KeyLess, OrderFree;
    var reqs: Requests := map[a := 1, b := 1];
    KeyOrder(SortKey(a), SortKey(a), SortKey(a));
    TwoUnits(a, b);
    TwoFirstNotFree(reqs, 1, a, b);
  }

  lemma TwoUnits(a: string, b: string)
    requires a != b
    ensures var reqs: Requests := map[a := 1, b := 1];
      Total(reqs) == 2 && Dust(reqs, 1) == 1
  {
    var reqs: Requests := map[a := 1, b := 1];
    assert reqs.Keys == {a, b} && reqs.Keys - {a} == {b} && {b} - {b} == {};
    SumTake(reqs.Keys, reqs, a);
    SumTake({b}, reqs, b);
    SumTake(reqs.Keys, Shares(reqs, 1), a);
    SumTake({b}, Shares(reqs, 1), b);
  }

  lemma PaddedTexts(h: string)
    requires IsHash(h)
    ensures FormatTxIDWithPad(1, 1, h) == "1-" + h && |FormatTxIDWithPad(1, 1, h)| == 66
    ensures FormatTxIDWithPad(2, 1, h) == "01-" + h && |FormatTxIDWithPad(2, 1, h)| == 67
  {
    assert Digits(10, 1) == [1];
    assert DigitChars([1]) == "1" && ZeroChars(1) == "0" && ZeroChars(0) == "";
    assert FormatInt(1, 1) == "1" && FormatInt(2, 1) == "01";
  }

  lemma NoneYet(reqs: Requests, bank: uint64)
    ensures Sum({}, Shares(reqs, bank)) == 0
  {
  }

  lemma ShareAt(reqs: Requests, bank: uint64, k: string)
    requires k in reqs
    ensures Shares(reqs, bank)[k] == PayoutBig(reqs[k], bank, Total(reqs))
  {
  }

  lemma DustIs(reqs: Requests, bank: uint64)
    requires bank <= Total(reqs)
    ensures Dust(reqs, bank) == bank - Sum(reqs.Keys, Shares(reqs, bank))
  {
  }

  lemma NextShare(reqs: Requests, bank: uint64, done: set<string>, k: string)
    requires done <= reqs.Keys && k in reqs && k !in done && bank <= Total(reqs)
    ensures Sum(done + {k}, Shares(reqs, bank)) == Sum(done, Shares(reqs, bank)) + Shares(reqs, bank)[k] <= bank
  {
    SumAdd(done, Shares(reqs, bank), k);
    SharesFit(reqs, bank, done + {k});
  }

  // ---------- the set of requests ----------

  datatype AddError = BadTxid(error: TxError) | AlreadyExists

  class ConversionSupplySet {
    var Bank: uint64
    var ConversionRequests: Requests
    var totalRequested: nat      // a big integer

    /** The running total is the sum of the requests, all of them under ids that verify. */
    ghost predicate Valid()
      reads this
    {
      && totalRequested == Total(ConversionRequests)
      && (forall k | k in ConversionRequests :: VerifyTransactionHash(k).Ok?)
    }

    constructor (bank: uint64)
      ensures Valid() && Bank == bank && ConversionRequests == map[]
    {
      Bank, ConversionRequests, totalRequested := bank, map[], 0;
    }

    method AddConversion(txid: string, pegAmt: uint64) returns (r: Result<(), AddError>)
      requires Valid()
      modifies this`ConversionRequests, this`totalRequested
      ensures Valid()
      ensures r.Ok? <==> VerifyTransactionHash(txid).Ok? && txid !in old(ConversionRequests)
      ensures ConversionRequests == if r.Ok? then old(ConversionRequests)[txid := pegAmt] else old(ConversionRequests)
      ensures r == Err(AlreadyExists) <==> VerifyTransactionHash(txid).Ok? && txid in old(ConversionRequests)
    {
      hide VerifyTransactionHash;
      var v := VerifyTransactionHash(txid);
      if v.Err? {
        return Err(BadTxid(v.error));
      }
      if txid in ConversionRequests {
        return Err(AlreadyExists);
      }
      ghost var before := ConversionRequests;
      ConversionRequests := ConversionRequests[txid := pegAmt];
      totalRequested := totalRequested + pegAmt;
      SumTake(ConversionRequests.Keys, ConversionRequests, txid);
      assert ConversionRequests.Keys - {txid} == before.Keys;
      SumSame(before.Keys, before, ConversionRequests);
      return Ok(());
    }

    /** The payouts for some order of the loop over the map; no uint64 sum or difference leaves its range. */
    method Payouts() returns (payouts: Requests, ghost order: seq<string>)
      requires Valid()
      ensures Enumerates(order, ConversionRequests)
      ensures payouts == PayoutsIn(ConversionRequests, Bank, order)
      ensures payouts == ConversionRequests <==> Total(ConversionRequests) <= Bank
    {
      hide First, Winner, Shares, Dust, VerifyTransactionHash, PayoutsIn, Highest, Total;
      order := Enumeration(ConversionRequests.Keys);
      EmptyOrder(ConversionRequests, order);
      if |ConversionRequests| == 0 {
        NoDust(ConversionRequests, Bank, order);
        FullOrdersIff(ConversionRequests, Bank, order);
        return map[], order;
      }
      if totalRequested < Bank {
        payouts := FillOrders();
        NoDust(ConversionRequests, Bank, order);
        FullOrdersIff(ConversionRequests, Bank, order);
        return;
      }
      var dust;
      payouts, dust := FloorShares();
      var top;
      top, order := TopRequesters();
      EmptyOrder(ConversionRequests, order);
      WithDust(ConversionRequests, Bank, order);
      var lucky := LuckyOne(top, order);
      payouts := payouts[lucky := payouts[lucky] + dust];
      FullOrdersIff(ConversionRequests, Bank, order);
    }

    method FillOrders() returns (payouts: Requests)
      ensures payouts == ConversionRequests
    {
      payouts := map[];
      var left := ConversionRequests.Keys;
      while left != {}
        invariant left <= ConversionRequests.Keys
        invariant payouts == map k | k in ConversionRequests.Keys - left :: ConversionRequests[k]
        decreases |left|
      {
        var txid :| txid in left;
        payouts := payouts[txid := ConversionRequests[txid]];
        left := left - {txid};
      }
    }

    method FloorShares() returns (payouts: Requests, dust: uint64)
      requires Valid() && Bank <= totalRequested
      ensures payouts == Shares(ConversionRequests, Bank) && dust == Dust(ConversionRequests, Bank)
    {
      hide PayoutBig, VerifyTransactionHash, Total, Sum, Dust, Shares;
      payouts := map[];
      assert ConversionRequests.Keys - ConversionRequests.Keys == {};
      NoneYet(ConversionRequests, Bank);
      var totalPaid: uint64 := 0;
      var left, all := ConversionRequests.Keys, ConversionRequests.Keys;
      ghost var shares := Shares(ConversionRequests, Bank);
      while left != {}
        invariant left <= all
        invariant payouts == map k | k in all - left :: shares[k]
        invariant totalPaid == Sum(all - left, shares)
        decreases |left|
      {
        var txid :| txid in left;
        var share := PayoutBig(ConversionRequests[txid], Bank, totalRequested);
        ShareAt(ConversionRequests, Bank, txid);
        payouts := payouts[txid := share];
        assert all - (left - {txid}) == all - left + {txid};
        NextShare(ConversionRequests, Bank, all - left, txid);
        totalPaid := totalPaid + share;
        left := left - {txid};
      }
      assert all - left == all;
      SharesFit(ConversionRequests, Bank, all);
      DustIs(ConversionRequests, Bank);
      dust := Bank - totalPaid;
    }

    method TopRequesters() returns (top: seq<string>, ghost order: seq<string>)
      ensures Enumerates(order, ConversionRequests) && top == Highest(order, ConversionRequests).1
    {
      var most: uint64 := 0;
      top, order := [], [];
      var left := ConversionRequests.Keys;
      while left != {}
        invariant left <= ConversionRequests.Keys
        invariant forall k :: k in order <==> k in ConversionRequests.Keys - left
        invariant forall i, j | 0 <= i < j < |order| :: order[i] != order[j]
        invariant (most, top) == Highest(order, ConversionRequests)
        decreases |left|
      {
        var txid :| txid in left;
        var amt := ConversionRequests[txid];
        assert (order + [txid])[..|order|] == order;
        if amt > most {
          top, most := [txid], amt;
        } else if amt == most {
          top := top + [txid];
        }
        order := order + [txid];
        left := left - {txid};
      }
    }

    method LuckyOne(top: seq<string>, ghost order: seq<string>) returns (lucky: string)
      requires Enumerates(order, ConversionRequests) && order != [] && top == Highest(order, ConversionRequests).1
      ensures lucky == Winner(order, ConversionRequests)
    {
      if |top| == 1 {
        lucky := top[0];
        ghost var i := SortFirst(top);
      } else {
        lucky := SortTxIDS(top)[0];
      }
    }
  }
}
