/**
  How the oracle grades a block (modules/grader): which records are graded, how the field is
  narrowed down, and what the final order means. The score of a record against the survivors is
  any function, so the results do not depend on how floating point rounds.
 */
module Grading {
  import opened Common
  import opened Sequences
  import opened StableSort

  datatype Opr = Opr(
    entryHash: seq<byte>, nonce: seq<byte>, oprHash: seq<byte>,
    selfReportedDifficulty: uint64, difficulty: uint64,
    assets: seq<real>, address: seq<byte>,
    grade: real, position: int, payout: int)

  /** The proof of work: the leading eight bytes of the hash of the OPR hash and the nonce. */
  type Pow = seq<byte> -> uint64

  /** The score of a record against the survivors of a pass, with or without the tolerance band. */
  type Score = (seq<Opr>, Opr, bool) -> real

  // ---------- duplicates ----------

  /** The identity used for duplicates: nonce and OPR hash glued together. */
  function Id(o: Opr): seq<byte> {
    o.nonce + o.oprHash
  }

  /** Keeps the first record of each identity not seen before. */
  function Distinct(s: seq<Opr>, seen: set<seq<byte>>): seq<Opr> {
    if s == [] then []
    else if Id(s[0]) in seen then Distinct(s[1..], seen)
    else [s[0]] + Distinct(s[1..], seen + {Id(s[0])})
  }

  /** The first record of an identity is kept. */
  lemma {:induction false} DistinctKeepsFirst(s: seq<Opr>, seen: set<seq<byte>>, i: nat)
    requires i < |s| && Id(s[i]) !in seen && forall j | 0 <= j < i :: Id(s[j]) != Id(s[i])
    ensures s[i] in Distinct(s, seen)
  {
    if i > 0 {
      DistinctKeepsFirst(s[1..], if Id(s[0]) in seen then seen else seen + {Id(s[0])}, i - 1);
    }
  }

  lemma {:induction false} DistinctResult(s: seq<Opr>, seen: set<seq<byte>>)
    ensures var r := Distinct(s, seen);
      && (forall o <- r :: o in s && Id(o) !in seen)
      && (forall i, j | 0 <= i < j < |r| :: Id(r[i]) != Id(r[j]))
  {
    if s != [] {
      var seen' := if Id(s[0]) in seen then seen else seen + {Id(s[0])};
      DistinctResult(s[1..], seen');
      var rest := Distinct(s[1..], seen');
      assert forall j | 0 <= j < |rest| :: rest[j] in rest;
      assert s == [s[0]] + s[1..];
    }
  }

  /** Nothing is dropped when all identities differ. */
  lemma {:induction false} DistinctIdentity(s: seq<Opr>, seen: set<seq<byte>>)
    requires forall i | 0 <= i < |s| :: Id(s[i]) !in seen
    requires forall i, j | 0 <= i < j < |s| :: Id(s[i]) != Id(s[j])
    ensures Distinct(s, seen) == s
  {
    if s != [] {
      DistinctIdentity(s[1..], seen + {Id(s[0])});
    }
  }

  /**
    Deduplication comes before the honesty check, so an honest record can be lost to an earlier
    copy that lies about its difficulty.
   */
  lemma Shadowed(pow: Pow, honest: Opr)
    requires Honest(pow, honest)
    ensures var liar := honest.(selfReportedDifficulty := (honest.selfReportedDifficulty + 1) % TWO64);
      Filter(Distinct([liar, honest], {}), o => Honest(pow, o)) == []
  {
    var liar := honest.(selfReportedDifficulty := (honest.selfReportedDifficulty + 1) % TWO64);
    assert [liar, honest][1..] == [honest] && [honest][1..] == [];
    assert {} + {Id(liar)} == {Id(liar)};
    assert Distinct([honest], {Id(liar)}) == Distinct([], {Id(liar)}) == [];
  }

  // ---------- honest proof of work ----------

  predicate Honest(pow: Pow, o: Opr) {
    pow(o.oprHash + o.nonce) == o.selfReportedDifficulty
  }

  /** Descending order of the difficulty a record claims. */
  function ByDifficulty(o: Opr): real {
    -(o.selfReportedDifficulty as real)
  }

  function ByGrade(o: Opr): real {
    o.grade
  }

  /** The loop of sortByDifficulty: the first `limit` honest records, but at least one if there is one. */
  function TakeHonest(pow: Pow, s: seq<Opr>, limit: int): seq<Opr> {
    if s == [] then []
    else if !Honest(pow, s[0]) then TakeHonest(pow, s[1..], limit)
    else if limit <= 1 then [s[0]]
    else [s[0]] + TakeHonest(pow, s[1..], limit - 1)
  }

  /** How many records the loop hashes before it stops. */
  function Hashed(pow: Pow, s: seq<Opr>, limit: int): nat {
    if s == [] then 0
    else if !Honest(pow, s[0]) then 1 + Hashed(pow, s[1..], limit)
    else if limit <= 1 then 1
    else 1 + Hashed(pow, s[1..], limit - 1)
  }

  function Prefix<T>(s: seq<T>, n: int): seq<T> {
    if n < 0 then [] else if n < |s| then s[..n] else s
  }

  function HonestOnes(pow: Pow, s: seq<Opr>): seq<Opr> {
    Filter(s, o => Honest(pow, o))
  }

  function TopHonest(pow: Pow, s: seq<Opr>, limit: int): seq<Opr> {
    TakeHonest(pow, Sort(s, ByDifficulty), limit)
  }

  lemma {:induction false} TakeHonestIsPrefix(pow: Pow, s: seq<Opr>, limit: int)
    requires limit >= 1
    ensures TakeHonest(pow, s, limit) == Prefix(HonestOnes(pow, s), limit)
    ensures Hashed(pow, s, limit) <= limit + |s| - |HonestOnes(pow, s)|
  {
    if s != [] {
      if !Honest(pow, s[0]) {
        TakeHonestIsPrefix(pow, s[1..], limit);
      } else if limit > 1 {
        TakeHonestIsPrefix(pow, s[1..], limit - 1);
        assert HonestOnes(pow, s) == [s[0]] + HonestOnes(pow, s[1..]);
      } else {
        FilterShorter(s[1..], o => Honest(pow, o));
      }
    }
  }

  lemma {:induction false} FilterShorter<T>(s: seq<T>, p: T -> bool)
    ensures |Filter(s, p)| <= |s|
  {
    if s != [] {
      FilterShorter(s[1..], p);
    }
  }

  /** The lazy selection is the plain one: drop the dishonest, sort stably, take the top. */
  lemma TopHonestIs(pow: Pow, s: seq<Opr>, limit: int)
    requires limit >= 1
    ensures TopHonest(pow, s, limit) == Prefix(Sort(HonestOnes(pow, s), ByDifficulty), limit)
    ensures Hashed(pow, Sort(s, ByDifficulty), limit) <= limit + |s| - |HonestOnes(pow, s)|
  {
    TakeHonestIsPrefix(pow, Sort(s, ByDifficulty), limit);
    FilterSort(s, ByDifficulty, o => Honest(pow, o));
    SortContents(s, ByDifficulty);
    SortContents(HonestOnes(pow, s), ByDifficulty);
  }

  /**
    When an honest record survives deduplication: of its identity an honest record is left exactly if
    the first record submitted with that identity is honest.
   */
  lemma HonestSurvivesIff(pow: Pow, s: seq<Opr>, i: nat, j: nat)
    requires i <= j < |s| && Id(s[i]) == Id(s[j]) && Honest(pow, s[j])
    requires forall k | 0 <= k < i :: Id(s[k]) != Id(s[j])
    ensures (exists o :: o in HonestOnes(pow, Distinct(s, {})) && Id(o) == Id(s[j])) <==> Honest(pow, s[i])
  {
    hide Distinct, Id, Filter;
    var d, honest := Distinct(s, {}), (o: Opr) => Honest(pow, o);
    DistinctKeepsFirst(s, {}, i);
    DistinctResult(s, {});
    FilterMember(d, honest, s[i]);
    forall o | o in HonestOnes(pow, d) && Id(o) == Id(s[j])
      ensures Honest(pow, s[i])
    {
      FilterMember(d, honest, o);
      OneOfIdentity(d, o, s[i]);
    }
  }

  lemma OneOfIdentity(d: seq<Opr>, x: Opr, y: Opr)
    requires forall i, j | 0 <= i < j < |d| :: Id(d[i]) != Id(d[j])
    requires x in d && y in d && Id(x) == Id(y)
    ensures x == y
  {
    hide Id;
    var p, q :| 0 <= p < |d| && 0 <= q < |d| && d[p] == x && d[q] == y;
  }

  /** Distinct identities, and distinct difficulties among the honest. */
  ghost predicate Unambiguous(pow: Pow, s: seq<Opr>) {
    && (forall i, j | 0 <= i < j < |s| :: Id(s[i]) != Id(s[j]))
    && Injective(HonestOnes(pow, s), ByDifficulty)
  }

  /** The records to grade do not depend on the order in which they arrived. */
  lemma ArrivalOrder(pow: Pow, a: seq<Opr>, b: seq<Opr>, limit: int)
    requires limit >= 1 && multiset(a) == multiset(b) && Unambiguous(pow, a)
    ensures TopHonest(pow, Distinct(a, {}), limit) == TopHonest(pow, Distinct(b, {}), limit)
  {
    DistinctIdentity(a, {});
    MapContents(a, b, Id);
    assert NoRepeats(Map(a, Id));
    SelectionOnce(Map(b, Id), Map(a, Id));
    assert forall i | 0 <= i < |b| :: Map(b, Id)[i] == Id(b[i]);
    DistinctIdentity(b, {});
    TopHonestIs(pow, a, limit);
    TopHonestIs(pow, b, limit);
    FilterContents(a, b, o => Honest(pow, o));
    SortOfPermutation(HonestOnes(pow, a), HonestOnes(pow, b), ByDifficulty);
  }

  lemma {:induction false} FilterConcat<T>(a: seq<T>, b: seq<T>, p: T -> bool)
    ensures Filter(a + b, p) == Filter(a, p) + Filter(b, p)
  {
    if a == [] {
      assert a + b == b;
    } else {
      assert (a + b)[1..] == a[1..] + b;
      FilterConcat(a[1..], b, p);
    }
  }

  function Without<T>(s: seq<T>, i: nat): seq<T>
    requires i < |s|
  {
    s[..i] + s[i + 1..]
  }

  lemma WithoutContents<T>(s: seq<T>, i: nat)
    requires i < |s|
    ensures multiset(s) == multiset([s[i]]) + multiset(Without(s, i))
  {
    assert s == s[..i] + ([s[i]] + s[i + 1..]);
  }

  lemma WithoutSame<T>(a: seq<T>, b: seq<T>, i: nat, j: nat)
    requires multiset(a) == multiset(b) && i < |a| && j < |b| && a[i] == b[j]
    ensures multiset(Without(a, i)) == multiset(Without(b, j))
  {
    WithoutContents(a, i);
    WithoutContents(b, j);
    assert multiset(Without(a, i)) == multiset(a) - multiset([a[i]]);
    assert multiset(Without(b, j)) == multiset(b) - multiset([b[j]]);
  }

  /** An element of a, found in its rearrangement b. */
  lemma FindFirst<T>(a: seq<T>, b: seq<T>) returns (i: nat)
    requires multiset(a) == multiset(b) && a != []
    ensures i < |b| && b[i] == a[0] && multiset(a[1..]) == multiset(Without(b, i))
  {
    assert a[0] in multiset(a) && a[0] in b;
    i :| i < |b| && b[i] == a[0];
    WithoutSame(a, b, 0, i);
    assert Without(a, 0) == a[1..];
  }

  lemma {:induction false} FilterContents<T>(a: seq<T>, b: seq<T>, p: T -> bool)
    requires multiset(a) == multiset(b)
    ensures multiset(Filter(a, p)) == multiset(Filter(b, p))
  {
    if a == [] {
      assert |multiset(b)| == 0;
    } else {
      var i := FindFirst(a, b);
      FilterContents(a[1..], Without(b, i), p);
      FilterConcat(b[..i], b[i + 1..], p);
      FilterConcat(b[..i], [b[i]] + b[i + 1..], p);
      assert b == b[..i] + ([b[i]] + b[i + 1..]);
      assert ([b[i]] + b[i + 1..])[1..] == b[i + 1..];
    }
  }

  lemma {:induction false} MapContents<T, U>(a: seq<T>, b: seq<T>, f: T -> U)
    requires multiset(a) == multiset(b)
    ensures multiset(Map(a, f)) == multiset(Map(b, f))
  {
    if a == [] {
      assert |multiset(b)| == 0;
    } else {
      var i := FindFirst(a, b);
      MapContents(a[1..], Without(b, i), f);
      WithoutContents(Map(a, f), 0);
      WithoutContents(Map(b, f), i);
      assert Without(Map(a, f), 0) == Map(a[1..], f);
      assert Without(Map(b, f), i) == Map(Without(b, i), f);
    }
  }

  // ---------- elimination ----------

  function Regrade(score: Score, s: seq<Opr>, banded: bool): (r: seq<Opr>)
    ensures |r| == |s|
  {
    Map(s, (o: Opr) => o.(grade := score(s, o, banded)))
  }

  /** One pass: grade everyone against the average of the survivors, sort by difficulty, then by grade. */
  function Pass(score: Score, s: seq<Opr>, banded: bool): (r: seq<Opr>)
    ensures |r| == |s|
  {
    var byDifficulty := Sort(Regrade(score, s, banded), ByDifficulty);
    SortContents(Regrade(score, s, banded), ByDifficulty);
    SortContents(byDifficulty, ByGrade);
    Sort(byDifficulty, ByGrade)
  }

  /** The list after the passes over the first n, n - 1, ..., k records. */
  function After(score: Score, s: seq<Opr>, n: nat, k: nat): (r: seq<Opr>)
    requires 1 <= k && n <= |s|
    ensures |r| == |s|
    decreases n + 1 - k
  {
    if k > n then s
    else
      var t := After(score, s, n, k + 1);
      Pass(score, t[..k], k >= 25) + t[k..]
  }

  /** A record without its grade. */
  function Bare(o: Opr): Opr {
    o.(grade := 0.0)
  }

  function Bares(s: seq<Opr>): (r: seq<Opr>)
    ensures |r| == |s|
  {
    Map(s, Bare)
  }

  /** A worse grade, or the same grade with no more work. */
  predicate NoBetter(x: Opr, y: Opr) {
    y.grade < x.grade || (y.grade == x.grade && x.selfReportedDifficulty <= y.selfReportedDifficulty)
  }

  /** The same records in some order, grades aside. */
  ghost predicate SameField(a: seq<Opr>, b: seq<Opr>) {
    multiset(Bares(a)) == multiset(Bares(b))
  }

  lemma SameFieldConcat(a: seq<Opr>, b: seq<Opr>, c: seq<Opr>)
    requires SameField(a, b)
    ensures SameField(a + c, b + c)
  {
    assert Bares(a + c) == Bares(a) + Bares(c) && Bares(b + c) == Bares(b) + Bares(c);
  }

  lemma PassContents(score: Score, s: seq<Opr>, banded: bool)
    ensures multiset(Pass(score, s, banded)) == multiset(Regrade(score, s, banded))
  {
    var graded := Regrade(score, s, banded);
    SortContents(graded, ByDifficulty);
    SortContents(Sort(graded, ByDifficulty), ByGrade);
  }

  /** A pass leaves the records in order, the worst last. */
  lemma PassOrdered(score: Score, s: seq<Opr>, banded: bool)
    ensures forall i, j | 0 <= i < j < |s| :: NoBetter(Pass(score, s, banded)[j], Pass(score, s, banded)[i])
  {
    var graded, r := Regrade(score, s, banded), Pass(score, s, banded);
    SortSorted(graded, ByDifficulty);
    SortLexicographic(Sort(graded, ByDifficulty), ByGrade, ByDifficulty);
    assert Lexicographic(r, ByGrade, ByDifficulty);
  }

  /** A pass loses nobody, and every record carries the grade of that pass. */
  lemma PassResult(score: Score, s: seq<Opr>, banded: bool)
    ensures SameField(Pass(score, s, banded), s)
    ensures forall i | 0 <= i < |s| ::
      var o := Pass(score, s, banded)[i]; exists x <- s :: o == x.(grade := score(s, x, banded))
  {
    hide Pass;
    var graded, r := Regrade(score, s, banded), Pass(score, s, banded);
    PassContents(score, s, banded);
    MapContents(r, graded, Bare);
    assert Bares(graded) == Bares(s);
    forall i | 0 <= i < |s|
      ensures exists x <- s :: r[i] == x.(grade := score(s, x, banded))
    {
      assert r[i] in multiset(r) && r[i] in graded;
      var j :| 0 <= j < |graded| && graded[j] == r[i];
      assert s[j] in s;
    }
  }

  lemma PassMember(score: Score, s: seq<Opr>, banded: bool, i: nat) returns (x: Opr)
    requires i < |s|
    ensures x in s && Pass(score, s, banded)[i] == x.(grade := score(s, x, banded))
  {
    PassResult(score, s, banded);
    var o := Pass(score, s, banded)[i];
    x :| x in s && o == x.(grade := score(s, x, banded));
  }

  /** Passes over the first m records or fewer only reorder those: nobody enters or leaves them. */
  lemma {:induction false} LaterPassesReorder(score: Score, s: seq<Opr>, n: nat, m: nat, k: nat)
    requires 1 <= k <= m <= n <= |s|
    ensures After(score, s, n, k)[m..] == After(score, s, n, m + 1)[m..]
    ensures SameField(After(score, s, n, k)[..m], After(score, s, n, m + 1)[..m])
    decreases m - k
  {
    hide SameField, Pass;
    var t, r := After(score, s, n, k + 1), After(score, s, n, k);
    var pass := Pass(score, t[..k], k >= 25);
    assert r == pass + t[k..];
    PassResult(score, t[..k], k >= 25);
    SameFieldConcat(pass, t[..k], t[k..m]);
    assert r[m..] == t[m..];
    assert r[..m] == pass + t[k..m] && t[..m] == t[..k] + t[k..m];
    if k < m {
      LaterPassesReorder(score, s, n, m, k + 1);
      SameFieldTransitive(r[..m], t[..m], After(score, s, n, m + 1)[..m]);
    }
  }

  lemma SameFieldTransitive(a: seq<Opr>, b: seq<Opr>, c: seq<Opr>)
    requires SameField(a, b) && SameField(b, c)
    ensures SameField(a, c)
  {
  }

  /** The survivors that pass k grades. */
  function Survivors(score: Score, s: seq<Opr>, n: nat, k: nat): seq<Opr>
    requires 1 <= k <= n <= |s|
  {
    After(score, s, n, k + 1)[..k]
  }

  /**
    Who is eliminated at pass k: the record at index k - 1 in the end is the worst of the k survivors
    by (grade, then least work), carries the grade of that pass, and was not moved since.
   */
  lemma Eliminated(score: Score, s: seq<Opr>, n: nat, k: nat, stop: nat)
    requires 1 <= stop <= k <= n <= |s|
    ensures var survivors, final := Survivors(score, s, n, k), After(score, s, n, stop);
      var graded, out := Pass(score, survivors, k >= 25), final[k - 1];
      && SameField(final[..k], survivors)
      && out == graded[k - 1]
      && (forall i | 0 <= i < k :: NoBetter(out, graded[i]))
      && (exists x <- survivors :: out == x.(grade := score(survivors, x, k >= 25)))
  {
    hide Pass, SameField;
    var here, final := After(score, s, n, k), After(score, s, n, stop);
    PassResult(score, Survivors(score, s, n, k), k >= 25);
    PassOrdered(score, Survivors(score, s, n, k), k >= 25);
    LaterPassesReorder(score, s, n, k, stop);
    if stop < k {
      LaterPassesReorder(score, s, n, k - 1, stop);
      assert final[k - 1] == final[k - 1..][0] == here[k - 1..][0];
    }
    assert here[k - 1] == Pass(score, Survivors(score, s, n, k), k >= 25)[k - 1];
  }

  /** The whole procedure only reorders and regrades. */
  lemma EliminationPermutes(score: Score, s: seq<Opr>, n: nat, stop: nat)
    requires 1 <= stop && n <= |s|
    ensures SameField(After(score, s, n, stop), s)
    ensures After(score, s, n, stop)[n..] == s[n..]
  {
    if stop <= n {
      LaterPassesReorder(score, s, n, n, stop);
      var r := After(score, s, n, stop);
      assert r == r[..n] + s[n..] && s == s[..n] + s[n..];
      SameFieldConcat(r[..n], s[..n], s[n..]);
    }
  }
}
