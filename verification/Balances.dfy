/** The balance of every address for every asset (balances/balances.go). */
module Balances {
  import opened Common
  import opened Ledger

  type Book = map<string, map<seq<byte>, int64>>

  // ---------- sums over maps ----------

  ghost function SumOf<T(!new)>(m: map<T, int>): int
    decreases |m|
  {
    if m == map[] then 0 else
      var k :| k in m;
      m[k] + SumOf(m - {k})
  }

  function At<T>(m: map<T, int>, k: T): int {
    if k in m then m[k] else 0
  }

  /** The order of summation does not matter. */
  lemma {:induction false} SumTake<T(!new)>(m: map<T, int>, k: T)
    requires k in m
    ensures SumOf(m) == m[k] + SumOf(m - {k})
    decreases |m|
  {
    var j :| j in m && SumOf(m) == m[j] + SumOf(m - {j});
    if j != k {
      SumTake(m - {j}, k);
      SumTake(m - {k}, j);
      assert m - {j} - {k} == m - {k} - {j};
    }
  }

  lemma SumUpdate<T(!new)>(m: map<T, int>, k: T, v: int)
    ensures SumOf(m[k := v]) == SumOf(m) - At(m, k) + v
  {
    SumTake(m[k := v], k);
    assert m[k := v] - {k} == m - {k};
    if k in m {
      SumTake(m, k);
    } else {
      assert m - {k} == m;
    }
  }

  lemma {:induction false} SumBound<T(!new)>(m: map<T, int>, k: T)
    requires forall j | j in m :: m[j] >= 0
    ensures 0 <= At(m, k) <= SumOf(m)
    decreases |m|
  {
    if k in m {
      SumTake(m, k);
      SumBound(m - {k}, k);
    } else if m != map[] {
      var j :| j in m;
      SumTake(m, j);
      SumBound(m - {j}, k);
    }
  }

  // ---------- the book ----------

  /** The balance of an account; a missing one is zero. */
  function Get(b: Book, account: (string, seq<byte>)): int64 {
    if account.0 in b && account.1 in b[account.0] then b[account.0][account.1] else 0
  }

  ghost function Held(b: Book): map<string, int> {
    map p | p in b :: SumOf(b[p])
  }

  /** Everything held by anybody. */
  ghost function GrandTotal(b: Book): int {
    SumOf(Held(b))
  }

  ghost predicate NonNegative(b: Book) {
    forall p, a | p in b && a in b[p] :: b[p][a] >= 0
  }

  /** One account set to a new value. */
  function Put(b: Book, account: (string, seq<byte>), v: int64): Book {
    var accounts: map<seq<byte>, int64> := if account.0 in b then b[account.0] else map[];
    var updated: map<seq<byte>, int64> := accounts[account.1 := v];
    b[account.0 := updated]
  }

  lemma PutTotal(b: Book, account: (string, seq<byte>), v: int64)
    ensures GrandTotal(Put(b, account, v)) == GrandTotal(b) - Get(b, account) + v
  {
    var accounts: map<seq<byte>, int64> := if account.0 in b then b[account.0] else map[];
    SumUpdate(accounts, account.1, v);
    var sum := SumOf<seq<byte>>(accounts[account.1 := v]);
    assert Held(Put(b, account, v)) == Held(b)[account.0 := sum];
    SumUpdate(Held(b), account.0, sum);
  }

  lemma PutGet(b: Book, account: (string, seq<byte>), v: int64)
    requires NonNegative(b) && v >= 0
    ensures NonNegative(Put(b, account, v))
    ensures forall a: (string, seq<byte>) :: Get(Put(b, account, v), a) == if a == account then v else Get(b, a)
  {
  }

  lemma Bounded(b: Book, account: (string, seq<byte>))
    requires NonNegative(b)
    ensures 0 <= Get(b, account) <= GrandTotal(b)
  {
    forall p | p in b
      ensures SumOf(b[p]) >= 0 && (account.1 in b[p] ==> b[p][account.1] <= SumOf(b[p]))
    {
      SumBound(b[p], account.1);
    }
    SumBound(Held(b), account.0);
  }

  /** int64 addition wraps around. */
  function Plus(a: int64, b: int64): int64 {
    ToInt64((a + b) % TWO64)
  }

  class BalanceTracker {
    var Balances: Book
    ghost var log: seq<Posting>     // every change made, in order

    /** Each balance is the sum of the postings to it, and together they are the sum of all postings. */
    ghost predicate Valid()
      reads this
    {
      && NonNegative(Balances)
      && (forall account: (string, seq<byte>) :: Get(Balances, account) == Owed(log, account))
      && GrandTotal(Balances) == Volume(log)
    }

    constructor ()
      ensures Valid() && log == []
    {
      Balances, log := map[], [];
    }

    /** The map of an asset is made even when the change is refused. */
    method AddToBalance(net: Network, address: seq<byte>, value: int64) returns (ok: bool)
      requires Valid()
      modifies this
      ensures Valid()
      ensures ok <==> net.account(address).Some? && 0 <= Get(old(Balances), net.account(address).value) + value < TWO63
      ensures log == old(log) + if ok then [Posting(net.account(address).value, value)] else []
    {
      hide GrandTotal, Owed, Volume, NonNegative, Put, Plus;
      var account := net.account(address);
      if account.None? {
        return false;
      }
      var prefix := account.value.0;
      Bounded(Balances, account.value);
      var prev := Get(Balances, account.value);
      if prefix !in Balances {
        NewAsset(Balances, prefix);
        NewAssetEmpty(Balances, prefix);
        Balances := Balances[prefix := map[]];
      }
      PlusIs(prev, value);
      if Plus(prev, value) < 0 {
        return false;
      }
      PutTotal(Balances, account.value, Plus(prev, value));
      PutGet(Balances, account.value, Plus(prev, value));
      Balances := Put(Balances, account.value, Plus(prev, value));
      log := log + [Posting(account.value, value)];
      Posted(old(log), account.value, value);
      return true;
    }

    /** -1 for an address that is not one. */
    method GetBalance(net: Network, address: seq<byte>) returns (balance: int64)
      requires Valid()
      ensures balance == if net.account(address).None? then -1 else Owed(log, net.account(address).value)
    {
      var account := net.account(address);
      if account.None? {
        return -1;
      }
      balance := Get(Balances, account.value);
    }
  }

  lemma PlusIs(prev: int64, value: int64)
    requires prev >= 0
    ensures Plus(prev, value) == (if prev + value < TWO63 then prev + value else prev + value - TWO64)
    ensures Plus(prev, value) >= 0 <==> 0 <= prev + value < TWO63
  {
  }

  lemma NewAssetEmpty(b: Book, prefix: string)
    requires prefix !in b && NonNegative(b)
    ensures NonNegative(b[prefix := map[]])
    ensures forall a: (string, seq<byte>) :: Get(b[prefix := map[]], a) == Get(b, a)
  {
  }

  lemma NewAsset(b: Book, prefix: string)
    requires prefix !in b
    ensures GrandTotal(b[prefix := map[]]) == GrandTotal(b)
  {
    assert Held(b[prefix := map[]]) == Held(b)[prefix := 0];
    SumUpdate(Held(b), prefix, 0);
  }

  lemma Posted(log: seq<Posting>, account: (string, seq<byte>), value: int)
    ensures Volume(log + [Posting(account, value)]) == Volume(log) + value
    ensures forall a: (string, seq<byte>) ::
      Owed(log + [Posting(account, value)], a) == Owed(log, a) + if a == account then value else 0
  {
    assert (log + [Posting(account, value)])[..|log|] == log;
  }
}
