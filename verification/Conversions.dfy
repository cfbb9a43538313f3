/** Converting amounts between assets, and the refund of a partial conversion (modules/conversions). */
module Conversions {
  import opened Common
  import opened Division

  const MAX_INT64: int := TWO63 - 1

  datatype ConvertError = InvalidAmount | InvalidRate | Overflow

  /** Rates are the value of one unit in 1e-8 USD; multiplied first, on big integers. */
  function Convert(amount: int64, fromRate: uint64, toRate: uint64): (r: Result<int64, ConvertError>)
    ensures r.Ok? ==> r.value >= 0
  {
    if amount < 0 then Err(InvalidAmount)
    else if fromRate == 0 || toRate == 0 then Err(InvalidRate)
    else
      Product(amount, fromRate);
      Quotient(amount * fromRate, toRate, 0);
      var num := amount * fromRate / toRate;
      if num > MAX_INT64 then Err(Overflow) else Ok(num)
  }

  /** What a failed conversion leaves in the result variable. */
  function OrZero(r: Result<int64, ConvertError>): int64 {
    if r.Ok? then r.value else 0
  }

  /** int64 subtraction. */
  function Minus(a: int64, b: int64): int64 {
    ToInt64((a - b) % TWO64)
  }

  /** The input asset to give back when only pegYield of the PEG was granted. Errors are ignored. */
  function Refund(inputAmount: int64, pegYield: int64, inputRate: uint64, pegRate: uint64): (r: int64)
    ensures r >= 0
  {
    var maxPegYield := OrZero(Convert(inputAmount, inputRate, pegRate));
    OrZero(Convert(Minus(maxPegYield, pegYield), pegRate, inputRate))
  }

  // ---------- conversion ----------

  /** v is the largest amount at rate `to` that is worth no more than amount at rate `from`. */
  predicate Gives(amount: int, from: int, to: int, v: int) {
    v * to <= amount * from < (v + 1) * to
  }

  /** amount at rate `from` is worth less than d + 1 at rate `to`. */
  predicate Within(amount: int, from: int, to: int, d: int) {
    amount * from < (d + 1) * to
  }

  lemma ConvertGives(amount: int64, fromRate: uint64, toRate: uint64, v: int64)
    ensures Convert(amount, fromRate, toRate) == Ok(v) <==>
      amount >= 0 && fromRate > 0 && toRate > 0 && Gives(amount, fromRate, toRate, v)
  {
    if amount >= 0 && fromRate > 0 && toRate > 0 { Quotient(amount * fromRate, toRate, v); }
  }

  /** The result is the largest amount that is worth no more than what went in. */
  lemma ConvertIs(amount: int64, fromRate: uint64, toRate: uint64, v: int64)
    ensures Convert(amount, fromRate, toRate) == Ok(v) <==>
      amount >= 0 && fromRate > 0 && toRate > 0 && v * toRate <= amount * fromRate < (v + 1) * toRate
  {
    hide Convert;
    ConvertGives(amount, fromRate, toRate, v);
  }

  /** It fails exactly for a negative amount, a zero rate, or when 2^63 units would be worth no more. */
  lemma ConvertFails(amount: int64, fromRate: uint64, toRate: uint64)
    ensures Convert(amount, fromRate, toRate).Err? <==>
      amount < 0 || fromRate == 0 || toRate == 0 || TWO63 * toRate <= amount * fromRate
  {
    if amount >= 0 && fromRate > 0 && toRate > 0 {
      var n := amount * fromRate;
      var q := n / toRate;
      Quotient(n, toRate, q);
      if q >= TWO63 { Times(TWO63, q, toRate); } else { Times(q + 1, TWO63, toRate); }
    }
  }

  /** A detour over a third asset fails only where the direct way does, and never gives more. */
  lemma ConvertDetour(amount: int64, r1: uint64, r2: uint64, r3: uint64)
    requires Convert(amount, r1, r2).Ok? && Convert(amount, r1, r3).Ok?
    ensures Convert(Convert(amount, r1, r2).value, r2, r3).Ok?
    ensures Convert(Convert(amount, r1, r2).value, r2, r3).value <= Convert(amount, r1, r3).value
  {
    hide Convert, Gives, Within;
    var b, d := Convert(amount, r1, r2).value, Convert(amount, r1, r3).value;
    ConvertGives(amount, r1, r2, b);
    ConvertGives(amount, r1, r3, d);
    Detour(amount, r1, b, r2, r3, d);
    Value(b, r2, r3, d);
  }

  lemma Detour(a: int, r1: int, b: int, r2: int, r3: int, d: int)
    requires Gives(a, r1, r2, b) && Gives(a, r1, r3, d)
    ensures Within(b, r2, r3, d)
  {
  }

  /** A conversion whose result cannot exceed d succeeds. */
  lemma Value(amount: int64, fromRate: uint64, toRate: uint64, d: int64)
    requires amount >= 0 && fromRate > 0 && toRate > 0 && Within(amount, fromRate, toRate, d)
    ensures Convert(amount, fromRate, toRate).Ok? && 0 <= Convert(amount, fromRate, toRate).value <= d
  {
    Product(amount, fromRate);
    var n := amount * fromRate;
    var c := n / toRate;
    Quotient(n, toRate, c);
    Cancel(c, d, toRate);
  }

  /** There and back gives no more than went in, and loses less than one unit of each asset is worth. */
  lemma ConvertBack(amount: int64, r1: uint64, r2: uint64)
    requires Convert(amount, r1, r2).Ok?
    ensures var b := Convert(amount, r1, r2).value;
      && Convert(b, r2, r1).Ok?
      && Convert(b, r2, r1).value <= amount
      && (amount - Convert(b, r2, r1).value) * r1 < r1 + r2
  {
    hide Convert, Gives, Within;
    var b := Convert(amount, r1, r2).value;
    ConvertGives(amount, r1, r2, b);
    Itself(amount, r1);
    Detour(amount, r1, b, r2, r1, amount);
    Value(b, r2, r1, amount);
    var c := Convert(b, r2, r1).value;
    ConvertGives(b, r2, r1, c);
    Lost(amount, r1, b, r2, c);
  }

  lemma Itself(a: int, r: nat)
    requires r > 0
    ensures Gives(a, r, r, a)
  {
    assert (a + 1) * r == a * r + r;
  }

  lemma Lost(a: int, r1: int, b: int, r2: int, c: int)
    requires Gives(a, r1, r2, b) && Gives(b, r2, r1, c)
    ensures (a - c) * r1 < r1 + r2
  {
    assert (b + 1) * r2 == b * r2 + r2 && (c + 1) * r1 == c * r1 + r1 && (a - c) * r1 == a * r1 - c * r1;
  }

  // ---------- refund ----------

  /** The largest yield a request can be granted. */
  function MaxYield(inputAmount: int64, inputRate: uint64, pegRate: uint64): (m: int64)
    ensures m >= 0
  {
    OrZero(Convert(inputAmount, inputRate, pegRate))
  }

  /** For a yield in range the second conversion cannot overflow, and the refund is its exact value. */
  lemma RefundIs(inputAmount: int64, pegYield: int64, inputRate: uint64, pegRate: uint64)
    requires 0 <= pegYield <= MaxYield(inputAmount, inputRate, pegRate)
    ensures var left := MaxYield(inputAmount, inputRate, pegRate) - pegYield;
      && Convert(left, pegRate, inputRate).Ok? == (inputRate > 0 && pegRate > 0)
      && Refund(inputAmount, pegYield, inputRate, pegRate) == OrZero(Convert(left, pegRate, inputRate))
  {
    hide Convert;
    var m := MaxYield(inputAmount, inputRate, pegRate);
    var left: int64 := m - pegYield;
    assert Minus(m, pegYield) == left;
    if inputRate > 0 && pegRate > 0 {
      LeftFits(inputAmount, left, inputRate, pegRate);
    } else {
      ConvertFails(left, pegRate, inputRate);
    }
  }

  lemma LeftFits(inputAmount: int64, left: int64, inputRate: uint64, pegRate: uint64)
    requires 0 <= left <= MaxYield(inputAmount, inputRate, pegRate) && inputRate > 0 && pegRate > 0
    ensures Convert(left, pegRate, inputRate).Ok?
    ensures inputAmount >= 0 ==> Within(left, pegRate, inputRate, inputAmount)
  {
    hide Convert;
    var m := MaxYield(inputAmount, inputRate, pegRate);
    if m > 0 {
      ConvertGives(inputAmount, inputRate, pegRate, m);
      Times(left, m, pegRate);
      assert (inputAmount + 1) * inputRate == inputAmount * inputRate + inputRate;
      Value(left, pegRate, inputRate, inputAmount);
    } else {
      Value(0, pegRate, inputRate, 0);
      if inputAmount >= 0 {
        assert (inputAmount + 1) * inputRate == inputAmount * inputRate + inputRate;
        Product(inputAmount, inputRate);
      }
    }
  }

  /** What was yielded, converted back, and the refund together never exceed the input. */
  lemma RefundNeverExceeds(inputAmount: int64, pegYield: int64, inputRate: uint64, pegRate: uint64)
    requires inputAmount >= 0 && inputRate > 0 && pegRate > 0
    requires 0 <= pegYield <= MaxYield(inputAmount, inputRate, pegRate)
    ensures Convert(pegYield, pegRate, inputRate).Ok?
    ensures 0 <= Refund(inputAmount, pegYield, inputRate, pegRate)
    ensures Refund(inputAmount, pegYield, inputRate, pegRate) + Convert(pegYield, pegRate, inputRate).value <= inputAmount
  {
    hide Convert, Refund, MaxYield, Gives, Within;
    var m := MaxYield(inputAmount, inputRate, pegRate);
    RefundIs(inputAmount, pegYield, inputRate, pegRate);
    LeftFits(inputAmount, pegYield, inputRate, pegRate);
    LeftFits(inputAmount, m, inputRate, pegRate);
    var refund, back := Refund(inputAmount, pegYield, inputRate, pegRate), Convert(pegYield, pegRate, inputRate).value;
    ConvertGives(m - pegYield, pegRate, inputRate, refund);
    ConvertGives(pegYield, pegRate, inputRate, back);
    Both(refund, m - pegYield, back, pegYield, pegRate, inputRate, inputAmount);
  }

  lemma Both(a: int, x: int, b: int, y: int, p: nat, r: nat, d: int)
    requires Gives(x, p, r, a) && Gives(y, p, r, b) && Within(x + y, p, r, d)
    ensures a + b <= d
  {
    assert (a + b) * r == a * r + b * r && (x + y) * p == x * p + y * p;
    Cancel(a + b, d, r);
  }

  /** Nothing comes back for a full yield: the dust of the first conversion stays lost. More yield, less refund. */
  lemma RefundOrder(inputAmount: int64, y: int64, y': int64, inputRate: uint64, pegRate: uint64)
    requires 0 <= y <= y' <= MaxYield(inputAmount, inputRate, pegRate)
    ensures Refund(inputAmount, y', inputRate, pegRate) <= Refund(inputAmount, y, inputRate, pegRate)
    ensures y' == MaxYield(inputAmount, inputRate, pegRate) ==> Refund(inputAmount, y', inputRate, pegRate) == 0
  {
    hide Convert, Refund, MaxYield;
    var m := MaxYield(inputAmount, inputRate, pegRate);
    RefundIs(inputAmount, y, inputRate, pegRate);
    RefundIs(inputAmount, y', inputRate, pegRate);
    if inputRate > 0 && pegRate > 0 {
      var r := Refund(inputAmount, y, inputRate, pegRate);
      ConvertGives(m - y, pegRate, inputRate, r);
      Times(m - y', m - y, pegRate);
      Value(m - y', pegRate, inputRate, r);
      if y' == m { Value(0, pegRate, inputRate, 0); }
    }
  }

  /** A yield above the largest one gives no refund. */
  lemma RefundAbove(inputAmount: int64, pegYield: int64, inputRate: uint64, pegRate: uint64)
    requires pegYield > MaxYield(inputAmount, inputRate, pegRate)
    ensures Refund(inputAmount, pegYield, inputRate, pegRate) == 0
  {
    var m := MaxYield(inputAmount, inputRate, pegRate);
    assert Minus(m, pegYield) == m - pegYield < 0;
  }
}
