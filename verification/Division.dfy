/** Products and quotients of natural numbers, compared without the solver's own arithmetic. */
module Division {

  lemma Product(a: nat, b: nat)
    ensures a * b >= 0
  {
  }

  lemma Times(a: int, b: int, d: nat)
    requires a <= b
    ensures a * d <= b * d
  {
    Product(b - a, d);
    assert (b - a) * d == b * d - a * d;
  }

  lemma Cancel(a: int, b: int, d: nat)
    requires a * d < (b + 1) * d
    ensures a <= b
  {
    if a >= b + 1 { Times(b + 1, a, d); }
  }

  lemma Quotient(n: nat, d: nat, q: int)
    requires d > 0
    ensures n / d == q <==> q * d <= n < (q + 1) * d
    ensures n / d >= 0
  {
    var k := n / d;
    assert n == k * d + n % d;
    assert k * d <= n < (k + 1) * d;
    if q * d <= n < (q + 1) * d {
      Cancel(q, k, d);
      Cancel(k, q, d);
    }
  }

  lemma DivideTwice(n: nat, a: nat, b: nat)
    requires a > 0 && b > 0
    ensures a * b > 0 && n / a / b == n / (a * b)
  {
    var m, q := n / a, n / a / b;
    Product(a, b);
    assert a * b > 0 by { Times(1, a, b); }
    Quotient(n, a, m);
    Quotient(m, b, q);
    Times(q * b, m, a);
    Times(m + 1, (q + 1) * b, a);
    assert q * b * a == q * (a * b) && (q + 1) * b * a == (q + 1) * (a * b);
    Quotient(n, a * b, q);
  }
}
