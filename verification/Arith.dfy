/** Multiplication and division facts the solver needs spelled out. */
module Arith {

  /** Different multiples of `n` are at least `n` apart. */
  lemma {:induction false} Multiples(a: nat, b: nat, n: nat)
    ensures a < b ==> a * n + n <= b * n
    ensures a <= b ==> a * n <= b * n
    decreases b
  {
    if a < b {
      Multiples(a, b - 1, n);
      assert b * n == (b - 1) * n + n;
    }
  }

  /** Quotient and remainder are unique. */
  lemma DivisionIs(x: nat, n: nat, q: nat, r: nat)
    requires x == q * n + r && r < n
    ensures x / n == q && x % n == r
  {
    assert x == x / n * n + x % n;
    Multiples(x / n, q, n);
    Multiples(q, x / n, n);
  }

  lemma QuotientAtLeast(x: nat, n: nat, q: nat)
    requires 0 < n && q * n <= x
    ensures q <= x / n
  {
    assert x == x / n * n + x % n;
    Multiples(x / n, q, n);
  }

  lemma QuotientBelow(x: nat, n: nat, q: nat)
    requires 0 < n && x < q * n
    ensures x / n < q
  {
    assert x == x / n * n + x % n;
    Multiples(q, x / n, n);
  }

  /** Dividing multiples of `a` by a multiple of `a`. */
  lemma ScaledDivision(x: nat, a: nat, m: nat)
    requires 0 < a && 0 < m
    ensures 0 < a * m && x * a / (a * m) == x / m && x * a % (a * m) == x % m * a && x % m * a + a <= a * m
  {
    var q, r := x / m, x % m;
    Multiples(r, m, a);
    Distributes(q, m, r, a);
    DivisionIs(x * a, a * m, q, r * a);
  }

  lemma Distributes(q: nat, m: nat, r: nat, a: nat)
    ensures (q * m + r) * a == q * (a * m) + r * a
  {
  }
}
