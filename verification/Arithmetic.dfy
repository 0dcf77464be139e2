/** Natural numbers as the planners use them: cut-off subtraction, division with remainder. */
module Arithmetic {
  /** Subtraction that stops at zero. */
  function Minus(a: nat, b: nat): nat { if a >= b then a - b else 0 }

  function Least(a: nat, b: nat): nat { if a <= b then a else b }

  function Larger(a: nat, b: nat): nat { if a < b then b else a }

  lemma {:induction false} MulGap(n: nat, a: nat, b: nat)
    requires a < b
    ensures n * a + n <= n * b
    decreases b
  {
    assert n * b == n * (b - 1) + n;
    if a + 1 < b {
      MulGap(n, a, b - 1);
    }
  }

  lemma Quotient(n: nat, a: nat, x: nat, b: nat, y: nat)
    requires n * a + x == n * b + y && x < n && y < n
    ensures a == b && x == y
  {
    if a < b {
      MulGap(n, a, b);
    } else if b < a {
      MulGap(n, b, a);
    }
  }

  /** Quotient and remainder are determined by the division equation. */
  lemma Divides(k: nat, n: nat, q: nat, x: nat)
    requires x < n && k == n * q + x
    ensures k / n == q && k % n == x
  {
    Quotient(n, k / n, k % n, q, x);
  }

  lemma DivStep(m: nat, n: nat)
    requires n > 0
    ensures (m + 1) % n == if m % n + 1 == n then 0 else m % n + 1
    ensures (m + 1) / n == m / n + if m % n + 1 == n then 1 else 0
  {
    if m % n + 1 == n {
      assert m + 1 == n * (m / n + 1);
      Divides(m + 1, n, m / n + 1, 0);
    } else {
      Divides(m + 1, n, m / n, m % n + 1);
    }
  }
}
