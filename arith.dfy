// Facts about multiplication and integer division by a positive divisor,
// proved from the division identity so that no proof depends on the solver's
// nonlinear arithmetic.

module Arith {

  lemma MulMono(n: nat, x: int, y: int)
    requires x <= y
    ensures n * x <= n * y
  {
    assert n * y - n * x == n * (y - x);
  }

  lemma MulCancel(n: nat, x: int, y: int)
    requires n * x < n * y
    ensures x < y
  {
    if x >= y {
      MulMono(n, y, x);
    }
  }

  /** Dividing by a positive number preserves order. */
  lemma DivMono(a: int, b: int, n: nat)
    requires n > 0 && a <= b
    ensures a / n <= b / n
  {
    assert n * (a / n) + a % n == a;
    assert n * (b / n) + b % n == b;
    assert n * (b / n + 1) == n * (b / n) + n;
    MulCancel(n, a / n, b / n + 1);
  }

  /** The quotient is the q with n * q <= a < n * (q + 1). */
  lemma DivBetween(a: int, n: nat, q: int)
    requires n > 0 && n * q <= a < n * (q + 1)
    ensures a / n == q
  {
    assert n * (a / n) + a % n == a;
    assert n * (a / n + 1) == n * (a / n) + n;
    MulCancel(n, q, a / n + 1);
    MulCancel(n, a / n, q + 1);
  }

  /** a / n is at most b when a is at most n * b. */
  lemma DivAtMost(a: int, n: nat, b: int)
    requires n > 0 && a <= n * b
    ensures a / n <= b
  {
    assert n * (a / n) + a % n == a;
    assert n * (a / n) <= n * b;
    if a / n > b {
      MulMono(n, b + 1, a / n);
    }
  }
}
