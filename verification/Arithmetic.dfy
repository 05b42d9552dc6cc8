/**
 * Products, quotients and remainders, one law at a time: the solver is asked
 * for one nonlinear step per lemma, never for a chain of them.
 */
module Arithmetic {

  lemma MulDist(a: int, b: int, c: int)
    ensures a * (b + c) == a * b + a * c
  {
  }

  lemma MulOrder(m: nat, x: int, y: int)
    requires x <= y
    ensures m * x <= m * y
  {
    assert m * (y - x) >= 0;
  }

  lemma MultipleSize(m: int, k: int)
    requires m >= 1
    ensures k >= 1 ==> m * k >= m
    ensures k <= -1 ==> m * k <= -m
  {
    if k >= 1 {
      assert m * (k - 1) >= 0;
    } else if k <= -1 {
      assert m * (-1 - k) >= 0;
    }
  }

  lemma DivMod(x: int, m: int)
    requires m >= 1
    ensures x == m * (x / m) + x % m && 0 <= x % m < m
  {
  }

  /** The quotient and remainder of a number are the only ones. */
  lemma DivModIs(x: int, m: int, q: int, r: int)
    requires m >= 1 && 0 <= r < m && x == m * q + r
    ensures x / m == q && x % m == r
  {
    var (q', r') := (x / m, x % m);
    DivMod(x, m);
    MulDist(m, q', -q);
    assert m * (q' - q) == r - r';
    MultipleSize(m, q' - q);
  }

  /** A quotient is at least `q` exactly when the number is at least `q` divisors. */
  lemma DivAtLeast(x: int, m: int, q: int)
    requires m >= 1
    ensures x / m >= q <==> x >= m * q
  {
    DivMod(x, m);
    MulDist(m, x / m, -q);
    assert m * (x / m - q) == x - x % m - m * q;
    MultipleSize(m, x / m - q);
  }
}
