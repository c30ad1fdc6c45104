/** Facts about Euclidean division and multiplication that the solver does
    not find on its own. */
module Arithmetic {

  lemma MulNonneg(a: int, b: int)
    requires a >= 0 && b >= 0
    ensures a * b >= 0
  {
  }

  lemma MulBound(t: int, d: int)
    requires d >= 1
    ensures t >= 1 ==> t * d >= d
    ensures t <= -1 ==> t * d <= -d
  {
  }

  /** Euclidean division is unique: a quotient and a remainder in [0, d)
      that rebuild `n` are `n / d` and `n % d`. */
  lemma DivModUnique(n: int, d: int, q: int, r: int)
    requires d >= 1 && 0 <= r < d && n == q * d + r
    ensures n / d == q && n % d == r
  {
    var q', r' := n / d, n % d;
    assert n == q' * d + r';
    assert (q - q') * d == r' - r by {
      assert (q - q') * d == q * d - q' * d;
    }
    MulBound(q - q', d);
  }

  lemma DivStep(x: int, d: int)
    requires x >= 0 && d >= 1
    ensures (x + d) / d == x / d + 1
    ensures (x + d) % d == x % d
  {
    assert x == (x / d) * d + x % d;
    assert x + d == (x / d + 1) * d + x % d;
    DivModUnique(x + d, d, x / d + 1, x % d);
  }

  lemma DivOne(x: int, d: int)
    requires d <= x < 2 * d
    ensures x / d == 1
  {
  }

  lemma DivAtLeast(n: int, d: int, q: int)
    requires d >= 1 && n >= q * d
    ensures n / d >= q
  {
    var m := n - q * d;
    var qm, rm := m / d, m % d;
    assert m == qm * d + rm;
    MulBound(qm, d);
    assert n == (q + qm) * d + rm;
    DivModUnique(n, d, q + qm, rm);
  }

  lemma MulMod(q: int, d: int)
    requires d >= 1
    ensures (q * d) % d == 0
  {
    DivModUnique(q * d, d, q, 0);
  }

  lemma MulMonotone(a: int, b: int, d: int)
    requires a <= b && d >= 0
    ensures a * d <= b * d
  {
    assert b * d - a * d == (b - a) * d;
    MulNonneg(b - a, d);
  }

  /** `n / d >= q` exactly when `n >= q * d`. */
  lemma DivAtLeastIff(n: int, d: int, q: int)
    requires d >= 1
    ensures n / d >= q <==> n >= q * d
  {
    if n >= q * d {
      DivAtLeast(n, d, q);
    }
    if n / d >= q {
      assert n == (n / d) * d + n % d;
      MulMonotone(q, n / d, d);
    }
  }

  /** Below twice the divisor, the remainder subtracts the divisor at most once. */
  lemma ModWrap(x: int, d: int)
    requires d >= 1 && 0 <= x < 2 * d
    ensures x % d == if x < d then x else x - d
  {
  }
}
