/** Facts about integer division and multiplication that the solver does not find unaided. */
module Arithmetic {

  /** Integer division is determined by its defining equation. */
  lemma DivUnique(k: int, d: int, q: int, r: int)
    requires d > 0 && k == q * d + r && 0 <= r < d
    ensures k / d == q && k % d == r
  {
    var x := k / d - q;
    assert x * d == r - k % d;
    assert x >= 1 ==> x * d >= d;
    assert x <= -1 ==> x * d <= -d;
  }

  /** The quotient times the divisor is the largest multiple not above the dividend. */
  lemma DivBounds(n: int, d: int)
    requires d > 0
    ensures (n / d) * d <= n < (n / d) * d + d
  {
  }

  lemma MulMonotonic(a: int, b: int, c: nat)
    requires a <= b
    ensures a * c <= b * c
  {
  }

  lemma DivMonotonic(a: int, b: int, d: int)
    requires a <= b && d > 0
    ensures a / d <= b / d
  {
    var qa, qb := a / d, b / d;
    var x := qa - qb;
    assert x * d <= (a - a % d) - (b - b % d);
    assert x * d < d;
    assert x >= 1 ==> x * d >= d;
  }
}
