/**
 * Nonlinear integer facts shared by the models of the training loop and of
 * the sample-space size: cancelling a positive factor, and exact division.
 */
module Arith {

  function Abs(x: int): int { if x < 0 then -x else x }

  /** Multiplication by a positive factor can be cancelled in a strict inequality. */
  lemma CancelFactor(p: int, x: int, y: int)
    requires p >= 1 && p * x < p * y
    ensures x < y
  {
  }

  /** A non-zero multiple of d is at least |d| away from zero. */
  lemma MultipleMagnitude(d: int, k: int)
    requires d != 0
    ensures k == 0 || d * k >= Abs(d) || d * k <= 0 - Abs(d)
  {
    if k >= 1 {
      if d > 0 { assert d * k >= d * 1; } else { assert d * k <= d * 1; }
    } else if k <= -1 {
      if d > 0 { assert d * k <= d * -1; } else { assert d * k >= d * -1; }
    }
  }

  /** Dividing a multiple of d by d is exact and gives back the factor. */
  lemma ExactDivision(d: int, q: int)
    requires d != 0
    ensures (d * q) / d == q && (d * q) % d == 0
    ensures (q * d) / d == q && (q * d) % d == 0
  {
    var a, r := (d * q) / d, (d * q) % d;
    assert d * q == d * a + r && 0 <= r < Abs(d);
    assert d * (q - a) == r;
    MultipleMagnitude(d, q - a);
  }
}
