/**
 * The near-zero tests of the matrix engine and of the linear-system solver.
 *
 * The source compares rounded numbers with zero in two different ways:
 * `round(x, places) == 0` (Matrix.py) and `round2(x, places) == 0`
 * (LinearSystem.py, with `round2` from formatting.py). Both are stated here
 * on exact real numbers: floating-point representation error is not modelled.
 */
module Tolerance {

  function Abs(x: real): real {
    if x < 0.0 then -x else x
  }

  function Pow10(n: nat): (r: nat)
    ensures r >= 1
  {
    if n == 0 then 1 else 10 * Pow10(n - 1)
  }

  /**
   * `round(x, places) == 0`: Python rounds half to even, so a value exactly
   * half a unit of the last place away from zero rounds to zero.
   */
  predicate RoundsToZero(x: real, places: nat) {
    2.0 * Abs(x) * (Pow10(places) as real) <= 1.0
  }

  /**
   * `round2(x, places) == 0`: `round2` returns `round(x)` when `x` lies within
   * `0.1 ** places` of it, and `round(x, places)` otherwise; the result is
   * zero exactly when `x` rounds to the integer 0 and lies within
   * `0.1 ** places` of it.
   */
  predicate Round2IsZero(x: real, places: nat) {
    2.0 * Abs(x) <= 1.0 && Abs(x) * (Pow10(places) as real) < 1.0
  }

  /** Both tests accept an exact zero, so a value that fails either is not zero. */
  lemma ZeroIsNegligible(places: nat)
    ensures RoundsToZero(0.0, places) && Round2IsZero(0.0, places)
  {
  }
}
