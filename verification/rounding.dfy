/**
  The two roundings the program applies to computed values, over the reals:
  `+x.toFixed(3)` (three decimals, ties away from zero) and `Math.round`
  (nearest integer, ties towards +infinity).
 */
module Rounding {

  /** `toFixed(3)` on a non-negative value: the nearest multiple of 1/1000, the larger one on a tie. */
  function FixNonNegative(x: real): (r: real)
    requires x >= 0.0
    ensures r >= 0.0
    ensures x - 0.0005 < r <= x + 0.0005
  {
    ((x * 1000.0 + 0.5).Floor as real) / 1000.0
  }

  /**
    `+x.toFixed(3)`: the sign is set aside, the magnitude rounded to three
    decimals with ties away from zero, and the sign put back.
   */
  function ToFixed3(x: real): (r: real)
    ensures -0.0005 <= r - x <= 0.0005
    ensures x >= 0.0 ==> r >= 0.0
    ensures x <= 0.0 ==> r <= 0.0
    ensures x <= 1.0 ==> r <= 1.0
  {
    if x < 0.0 then -FixNonNegative(-x) else FixNonNegative(x)
  }

  /**
    The rounded value is the multiple of 1/1000 within half a thousandth of
    `x`, the one farther from zero on a tie.
   */
  lemma ToFixed3Nearest(x: real, n: int)
    requires x >= 0.0 && n as real / 1000.0 - 0.0005 <= x < n as real / 1000.0 + 0.0005
    ensures ToFixed3(x) == n as real / 1000.0
  {
    assert n as real <= x * 1000.0 + 0.5 < n as real + 1.0;
    assert (x * 1000.0 + 0.5).Floor == n;
  }

  /** Rounding is symmetric about zero. */
  lemma ToFixed3Odd(x: real)
    ensures ToFixed3(-x) == -ToFixed3(x)
  {
  }

  /** Rounding never reverses an order. */
  lemma ToFixed3Monotonic(x: real, y: real)
    requires x <= y
    ensures ToFixed3(x) <= ToFixed3(y)
  {
    if 0.0 <= x {
      FloorMonotonic(x * 1000.0 + 0.5, y * 1000.0 + 0.5);
    } else if y < 0.0 {
      FloorMonotonic(-y * 1000.0 + 0.5, -x * 1000.0 + 0.5);
    }
  }

  /** `Floor` never reverses an order. */
  lemma FloorMonotonic(a: real, b: real)
    requires a <= b
    ensures a.Floor <= b.Floor
  {
    assert a.Floor as real <= a <= b;
  }

  /** A value already on three decimals is kept as it is. */
  lemma ToFixed3Exact(n: int)
    ensures ToFixed3(n as real / 1000.0) == n as real / 1000.0
  {
    var x := n as real / 1000.0;
    if n >= 0 {
      ToFixed3Nearest(x, n);
    } else {
      ToFixed3Nearest(-x, -n);
    }
  }

  /** The upper end of the normalised range is kept exactly. */
  lemma ToFixed3One()
    ensures ToFixed3(1.0) == 1.0
  {
    ToFixed3Nearest(1.0, 1000);
  }

  /** A non-negative value keeps a positive rounding exactly when it is at least half a thousandth. */
  lemma ToFixed3Positive(x: real)
    requires x >= 0.0
    ensures ToFixed3(x) > 0.0 <==> x >= 0.0005
  {
    if x >= 0.0005 {
      FloorMonotonic(1.0, x * 1000.0 + 0.5);
    }
  }

  /** `Math.round`: the integer nearest to `x`, the larger one on a tie. */
  function MathRound(x: real): (r: int)
    ensures r as real - 0.5 <= x < r as real + 0.5
  {
    (x + 0.5).Floor
  }

  /** `Math.round` gives the one integer within half a unit of `x`, ties going up. */
  lemma MathRoundUnique(x: real, n: int)
    requires n as real - 0.5 <= x < n as real + 0.5
    ensures MathRound(x) == n
  {
  }

  /** A value in [0, 100] rounds to an integer in 0..100. */
  lemma MathRoundPercent(x: real)
    requires 0.0 <= x <= 100.0
    ensures 0 <= MathRound(x) <= 100
  {
  }
}
