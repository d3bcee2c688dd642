/** Rounding to two decimal places as `round(x, 2)` does on a numpy double:
    scale by 100, round to the nearest integer with ties going to the even
    neighbour, scale back. Carried out here on the exact real value. */
module Rounding {

  /** The nearest integer to `x`; an exact tie goes to the even neighbour. */
  function RoundHalfEven(x: real): (n: int)
    ensures -0.5 <= n as real - x <= 0.5
    ensures (n as real - x == 0.5 || x - n as real == 0.5) ==> n % 2 == 0
  {
    var f := x.Floor;
    var frac := x - f as real;
    if frac < 0.5 then f
    else if frac > 0.5 then f + 1
    else if f % 2 == 0 then f
    else f + 1
  }

  /** The two ensures of RoundHalfEven pin its result down: no other integer
      is within one half of `x` and also wins the tie. */
  lemma RoundHalfEvenUnique(x: real, n: int)
    requires -0.5 <= n as real - x <= 0.5
    requires (n as real - x == 0.5 || x - n as real == 0.5) ==> n % 2 == 0
    ensures n == RoundHalfEven(x)
  {
  }

  /** Rounding never moves a larger value below a smaller one. */
  lemma RoundHalfEvenMonotone(x: real, y: real)
    requires x <= y
    ensures RoundHalfEven(x) <= RoundHalfEven(y)
  {
    if x.Floor < y.Floor {
      assert x.Floor + 1 <= y.Floor;
    }
  }

  /** `r` is a whole number of hundredths. */
  predicate IsCents(r: real) {
    (100.0 * r).Floor as real == 100.0 * r
  }

  /** Python `round(x, 2)` on the exact value of `x`. */
  function Round2(x: real): (r: real)
    ensures IsCents(r)
    ensures -0.005 <= r - x <= 0.005
  {
    var y := 100.0 * x;
    var n := RoundHalfEven(y);
    var r := n as real / 100.0;
    assert 100.0 * r == n as real;
    assert r - x == (n as real - y) / 100.0;
    r
  }

  /** Rounding to two places is monotone. */
  lemma Round2Monotone(x: real, y: real)
    requires x <= y
    ensures Round2(x) <= Round2(y)
  {
    RoundHalfEvenMonotone(100.0 * x, 100.0 * y);
  }

  /** A value already in whole hundredths is left unchanged. */
  lemma Round2Fixes(x: real)
    requires IsCents(x)
    ensures Round2(x) == x
  {
    var k := (100.0 * x).Floor;
    RoundHalfEvenUnique(100.0 * x, k);
  }

  /** Rounding a value inside [lo, hi] with both ends in whole hundredths
      stays inside [lo, hi]. */
  lemma Round2StaysBetween(lo: real, x: real, hi: real)
    requires IsCents(lo) && IsCents(hi)
    requires lo <= x <= hi
    ensures lo <= Round2(x) <= hi
  {
    Round2Monotone(lo, x);
    Round2Monotone(x, hi);
    Round2Fixes(lo);
    Round2Fixes(hi);
  }
}
