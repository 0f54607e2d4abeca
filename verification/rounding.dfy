/** Python 2 `int(round(x))`: rounding to the nearest integer, halves away from zero. */
module Rounding {

  /** `n` is an integer nearest to `x`; of two equally near integers it is the
      one farther from zero. */
  predicate IsRounding(x: real, n: int) {
    && (n as real) - x <= 0.5
    && x - (n as real) <= 0.5
    && (x >= 0.0 ==> x - (n as real) < 0.5)
    && (x <= 0.0 ==> (n as real) - x < 0.5)
  }

  /** `int(round(x))` in Python 2. `round` returns an integral float and `int`
      converts it exactly, so the composite is the nearest integer to `x`,
      with a tie resolved away from zero. */
  function Round(x: real): (n: int)
    ensures IsRounding(x, n)
  {
    if x >= 0.0 then (x + 0.5).Floor else -((-x + 0.5).Floor)
  }

  /** Exactly one integer is a rounding of `x`, so the contract of `Round`
      determines its result. */
  lemma RoundUnique(x: real, n: int)
    requires IsRounding(x, n)
    ensures Round(x) == n
  {
    var r := Round(x);
    assert -1.0 < (r as real) - (n as real) < 1.0;
  }

  /** Rounding never reverses the order of its arguments. */
  lemma RoundMonotone(x: real, y: real)
    requires x <= y
    ensures Round(x) <= Round(y)
  {
  }

  /** Rounding keeps integers as they are. */
  lemma RoundOfInt(k: int)
    ensures Round(k as real) == k
  {
    RoundUnique(k as real, k);
  }
}
