/** Numeric helpers shared by the engine. */
module Numeric {

  /** `np.clip(x, lo, hi)` on a scalar: `minimum(maximum(x, lo), hi)`. */
  function Clip(x: real, lo: real, hi: real): (r: real)
    ensures lo <= hi ==> lo <= r <= hi
    ensures lo <= x <= hi ==> r == x
    ensures lo <= hi && x <= lo ==> r == lo
    ensures x >= hi ==> r == hi
  {
    var up := if x < lo then lo else x;
    if up > hi then hi else up
  }

  /** Clipping never reverses the order of two inputs. */
  lemma ClipMonotone(x: real, y: real, lo: real, hi: real)
    requires x <= y
    ensures Clip(x, lo, hi) <= Clip(y, lo, hi)
  {
  }

  /** Dividing by a positive number keeps order. */
  lemma DivideMonotone(x: real, y: real, d: real)
    requires x <= y && d > 0.0
    ensures x / d <= y / d
  {
    assert y / d - x / d == (y - x) / d;
  }

  /** Multiplying a quotient back by its divisor gives the dividend. */
  lemma QuotientTimesDivisor(x: real, d: real)
    requires d != 0.0
    ensures x / d * d == x
  {
  }
}
