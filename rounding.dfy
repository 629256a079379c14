/** JavaScript's `Math.round` applied to an exact fraction.  The original code rounds
    quotients such as `(matched / total) * 50`; here every such quotient is kept exact as
    a numerator over a positive denominator, so no floating-point error enters. */
module Rounding {

  /** `Math.round(p / q)`: the integer nearest to p/q, halves rounded up (towards
      +infinity), which is floor(p/q + 1/2).  With a positive divisor Dafny's `/` is floor
      division, so floor((2p + q) / 2q) is that value. */
  function Round(p: int, q: int): (r: int)
    requires q > 0
    ensures q * (2 * r - 1) <= 2 * p < q * (2 * r + 1)
    ensures p >= 0 ==> r >= 0
  {
    (2 * p + q) / (2 * q)
  }

  /** `Math.round((hits / total) * points)`: a share of hits out of a positive total, as
      whole points. */
  function Share(hits: nat, total: nat, points: nat): (r: int)
    requires 0 < total && hits <= total
    ensures total * (2 * r - 1) <= 2 * points * hits < total * (2 * r + 1)
    ensures 0 <= r <= points
  {
    RoundBetween(points * hits, total, 0, points);
    Round(points * hits, total)
  }

  /** q * a <= q * b whenever a <= b and q is positive. */
  lemma MulMonotone(q: int, a: int, b: int)
    requires q > 0 && a <= b
    ensures q * a <= q * b
  {
    assert q * b - q * a == q * (b - a);
  }

  /** The nearest integer to p/q lies between lo and hi when p/q does. */
  lemma {:induction false} RoundBetween(p: int, q: int, lo: int, hi: int)
    requires q > 0 && lo * q <= p <= hi * q
    ensures lo <= Round(p, q) <= hi
  {
    var r := Round(p, q);
    if r > hi {
      MulMonotone(q, 2 * hi + 1, 2 * r - 1);
      assert false;
    }
    if r < lo {
      MulMonotone(q, 2 * r + 1, 2 * lo - 1);
      assert false;
    }
  }

  /** A whole quotient is its own rounding: round((k * q) / q) = k. */
  lemma {:induction false} RoundWhole(k: int, q: int)
    requires q > 0
    ensures Round(k * q, q) == k
  {
    RoundBetween(k * q, q, k, k);
  }

  /** Rounding never reverses the order of two fractions over the same denominator. */
  lemma {:induction false} RoundMonotone(p1: int, p2: int, q: int)
    requires q > 0 && p1 <= p2
    ensures Round(p1, q) <= Round(p2, q)
  {
    var r1, r2 := Round(p1, q), Round(p2, q);
    if r1 > r2 {
      MulMonotone(q, 2 * r2 + 1, 2 * r1 - 1);
      assert false;
    }
  }

  /** Rounding a fraction and rounding its double differ by at most one after doubling the
      first: a score out of 50 and the matching percentage agree. */
  lemma {:induction false} RoundDouble(p: int, q: int)
    requires q > 0
    ensures 2 * Round(p, q) - 1 <= Round(2 * p, q) <= 2 * Round(p, q) + 1
  {
    var r, t := Round(p, q), Round(2 * p, q);
    if t > 2 * r + 1 {
      MulMonotone(q, 4 * r + 2, 2 * t - 1);
      assert false;
    }
    if t < 2 * r - 1 {
      MulMonotone(q, 2 * t + 1, 4 * r - 2);
      assert false;
    }
  }
}
