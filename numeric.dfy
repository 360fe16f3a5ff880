/**
 * Floating-point scalars as the outlier detectors see them. A statistic of
 * an empty column (its quantile, its mean) or the standard deviation of a
 * column with fewer than two values is NaN; any arithmetic involving NaN is
 * NaN, and any comparison with NaN is false. Infinities and rounding are not
 * modelled: a non-NaN scalar is an exact real.
 */
module Numeric {

  datatype Scalar = NaN | Num(v: real)

  /** `a + b` */
  function Add(a: Scalar, b: Scalar): Scalar {
    if a.Num? && b.Num? then Num(a.v + b.v) else NaN
  }

  /** `a - b` */
  function Sub(a: Scalar, b: Scalar): Scalar {
    if a.Num? && b.Num? then Num(a.v - b.v) else NaN
  }

  /** `a * k` for a plain (non-NaN) multiplier `k` */
  function Times(a: Scalar, k: real): Scalar {
    if a.Num? then Num(a.v * k) else NaN
  }

  /** The elementwise comparison `x < b`; false when `b` is NaN. */
  predicate Below(x: real, b: Scalar) {
    b.Num? && x < b.v
  }

  /** The elementwise comparison `x > b`; false when `b` is NaN. */
  predicate Above(x: real, b: Scalar) {
    b.Num? && x > b.v
  }
}
