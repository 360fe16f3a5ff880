/**
 * The column statistics the detectors call: `Series.mean`, `Series.std` (only
 * its defining property, see IsStd) and `Series.quantile` with its default
 * linear interpolation, which is definition 7 of Hyndman and Fan (1996).
 */
module Stats {
  import opened Numeric

  /** The error `Series.quantile` raises for a probability outside [0, 1]. */
  datatype Error = PercentileOutOfRange(q: real)

  datatype Result<T> = Ok(value: T) | Err(error: Error)

  function Sum(xs: seq<real>): real {
    if |xs| == 0 then 0.0 else xs[0] + Sum(xs[1..])
  }

  /** `Series.mean`: the sum over the count, NaN exactly for an empty column. */
  function Mean(xs: seq<real>): (r: Scalar)
    ensures r.Num? <==> |xs| > 0
  {
    if |xs| == 0 then NaN else Num(Sum(xs) / |xs| as real)
  }

  /** The mean of a non-empty column lies between its minimum and maximum. */
  lemma MeanBetween(xs: seq<real>)
    requires |xs| > 0
    ensures Min(xs) <= Mean(xs).v <= Max(xs)
  {
    MeanWithin(xs, Min(xs), Max(xs));
  }

  /** When every value lies in `[lo, hi]`, so does the mean. */
  lemma MeanWithin(xs: seq<real>, lo: real, hi: real)
    requires |xs| > 0
    requires forall i :: 0 <= i < |xs| ==> lo <= xs[i] <= hi
    ensures lo <= Mean(xs).v <= hi
  {
    SumBetween(xs, lo, hi);
    DivideBetween(Sum(xs), |xs| as real, lo, hi);
  }

  /** A sum of values in `[lo, hi]` lies between `n * lo` and `n * hi`. */
  lemma {:induction false} SumBetween(xs: seq<real>, lo: real, hi: real)
    requires forall i :: 0 <= i < |xs| ==> lo <= xs[i] <= hi
    ensures |xs| as real * lo <= Sum(xs) <= |xs| as real * hi
  {
    if |xs| > 0 {
      SumBetween(xs[1..], lo, hi);
      assert |xs| as real * lo == lo + (|xs| - 1) as real * lo;
      assert |xs| as real * hi == hi + (|xs| - 1) as real * hi;
    }
  }

  lemma DivideBetween(s: real, n: real, lo: real, hi: real)
    requires n > 0.0 && n * lo <= s <= n * hi
    ensures lo <= s / n <= hi
  {
    var q := s / n;
    assert q * n == s;
    if q < lo { MulStrict(q, lo, n); }
    if q > hi { MulStrict(hi, q, n); }
  }

  /** The sum of the squared distances of the values from `m`. */
  function SquaredDeviation(xs: seq<real>, m: real): (r: real)
    ensures r >= 0.0
  {
    if |xs| == 0 then 0.0
    else
      SquareNonNegative(xs[0] - m);
      (xs[0] - m) * (xs[0] - m) + SquaredDeviation(xs[1..], m)
  }

  lemma SquareNonNegative(d: real)
    ensures d * d >= 0.0
  {
    if d >= 0.0 { MulLeft(0.0, d, d); } else { MulLeft(0.0, -d, -d); }
  }

  /**
   * The sample variance with pandas' default `ddof=1` (denominator n - 1);
   * NaN for fewer than two values.
   */
  function Variance(xs: seq<real>): (r: Scalar)
    ensures r.Num? <==> |xs| >= 2
    ensures r.Num? ==> r.v >= 0.0
  {
    if |xs| <= 1 then NaN
    else Num(SquaredDeviation(xs, Mean(xs).v) / (|xs| - 1) as real)
  }

  /**
   * `sigma` is what `Series.std` returns for `xs`: NaN when the variance is
   * NaN, otherwise the non-negative square root of the sample variance.
   */
  predicate IsStd(xs: seq<real>, sigma: Scalar) {
    match Variance(xs)
    case NaN => sigma == NaN
    case Num(var2) => sigma.Num? && sigma.v >= 0.0 && sigma.v * sigma.v == var2
  }

  /** Every value of the column equals `c`. */
  predicate Constant(xs: seq<real>, c: real) {
    forall i :: 0 <= i < |xs| ==> xs[i] == c
  }

  lemma {:induction false} SumOfConstant(xs: seq<real>, c: real)
    requires Constant(xs, c)
    ensures Sum(xs) == |xs| as real * c
  {
    if |xs| > 0 {
      SumOfConstant(xs[1..], c);
    }
  }

  lemma {:induction false} SquaredDeviationOfConstant(xs: seq<real>, c: real)
    requires Constant(xs, c)
    ensures SquaredDeviation(xs, c) == 0.0
  {
    if |xs| > 0 {
      SquaredDeviationOfConstant(xs[1..], c);
    }
  }

  /**
   * A constant column has that constant as its mean and, with at least two
   * values, a standard deviation of zero.
   */
  lemma ConstantColumnStatistics(xs: seq<real>, c: real, sigma: Scalar)
    requires Constant(xs, c) && IsStd(xs, sigma)
    ensures |xs| > 0 ==> Mean(xs) == Num(c)
    ensures sigma == if |xs| <= 1 then NaN else Num(0.0)
  {
    SumOfConstant(xs, c);
    if |xs| > 0 {
      var n := |xs| as real;
      assert Sum(xs) / n == c;
    }
    if |xs| >= 2 {
      SquaredDeviationOfConstant(xs, c);
      assert Variance(xs) == Num(0.0);
      ZeroSquare(sigma.v, sigma.v);
    }
  }

  /** A non-negative `x` whose square `x * y` (with `y == x`) is zero is zero itself. */
  lemma ZeroSquare(x: real, y: real)
    requires x >= 0.0 && y == x && x * y == 0.0
    ensures x == 0.0
  {
    if x > 0.0 {
      MulStrict(0.0, x, y);
    }
  }

  lemma MulStrict(a: real, b: real, c: real)
    requires a < b && c > 0.0
    ensures a * c < b * c
  {
  }

  /** Every value is at most the next: `s[i] <= s[j]` whenever `i <= j`. */
  predicate Sorted(s: seq<real>) {
    forall i, j :: 0 <= i <= j < |s| ==> s[i] <= s[j]
  }

  lemma SortedCons(a: real, s: seq<real>)
    requires Sorted(s)
    requires forall y :: y in s ==> a <= y
    ensures Sorted([a] + s)
  {
    var r := [a] + s;
    forall i, j | 0 <= i <= j < |r| ensures r[i] <= r[j] {
      if i > 0 {
        assert r[i] == s[i - 1] && r[j] == s[j - 1];
      } else if j > 0 {
        assert r[j] == s[j - 1] && s[j - 1] in s;
      }
    }
  }

  function Insert(x: real, s: seq<real>): (r: seq<real>)
    requires Sorted(s)
    ensures Sorted(r)
    ensures multiset(r) == multiset(s) + multiset{x}
  {
    if |s| == 0 then [x]
    else if x <= s[0] then
      SortedCons(x, s);
      [x] + s
    else
      assert s == [s[0]] + s[1..];
      var r' := Insert(x, s[1..]);
      assert forall y :: y in r' ==> y in multiset(s[1..]) + multiset{x};
      SortedCons(s[0], r');
      [s[0]] + r'
  }

  /** The column in ascending order, as quantile interpolation reads it. */
  function Sort(xs: seq<real>): (r: seq<real>)
    ensures Sorted(r)
    ensures multiset(r) == multiset(xs)
  {
    if |xs| == 0 then []
    else
      assert xs == [xs[0]] + xs[1..];
      Insert(xs[0], Sort(xs[1..]))
  }

  /** Sorting a column that is already in ascending order leaves it unchanged. */
  lemma {:induction false} SortOfSorted(xs: seq<real>)
    requires Sorted(xs)
    ensures Sort(xs) == xs
  {
    if |xs| > 0 {
      SortOfSorted(xs[1..]);
      assert xs == [xs[0]] + xs[1..];
    }
  }

  /** The smallest value of a non-empty column. */
  function Min(xs: seq<real>): (m: real)
    requires |xs| > 0
    ensures m in xs
    ensures forall i :: 0 <= i < |xs| ==> m <= xs[i]
  {
    if |xs| == 1 then xs[0]
    else
      var rest := Min(xs[1..]);
      assert forall i :: 1 <= i < |xs| ==> xs[i] == xs[1..][i - 1];
      if xs[0] <= rest then xs[0] else rest
  }

  /** The largest value of a non-empty column. */
  function Max(xs: seq<real>): (m: real)
    requires |xs| > 0
    ensures m in xs
    ensures forall i :: 0 <= i < |xs| ==> xs[i] <= m
  {
    if |xs| == 1 then xs[0]
    else
      var rest := Max(xs[1..]);
      assert forall i :: 1 <= i < |xs| ==> xs[i] == xs[1..][i - 1];
      if xs[0] >= rest then xs[0] else rest
  }

  /** The point a fraction `t` of the way from `lo` to `hi`. */
  function Lerp(lo: real, hi: real, t: real): (r: real)
    requires lo <= hi && 0.0 <= t <= 1.0
    ensures lo <= r <= hi
  {
    var d := hi - lo;
    MulLeft(t, 1.0, d);
    MulLeft(0.0, t, d);
    assert 1.0 * d == d && 0.0 * d == 0.0;
    lo + t * d
  }

  lemma LerpMonotone(lo: real, hi: real, t1: real, t2: real)
    requires lo <= hi && 0.0 <= t1 <= t2 <= 1.0
    ensures Lerp(lo, hi, t1) <= Lerp(lo, hi, t2)
  {
    var d := hi - lo;
    calc {
      Lerp(lo, hi, t1);
    ==
      lo + t1 * d;
    <= { MulLeft(t1, t2, d); }
      lo + t2 * d;
    ==
      Lerp(lo, hi, t2);
    }
  }

  lemma MulRight(c: real, a: real, b: real)
    requires a <= b && c >= 0.0
    ensures c * a <= c * b
  {
  }

  lemma MulLeft(a: real, b: real, c: real)
    requires a <= b && c >= 0.0
    ensures a * c <= b * c
  {
  }

  /**
   * The value a fraction `t` of the way from `s[j]` to `s[j + 1]` of a sorted
   * column, or the last value when `j` is the last position.
   */
  function Segment(s: seq<real>, j: nat, t: real): (r: real)
    requires j < |s| && Sorted(s) && 0.0 <= t < 1.0
    ensures s[0] <= r <= s[|s| - 1]
  {
    if j == |s| - 1 then s[j]
    else
      assert s[0] <= s[j] && s[j + 1] <= s[|s| - 1];
      Lerp(s[j], s[j + 1], t)
  }

  /** Segments compare as their positions `(j, t)` do, lexicographically. */
  lemma SegmentMonotone(s: seq<real>, j1: nat, t1: real, j2: nat, t2: real)
    requires j1 <= j2 < |s| && Sorted(s) && 0.0 <= t1 < 1.0 && 0.0 <= t2 < 1.0
    requires j1 == j2 ==> t1 <= t2
    ensures Segment(s, j1, t1) <= Segment(s, j2, t2)
  {
    if j2 < |s| - 1 {
      if j1 == j2 {
        LerpMonotone(s[j1], s[j1 + 1], t1, t2);
      } else {
        assert s[j1 + 1] <= s[j2];
      }
    }
  }

  /** Splitting a position into whole and fractional parts keeps its order. */
  lemma FloorMonotone(h1: real, h2: real)
    requires h1 <= h2
    ensures h1.Floor <= h2.Floor
    ensures h1.Floor == h2.Floor ==> h1 - h1.Floor as real <= h2 - h2.Floor as real
  {
  }

  /** The whole part of a position in [0, n - 1] is a valid index, and its fractional part lies in [0, 1). */
  lemma FractionalPart(h: real, n: nat)
    requires 0.0 <= h <= (n - 1) as real
    ensures 0 <= h.Floor < n
    ensures 0.0 <= h - h.Floor as real < 1.0
  {
  }

  /** The fractional 0-based position `(n - 1) * p` that probability `p` selects among `n` sorted values. */
  function Position(n: nat, p: real): (h: real)
    requires n > 0 && 0.0 <= p <= 1.0
    ensures 0.0 <= h <= (n - 1) as real
  {
    ScaleWithin((n - 1) as real, p);
    (n - 1) as real * p
  }

  lemma ScaleWithin(m: real, p: real)
    requires m >= 0.0 && 0.0 <= p <= 1.0
    ensures 0.0 <= m * p <= m
  {
    MulRight(m, p, 1.0);
    MulRight(m, 0.0, p);
  }

  lemma PositionMonotone(n: nat, p1: real, p2: real)
    requires n > 0 && 0.0 <= p1 <= p2 <= 1.0
    ensures Position(n, p1) <= Position(n, p2)
  {
    MulRight((n - 1) as real, p1, p2);
  }

  /**
   * Linear interpolation at probability `p` of a sorted column: with
   * `h = (n - 1) * p` and `j = floor(h)`, the value `h - j` of the way from
   * `s[j]` to `s[j + 1]`.
   */
  function Interpolate(s: seq<real>, p: real): (r: real)
    requires |s| > 0 && Sorted(s) && 0.0 <= p <= 1.0
    ensures s[0] <= r <= s[|s| - 1]
  {
    var h := Position(|s|, p);
    FractionalPart(h, |s|);
    Segment(s, h.Floor, h - h.Floor as real)
  }

  lemma InterpolateMonotone(s: seq<real>, p1: real, p2: real)
    requires |s| > 0 && Sorted(s) && 0.0 <= p1 <= p2 <= 1.0
    ensures Interpolate(s, p1) <= Interpolate(s, p2)
  {
    var h1, h2 := Position(|s|, p1), Position(|s|, p2);
    PositionMonotone(|s|, p1, p2);
    FloorMonotone(h1, h2);
    FractionalPart(h1, |s|);
    FractionalPart(h2, |s|);
    SegmentMonotone(s, h1.Floor, h1 - h1.Floor as real, h2.Floor, h2 - h2.Floor as real);
  }

  /**
   * At probability `k / (n - 1)` the interpolation lands exactly on the
   * `k`-th order statistic: the method passes through the sample points.
   */
  lemma InterpolateAtOrderStatistic(s: seq<real>, k: nat)
    requires |s| >= 2 && Sorted(s) && k < |s|
    ensures 0.0 <= k as real / (|s| - 1) as real <= 1.0
    ensures Interpolate(s, k as real / (|s| - 1) as real) == s[k]
  {
    var m := (|s| - 1) as real;
    var p := k as real / m;
    DivideWithin(k as real, m);
    assert m * p == k as real;
    var h := Position(|s|, p);
    assert h == k as real;
    assert h.Floor == k && h - h.Floor as real == 0.0;
    if k < |s| - 1 {
      assert Lerp(s[k], s[k + 1], 0.0) == s[k];
    }
  }

  lemma DivideWithin(a: real, m: real)
    requires 0.0 <= a <= m && m > 0.0
    ensures 0.0 <= a / m <= 1.0
    ensures m * (a / m) == a
  {
    DivideBetween(a, m, 0.0, 1.0);
  }

  lemma InterpolateEnds(s: seq<real>)
    requires |s| > 0 && Sorted(s)
    ensures Interpolate(s, 0.0) == s[0]
    ensures Interpolate(s, 1.0) == s[|s| - 1]
  {
    assert ((|s| - 1) as real * 0.0).Floor == 0;
    assert ((|s| - 1) as real * 1.0).Floor == |s| - 1;
  }

  /** The first and last values of the sorted column are its minimum and maximum. */
  lemma SortEnds(xs: seq<real>)
    requires |xs| > 0
    ensures |Sort(xs)| == |xs|
    ensures Sort(xs)[0] == Min(xs) && Sort(xs)[|xs| - 1] == Max(xs)
  {
    var s := Sort(xs);
    assert |multiset(s)| == |multiset(xs)|;
    assert s[0] in multiset(xs) && s[|s| - 1] in multiset(xs);
    assert Min(xs) in multiset(s) && Max(xs) in multiset(s);
    var a :| 0 <= a < |s| && s[a] == Min(xs);
    var b :| 0 <= b < |s| && s[b] == Max(xs);
    assert s[0] <= s[a] && s[b] <= s[|s| - 1];
  }

  /** `Series.quantile(p)` for `0 <= p <= 1`: NaN for an empty column. */
  function Quantile(xs: seq<real>, p: real): (r: Scalar)
    requires 0.0 <= p <= 1.0
    ensures r.Num? <==> |xs| > 0
    ensures r.Num? ==> Min(xs) <= r.v <= Max(xs)
  {
    if |xs| == 0 then NaN
    else
      SortEnds(xs);
      Num(Interpolate(Sort(xs), p))
  }

  /** `Series.quantile(q)`, which rejects a probability outside [0, 1]. */
  function SeriesQuantile(xs: seq<real>, q: real): (r: Result<Scalar>)
    ensures r.Err? <==> !(0.0 <= q <= 1.0)
    ensures r.Err? ==> r.error == PercentileOutOfRange(q)
  {
    if 0.0 <= q <= 1.0 then Ok(Quantile(xs, q)) else Err(PercentileOutOfRange(q))
  }

  /** A larger probability never gives a smaller quantile. */
  lemma QuantileMonotone(xs: seq<real>, p1: real, p2: real)
    requires |xs| > 0 && 0.0 <= p1 <= p2 <= 1.0
    ensures Quantile(xs, p1).v <= Quantile(xs, p2).v
  {
    SortEnds(xs);
    InterpolateMonotone(Sort(xs), p1, p2);
  }

  /** The 0 and 1 quantiles are the column's minimum and maximum. */
  lemma QuantileExtremes(xs: seq<real>)
    requires |xs| > 0
    ensures Quantile(xs, 0.0) == Num(Min(xs))
    ensures Quantile(xs, 1.0) == Num(Max(xs))
  {
    SortEnds(xs);
    InterpolateEnds(Sort(xs));
  }
}
