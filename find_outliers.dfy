/**
 * The three outlier detectors of outliers_lib/find_outliers.py. Each computes
 * a pair of bounds from the feature column `x` and splits the rows with the
 * same strict rule: a row is an outlier when `x < lower` or `x > upper`, and
 * cleaned when `lower < x < upper`. When `lower <= upper`, a row whose `x`
 * equals a bound is in neither output. When `lower > upper` every row is an
 * outlier, rows on a bound included, and none is cleaned; this happens with
 * inverted quantile probabilities, with IQR multipliers `left + right < -1`
 * and a positive IQR, and with z-score multipliers `left + right < 0` and a
 * positive `sigma`. The comparison key `x` is the feature value or, with
 * `logScale`, the abstract transform `log1p` of it; the returned rows are
 * always the original rows.
 */
module FindOutliers {
  import opened Numeric
  import opened Frames
  import opened Stats

  datatype Bounds = Bounds(lower: Scalar, upper: Scalar)

  datatype Split = Split(outliers: seq<Row>, cleaned: seq<Row>)

  /** Default multipliers and probabilities of the three detectors. */
  const IqrDefaultLeft: real := 1.3
  const IqrDefaultRight: real := 1.5
  const ZScoreDefaultLeft: real := 3.0
  const ZScoreDefaultRight: real := 3.0
  const QuantileDefaultLeft: real := 0.01
  const QuantileDefaultRight: real := 0.99

  /** The untransformed feature value. */
  function Raw(v: real): real {
    v
  }

  /** The transform that gives `x`: `log1p` stands for `np.log(value + 1)`. */
  function KeyOf(logScale: bool, log1p: real -> real): (key: real -> real)
    ensures forall v :: key(v) == if logScale then log1p(v) else v
  {
    if logScale then log1p else Raw
  }

  /** The column `x` the statistics are computed on. */
  function Column(rows: seq<Row>, key: real -> real): (x: seq<real>)
    ensures |x| == |rows|
    ensures forall i :: 0 <= i < |rows| ==> x[i] == key(rows[i].value)
  {
    seq(|rows|, i requires 0 <= i < |rows| => key(rows[i].value))
  }

  /**
   * `(x < lower) | (x > upper)`. An outlier is never cleaned; with ordered,
   * non-NaN bounds a value is an outlier exactly when it is neither cleaned
   * nor on a bound.
   */
  predicate IsOutlier(x: real, b: Bounds)
    ensures IsOutlier(x, b) ==> !IsCleaned(x, b)
    ensures b.lower.Num? && b.upper.Num? && b.lower.v <= b.upper.v ==>
      (IsOutlier(x, b) <==> !IsCleaned(x, b) && !OnBound(x, b))
  {
    Below(x, b.lower) || Above(x, b.upper)
  }

  /**
   * `(x > lower) & (x < upper)`. A cleaned value is on neither bound, and it
   * exists only when both bounds are numbers with `lower < upper`.
   */
  predicate IsCleaned(x: real, b: Bounds)
    ensures IsCleaned(x, b) ==> !OnBound(x, b)
    ensures IsCleaned(x, b) ==> b.lower.Num? && b.upper.Num? && b.lower.v < b.upper.v
  {
    Above(x, b.lower) && Below(x, b.upper)
  }

  /** `x` equals one of the bounds. */
  predicate OnBound(x: real, b: Bounds) {
    b.lower == Num(x) || b.upper == Num(x)
  }

  function OutlierMask(key: real -> real, b: Bounds): Row -> bool {
    (row: Row) => IsOutlier(key(row.value), b)
  }

  function CleanedMask(key: real -> real, b: Bounds): Row -> bool {
    (row: Row) => IsCleaned(key(row.value), b)
  }

  function BoundMask(key: real -> real, b: Bounds): Row -> bool {
    (row: Row) => OnBound(key(row.value), b)
  }

  lemma MasksAt(key: real -> real, b: Bounds, row: Row)
    ensures OutlierMask(key, b)(row) == IsOutlier(key(row.value), b)
    ensures CleanedMask(key, b)(row) == IsCleaned(key(row.value), b)
    ensures BoundMask(key, b)(row) == OnBound(key(row.value), b)
  {
  }

  /**
   * The split shared by all three detectors: the masks are computed on the
   * key and applied to the rows themselves, so both outputs are
   * order-preserving selections of the original rows, and no row is in both.
   */
  function Partition(rows: seq<Row>, key: real -> real, b: Bounds): (r: Split)
    ensures IsSubsequence(r.outliers, rows) && IsSubsequence(r.cleaned, rows)
    ensures forall row :: row in r.outliers <==> row in rows && IsOutlier(key(row.value), b)
    ensures forall row :: row in r.cleaned <==> row in rows && IsCleaned(key(row.value), b)
    ensures forall row :: row in r.outliers ==> row !in r.cleaned
  {
    SelectIsSubsequence(rows, OutlierMask(key, b));
    SelectIsSubsequence(rows, CleanedMask(key, b));
    Split(Select(rows, OutlierMask(key, b)), Select(rows, CleanedMask(key, b)))
  }

  /**
   * With ordered (non-NaN) bounds, a row on a bound is in neither output and
   * every other row is in exactly one: outliers, cleaned rows and rows on a
   * bound together are the input, each row as often as in the input.
   */
  lemma EveryRowPlacedOnce(rows: seq<Row>, key: real -> real, b: Bounds)
    requires b.lower.Num? && b.upper.Num? && b.lower.v <= b.upper.v
    ensures forall row :: row in rows && OnBound(key(row.value), b) ==>
      row !in Partition(rows, key, b).outliers && row !in Partition(rows, key, b).cleaned
    ensures multiset(Partition(rows, key, b).outliers) + multiset(Partition(rows, key, b).cleaned)
      + multiset(Select(rows, BoundMask(key, b))) == multiset(rows)
  {
    forall row | row in rows {
      MasksAt(key, b, row);
    }
    SelectPartition(rows, OutlierMask(key, b), CleanedMask(key, b), BoundMask(key, b));
  }

  /** When both bounds are NaN every comparison is false and both outputs are empty. */
  lemma NaNBoundsSelectNothing(rows: seq<Row>, key: real -> real)
    ensures Partition(rows, key, Bounds(NaN, NaN)) == Split([], [])
  {
  }

  /** `wide` reaches at least as far as `narrow` on both sides. */
  predicate Encloses(wide: Bounds, narrow: Bounds) {
    && wide.lower.Num? && wide.upper.Num? && narrow.lower.Num? && narrow.upper.Num?
    && wide.lower.v <= narrow.lower.v && narrow.upper.v <= wide.upper.v
  }

  /**
   * Widening the bounds never adds an outlier and never removes a cleaned
   * row: the new outliers are a subsequence of the old ones, and the old
   * cleaned rows a subsequence of the new ones.
   */
  lemma WiderBoundsFewerOutliers(rows: seq<Row>, key: real -> real, narrow: Bounds, wide: Bounds)
    requires Encloses(wide, narrow)
    ensures IsSubsequence(Partition(rows, key, wide).outliers, Partition(rows, key, narrow).outliers)
    ensures IsSubsequence(Partition(rows, key, narrow).cleaned, Partition(rows, key, wide).cleaned)
    ensures |Partition(rows, key, wide).outliers| <= |Partition(rows, key, narrow).outliers|
    ensures |Partition(rows, key, narrow).cleaned| <= |Partition(rows, key, wide).cleaned|
  {
    forall row | row in rows ensures OutlierMask(key, wide)(row) ==> OutlierMask(key, narrow)(row) {
      MasksAt(key, wide, row);
      MasksAt(key, narrow, row);
    }
    forall row | row in rows ensures CleanedMask(key, narrow)(row) ==> CleanedMask(key, wide)(row) {
      MasksAt(key, wide, row);
      MasksAt(key, narrow, row);
    }
    SelectNarrower(rows, OutlierMask(key, wide), OutlierMask(key, narrow));
    SelectNarrower(rows, CleanedMask(key, narrow), CleanedMask(key, wide));
    SubsequenceMembers(Partition(rows, key, wide).outliers, Partition(rows, key, narrow).outliers);
    SubsequenceMembers(Partition(rows, key, narrow).cleaned, Partition(rows, key, wide).cleaned);
  }

  /**
   * With numeric bounds `lower > upper` every value is below `lower` or above
   * `upper`: every row is an outlier, rows on a bound included, and no row is
   * cleaned.
   */
  lemma InvertedBoundsAllOutliers(rows: seq<Row>, key: real -> real, b: Bounds)
    requires b.lower.Num? && b.upper.Num? && b.lower.v > b.upper.v
    ensures Partition(rows, key, b) == Split(rows, [])
  {
    forall i | 0 <= i < |rows| ensures OutlierMask(key, b)(rows[i]) && !CleanedMask(key, b)(rows[i]) {
      MasksAt(key, b, rows[i]);
    }
    SelectAll(rows, OutlierMask(key, b));
    SelectNone(rows, CleanedMask(key, b));
  }

  // ---------------------------------------------------------------------------
  // find_outliers_iqr

  /** `Q1 - left * IQR` and `Q3 + right * IQR` for quartiles `q1` and `q3`, with `IQR = q3 - q1`. */
  function IqrBounds(q1: Scalar, q3: Scalar, left: real, right: real): (b: Bounds)
    ensures b.lower.Num? <==> q1.Num? && q3.Num?
    ensures b.upper.Num? <==> q1.Num? && q3.Num?
  {
    var iqr := Sub(q3, q1);
    Bounds(Sub(q1, Times(iqr, left)), Add(q3, Times(iqr, right)))
  }

  /** The IQR bounds are `1 + left + right` interquartile ranges apart. */
  lemma IqrBoundsWidth(q1: real, q3: real, left: real, right: real)
    ensures var b := IqrBounds(Num(q1), Num(q3), left, right);
      b.upper.v - b.lower.v == (1.0 + left + right) * (q3 - q1)
  {
  }

  /** A width `w = c * a` with `a >= 0` is negative exactly when `a > 0` and `c < 0`. */
  lemma NegativeWidth(w: real, c: real, a: real)
    requires a >= 0.0 && w == c * a
    ensures w < 0.0 <==> a > 0.0 && c < 0.0
  {
    if a > 0.0 && c < 0.0 {
      MulStrict(c, 0.0, a);
    } else if c >= 0.0 {
      MulLeft(0.0, c, a);
    }
  }

  /**
   * With ordered quartiles the IQR bounds are inverted (`lower > upper`)
   * exactly when the IQR is positive and `left + right < -1`.
   */
  lemma IqrBoundsInverted(q1: real, q3: real, left: real, right: real)
    requires q1 <= q3
    ensures var b := IqrBounds(Num(q1), Num(q3), left, right);
      b.lower.v > b.upper.v <==> q3 - q1 > 0.0 && left + right < -1.0
  {
    var b := IqrBounds(Num(q1), Num(q3), left, right);
    IqrBoundsWidth(q1, q3, left, right);
    NegativeWidth(b.upper.v - b.lower.v, 1.0 + left + right, q3 - q1);
  }

  /** The IQR bounds of a column, from its 0.25 and 0.75 quantiles. */
  function ColumnIqrBounds(x: seq<real>, left: real, right: real): Bounds {
    IqrBounds(Quantile(x, 0.25), Quantile(x, 0.75), left, right)
  }

  /**
   * The masks compare the key (the value, or `log1p` of it under `logScale`)
   * with the IQR bounds of the key column; the outputs are the original rows.
   */
  function FindOutliersIqr(rows: seq<Row>, left: real, right: real, logScale: bool, log1p: real -> real): (r: Split)
    ensures IsSubsequence(r.outliers, rows) && IsSubsequence(r.cleaned, rows)
    ensures forall row :: row in r.outliers ==> row !in r.cleaned
    ensures var key := KeyOf(logScale, log1p);
      var b := ColumnIqrBounds(Column(rows, key), left, right);
      (forall row :: row in r.outliers <==> row in rows && IsOutlier(key(row.value), b))
      && (forall row :: row in r.cleaned <==> row in rows && IsCleaned(key(row.value), b))
  {
    var key := KeyOf(logScale, log1p);
    Partition(rows, key, ColumnIqrBounds(Column(rows, key), left, right))
  }

  /** The interquartile range of a non-empty column is never negative; an empty column's is NaN. */
  lemma IqrNonNegative(x: seq<real>)
    ensures |x| == 0 ==> Quantile(x, 0.25) == NaN && Quantile(x, 0.75) == NaN
    ensures |x| > 0 ==> Quantile(x, 0.25).Num? && Quantile(x, 0.75).Num?
    ensures |x| > 0 ==> Sub(Quantile(x, 0.75), Quantile(x, 0.25)).v >= 0.0
  {
    if |x| > 0 {
      QuantileMonotone(x, 0.25, 0.75);
    }
  }

  /** With ordered quartiles and non-negative multipliers, `lower <= Q1 <= Q3 <= upper`. */
  lemma IqrBoundsOrdered(q1: real, q3: real, left: real, right: real)
    requires q1 <= q3 && left >= 0.0 && right >= 0.0
    ensures IqrBounds(Num(q1), Num(q3), left, right).lower.v <= q1
    ensures q3 <= IqrBounds(Num(q1), Num(q3), left, right).upper.v
  {
    MulLeft(0.0, left, q3 - q1);
    MulLeft(0.0, right, q3 - q1);
  }

  /** With ordered quartiles, raising `left` lowers the lower bound and raising `right` raises the upper bound. */
  lemma IqrBoundsWiden(q1: real, q3: real, left: real, right: real, left': real, right': real)
    requires q1 <= q3 && left <= left' && right <= right'
    ensures Encloses(IqrBounds(Num(q1), Num(q3), left', right'), IqrBounds(Num(q1), Num(q3), left, right))
  {
    MulLeft(left, left', q3 - q1);
    MulLeft(right, right', q3 - q1);
  }

  /**
   * Raising either multiplier never adds an outlier: the new outliers are a
   * subsequence of the old ones and the old cleaned rows of the new ones.
   */
  lemma IqrWiderMultipliersFewerOutliers(rows: seq<Row>, left: real, right: real, left': real, right': real,
                                         logScale: bool, log1p: real -> real)
    requires left <= left' && right <= right'
    ensures IsSubsequence(FindOutliersIqr(rows, left', right', logScale, log1p).outliers,
                          FindOutliersIqr(rows, left, right, logScale, log1p).outliers)
    ensures IsSubsequence(FindOutliersIqr(rows, left, right, logScale, log1p).cleaned,
                          FindOutliersIqr(rows, left', right', logScale, log1p).cleaned)
  {
    var key := KeyOf(logScale, log1p);
    var x := Column(rows, key);
    IqrNonNegative(x);
    if |rows| == 0 {
      NaNBoundsSelectNothing(rows, key);
    } else {
      var q1, q3 := Quantile(x, 0.25), Quantile(x, 0.75);
      IqrBoundsWiden(q1.v, q3.v, left, right, left', right');
      WiderBoundsFewerOutliers(rows, key, IqrBounds(q1, q3, left, right), IqrBounds(q1, q3, left', right'));
    }
  }

  /**
   * With non-negative multipliers every row of the IQR split is an outlier,
   * a cleaned row or a row on a bound, and exactly one of these.
   */
  lemma IqrEveryRowPlacedOnce(rows: seq<Row>, left: real, right: real, logScale: bool, log1p: real -> real)
    requires left >= 0.0 && right >= 0.0
    ensures var key := KeyOf(logScale, log1p);
      var b := ColumnIqrBounds(Column(rows, key), left, right);
      multiset(FindOutliersIqr(rows, left, right, logScale, log1p).outliers)
      + multiset(FindOutliersIqr(rows, left, right, logScale, log1p).cleaned)
      + multiset(Select(rows, BoundMask(key, b))) == multiset(rows)
  {
    var key := KeyOf(logScale, log1p);
    var x := Column(rows, key);
    IqrNonNegative(x);
    if |rows| == 0 {
      NaNBoundsSelectNothing(rows, key);
    } else {
      var q1, q3 := Quantile(x, 0.25), Quantile(x, 0.75);
      IqrBoundsOrdered(q1.v, q3.v, left, right);
      EveryRowPlacedOnce(rows, key, IqrBounds(q1, q3, left, right));
    }
  }

  /**
   * With non-negative multipliers an IQR outlier lies strictly outside the
   * quartile band `[Q1, Q3]`: no row between the quartiles is ever flagged.
   */
  lemma IqrQuartileBandNeverOutlier(rows: seq<Row>, left: real, right: real, logScale: bool, log1p: real -> real)
    requires |rows| > 0 && left >= 0.0 && right >= 0.0
    ensures var key := KeyOf(logScale, log1p);
      var x := Column(rows, key);
      Quantile(x, 0.25).Num? && Quantile(x, 0.75).Num?
      && forall row :: row in FindOutliersIqr(rows, left, right, logScale, log1p).outliers ==>
           key(row.value) < Quantile(x, 0.25).v || Quantile(x, 0.75).v < key(row.value)
  {
    var key := KeyOf(logScale, log1p);
    var x := Column(rows, key);
    IqrNonNegative(x);
    var q1, q3 := Quantile(x, 0.25), Quantile(x, 0.75);
    IqrBoundsOrdered(q1.v, q3.v, left, right);
  }

  /** The key column of the rows under `log1p` is the raw column of the transformed rows. */
  lemma ColumnOfTransform(rows: seq<Row>, log1p: real -> real)
    ensures Column(Transform(rows, log1p), KeyOf(false, log1p)) == Column(rows, KeyOf(true, log1p))
  {
  }

  /**
   * The masks of `log1p` mode, read on a row, say what the masks of raw mode
   * say on that row with its value transformed.
   */
  lemma LogMasksAreRawMasksOfTransform(log1p: real -> real, b: Bounds)
    ensures forall row :: OutlierMask(log1p, b)(row) == OutlierMask(Raw, b)(Row(row.id, log1p(row.value)))
    ensures forall row :: CleanedMask(log1p, b)(row) == CleanedMask(Raw, b)(Row(row.id, log1p(row.value)))
  {
    forall row
      ensures OutlierMask(log1p, b)(row) == OutlierMask(Raw, b)(Row(row.id, log1p(row.value)))
      ensures CleanedMask(log1p, b)(row) == CleanedMask(Raw, b)(Row(row.id, log1p(row.value)))
    {
      MasksAt(log1p, b, row);
      MasksAt(Raw, b, Row(row.id, log1p(row.value)));
    }
  }

  /**
   * `log_scale` mode is raw mode run on the transformed values, except that
   * the outputs keep the original values: transforming the log-mode outputs
   * gives the raw-mode outputs of the transformed rows.
   */
  lemma IqrLogScaleIsRawOnTransformed(rows: seq<Row>, left: real, right: real, log1p: real -> real)
    ensures Transform(FindOutliersIqr(rows, left, right, true, log1p).outliers, log1p)
      == FindOutliersIqr(Transform(rows, log1p), left, right, false, log1p).outliers
    ensures Transform(FindOutliersIqr(rows, left, right, true, log1p).cleaned, log1p)
      == FindOutliersIqr(Transform(rows, log1p), left, right, false, log1p).cleaned
  {
    ColumnOfTransform(rows, log1p);
    var b := ColumnIqrBounds(Column(rows, log1p), left, right);
    LogMasksAreRawMasksOfTransform(log1p, b);
    SelectTransform(rows, log1p, OutlierMask(log1p, b), OutlierMask(Raw, b));
    SelectTransform(rows, log1p, CleanedMask(log1p, b), CleanedMask(Raw, b));
  }

  // ---------------------------------------------------------------------------
  // find_outliers_z_score

  /** `mu - left * sigma` and `mu + right * sigma`, with `mu` the mean of `x`. */
  function ZScoreBounds(x: seq<real>, sigma: Scalar, left: real, right: real): (b: Bounds)
    ensures b.lower.Num? <==> |x| > 0 && sigma.Num?
    ensures b.upper.Num? <==> |x| > 0 && sigma.Num?
  {
    var mu := Mean(x);
    Bounds(Sub(mu, Times(sigma, left)), Add(mu, Times(sigma, right)))
  }

  /**
   * The z-score bounds are `left + right` standard deviations apart, and with
   * equal multipliers they are centred on the mean.
   */
  lemma ZScoreBoundsWidth(x: seq<real>, sigma: real, left: real, right: real)
    requires |x| > 0
    ensures var b := ZScoreBounds(x, Num(sigma), left, right);
      b.upper.v - b.lower.v == (left + right) * sigma
      && (left == right ==> (b.lower.v + b.upper.v) / 2.0 == Mean(x).v)
  {
  }

  /**
   * With a non-negative `sigma` the z-score bounds are inverted exactly when
   * `sigma > 0` and `left + right < 0`.
   */
  lemma ZScoreBoundsInverted(x: seq<real>, sigma: real, left: real, right: real)
    requires |x| > 0 && sigma >= 0.0
    ensures var b := ZScoreBounds(x, Num(sigma), left, right);
      b.lower.v > b.upper.v <==> sigma > 0.0 && left + right < 0.0
  {
    var b := ZScoreBounds(x, Num(sigma), left, right);
    ZScoreBoundsWidth(x, sigma, left, right);
    NegativeWidth(b.upper.v - b.lower.v, left + right, sigma);
  }

  /** `sigma` stands for `x.std()`, the sample standard deviation of `x`. */
  function FindOutliersZScore(rows: seq<Row>, left: real, right: real, logScale: bool, log1p: real -> real,
                              sigma: Scalar): (r: Split)
    requires IsStd(Column(rows, KeyOf(logScale, log1p)), sigma)
    ensures IsSubsequence(r.outliers, rows) && IsSubsequence(r.cleaned, rows)
    ensures forall row :: row in r.outliers ==> row !in r.cleaned
    ensures var key := KeyOf(logScale, log1p);
      var b := ZScoreBounds(Column(rows, key), sigma, left, right);
      (forall row :: row in r.outliers <==> row in rows && IsOutlier(key(row.value), b))
      && (forall row :: row in r.cleaned <==> row in rows && IsCleaned(key(row.value), b))
  {
    var key := KeyOf(logScale, log1p);
    Partition(rows, key, ZScoreBounds(Column(rows, key), sigma, left, right))
  }

  /** A zero standard deviation collapses both bounds onto the mean, whatever the multipliers. */
  lemma ZScoreZeroSigma(x: seq<real>, left: real, right: real)
    requires |x| > 0
    ensures Mean(x).Num?
    ensures ZScoreBounds(x, Num(0.0), left, right) == Bounds(Mean(x), Mean(x))
  {
  }

  /** With a standard deviation of `x` and non-negative multipliers, `lower <= mu <= upper`. */
  lemma ZScoreBoundsOrdered(x: seq<real>, sigma: Scalar, left: real, right: real)
    requires IsStd(x, sigma) && |x| >= 2 && left >= 0.0 && right >= 0.0
    ensures ZScoreBounds(x, sigma, left, right).lower.Num? && ZScoreBounds(x, sigma, left, right).upper.Num?
    ensures ZScoreBounds(x, sigma, left, right).lower.v <= Mean(x).v <= ZScoreBounds(x, sigma, left, right).upper.v
  {
    MulLeft(0.0, sigma.v, left);
    MulLeft(0.0, sigma.v, right);
  }

  /**
   * With a true standard deviation and non-negative multipliers a z-score
   * outlier differs from the mean: a row whose key equals `mu` is never flagged.
   */
  lemma ZScoreMeanNeverOutlier(rows: seq<Row>, left: real, right: real, logScale: bool, log1p: real -> real,
                               sigma: Scalar)
    requires IsStd(Column(rows, KeyOf(logScale, log1p)), sigma)
    requires left >= 0.0 && right >= 0.0
    ensures forall row :: row in FindOutliersZScore(rows, left, right, logScale, log1p, sigma).outliers ==>
      var mu := Mean(Column(rows, KeyOf(logScale, log1p)));
      mu.Num? && KeyOf(logScale, log1p)(row.value) != mu.v
  {
    var key := KeyOf(logScale, log1p);
    var x := Column(rows, key);
    if |rows| <= 1 {
      assert sigma == NaN;
      NaNBoundsSelectNothing(rows, key);
    } else {
      ZScoreBoundsOrdered(x, sigma, left, right);
    }
  }

  /**
   * For a constant column the standard deviation is zero (or NaN for fewer
   * than two rows), so every row lies on the collapsed bound: both outputs
   * are empty.
   */
  lemma ZScoreConstantColumn(rows: seq<Row>, c: real, left: real, right: real, logScale: bool,
                             log1p: real -> real, sigma: Scalar)
    requires IsStd(Column(rows, KeyOf(logScale, log1p)), sigma)
    requires Constant(Column(rows, KeyOf(logScale, log1p)), c)
    ensures FindOutliersZScore(rows, left, right, logScale, log1p, sigma) == Split([], [])
  {
    var key := KeyOf(logScale, log1p);
    var x := Column(rows, key);
    ConstantColumnStatistics(x, c, sigma);
    var b := ZScoreBounds(x, sigma, left, right);
    if |x| <= 1 {
      NaNBoundsSelectNothing(rows, key);
    } else {
      assert b == Bounds(Num(c), Num(c));
      var r := Partition(rows, key, b);
      forall row | row in rows ensures key(row.value) == c {
        var i :| 0 <= i < |rows| && rows[i] == row;
        assert x[i] == c;
      }
    }
  }

  /** Raising `left` lowers the lower bound and raising `right` raises the upper bound. */
  lemma ZScoreBoundsWiden(x: seq<real>, sigma: Scalar, left: real, right: real, left': real, right': real)
    requires |x| > 0 && sigma.Num? && sigma.v >= 0.0 && left <= left' && right <= right'
    ensures Encloses(ZScoreBounds(x, sigma, left', right'), ZScoreBounds(x, sigma, left, right))
  {
    var mu, sd := Mean(x).v, sigma.v;
    assert ZScoreBounds(x, sigma, left, right) == Bounds(Num(mu - sd * left), Num(mu + sd * right));
    assert ZScoreBounds(x, sigma, left', right') == Bounds(Num(mu - sd * left'), Num(mu + sd * right'));
    MulRight(sd, left, left');
    MulRight(sd, right, right');
  }

  /**
   * Raising either multiplier never adds an outlier: the new outliers are a
   * subsequence of the old ones and the old cleaned rows of the new ones.
   */
  lemma ZScoreWiderMultipliersFewerOutliers(rows: seq<Row>, left: real, right: real, left': real, right': real,
                                            logScale: bool, log1p: real -> real, sigma: Scalar)
    requires IsStd(Column(rows, KeyOf(logScale, log1p)), sigma)
    requires left <= left' && right <= right'
    ensures IsSubsequence(FindOutliersZScore(rows, left', right', logScale, log1p, sigma).outliers,
                          FindOutliersZScore(rows, left, right, logScale, log1p, sigma).outliers)
    ensures IsSubsequence(FindOutliersZScore(rows, left, right, logScale, log1p, sigma).cleaned,
                          FindOutliersZScore(rows, left', right', logScale, log1p, sigma).cleaned)
  {
    var key := KeyOf(logScale, log1p);
    var x := Column(rows, key);
    if |rows| <= 1 {
      assert sigma == NaN;
      NaNBoundsSelectNothing(rows, key);
    } else {
      ZScoreBoundsWiden(x, sigma, left, right, left', right');
      WiderBoundsFewerOutliers(rows, key, ZScoreBounds(x, sigma, left, right), ZScoreBounds(x, sigma, left', right'));
    }
  }

  /**
   * With at least two rows (so that `sigma` is a number) and non-negative
   * multipliers every row of the z-score split is an outlier, a cleaned row
   * or a row on a bound, and exactly one of these.
   */
  lemma ZScoreEveryRowPlacedOnce(rows: seq<Row>, left: real, right: real, logScale: bool, log1p: real -> real,
                                 sigma: Scalar)
    requires IsStd(Column(rows, KeyOf(logScale, log1p)), sigma)
    requires |rows| >= 2 && left >= 0.0 && right >= 0.0
    ensures var key := KeyOf(logScale, log1p);
      var b := ZScoreBounds(Column(rows, key), sigma, left, right);
      multiset(FindOutliersZScore(rows, left, right, logScale, log1p, sigma).outliers)
      + multiset(FindOutliersZScore(rows, left, right, logScale, log1p, sigma).cleaned)
      + multiset(Select(rows, BoundMask(key, b))) == multiset(rows)
  {
    var key := KeyOf(logScale, log1p);
    var x := Column(rows, key);
    ZScoreBoundsOrdered(x, sigma, left, right);
    EveryRowPlacedOnce(rows, key, ZScoreBounds(x, sigma, left, right));
  }

  /**
   * `log_scale` mode is raw mode run on the transformed values, except that
   * the outputs keep the original values.
   */
  lemma ZScoreLogScaleIsRawOnTransformed(rows: seq<Row>, left: real, right: real, log1p: real -> real, sigma: Scalar)
    requires IsStd(Column(rows, KeyOf(true, log1p)), sigma)
    ensures Column(Transform(rows, log1p), KeyOf(false, log1p)) == Column(rows, KeyOf(true, log1p))
    ensures Transform(FindOutliersZScore(rows, left, right, true, log1p, sigma).outliers, log1p)
      == FindOutliersZScore(Transform(rows, log1p), left, right, false, log1p, sigma).outliers
    ensures Transform(FindOutliersZScore(rows, left, right, true, log1p, sigma).cleaned, log1p)
      == FindOutliersZScore(Transform(rows, log1p), left, right, false, log1p, sigma).cleaned
  {
    ColumnOfTransform(rows, log1p);
    var b := ZScoreBounds(Column(rows, log1p), sigma, left, right);
    LogMasksAreRawMasksOfTransform(log1p, b);
    SelectTransform(rows, log1p, OutlierMask(log1p, b), OutlierMask(Raw, b));
    SelectTransform(rows, log1p, CleanedMask(log1p, b), CleanedMask(Raw, b));
  }

  // ---------------------------------------------------------------------------
  // find_outliers_quantile

  /** `x.quantile(left)` and `x.quantile(right)`; the first out-of-range probability is an error. */
  function QuantileBounds(x: seq<real>, left: real, right: real): (r: Result<Bounds>)
    ensures r.Err? <==> !(0.0 <= left <= 1.0) || !(0.0 <= right <= 1.0)
    ensures r.Err? ==> r.error == PercentileOutOfRange(if 0.0 <= left <= 1.0 then right else left)
    ensures r.Ok? && |x| == 0 ==> r.value == Bounds(NaN, NaN)
    ensures r.Ok? && |x| > 0 ==> r.value.lower.Num? && Min(x) <= r.value.lower.v <= Max(x)
    ensures r.Ok? && |x| > 0 ==> r.value.upper.Num? && Min(x) <= r.value.upper.v <= Max(x)
  {
    match SeriesQuantile(x, left)
    case Err(e) => Err(e)
    case Ok(lower) =>
      match SeriesQuantile(x, right)
      case Err(e) => Err(e)
      case Ok(upper) => Ok(Bounds(lower, upper))
  }

  /** The quantile detector compares the raw feature values; it has no log option. */
  function FindOutliersQuantile(rows: seq<Row>, left: real, right: real): (r: Result<Split>)
    ensures r.Err? <==> !(0.0 <= left <= 1.0) || !(0.0 <= right <= 1.0)
    ensures r.Err? ==> r.error == PercentileOutOfRange(if 0.0 <= left <= 1.0 then right else left)
    ensures r.Ok? ==> IsSubsequence(r.value.outliers, rows) && IsSubsequence(r.value.cleaned, rows)
    ensures r.Ok? ==> forall row :: row in r.value.outliers ==> row !in r.value.cleaned
    ensures 0.0 <= left <= 1.0 && 0.0 <= right <= 1.0 ==>
      var x := Column(rows, Raw);
      var b := Bounds(Quantile(x, left), Quantile(x, right));
      r.Ok?
      && (forall row :: row in r.value.outliers <==> row in rows && IsOutlier(row.value, b))
      && (forall row :: row in r.value.cleaned <==> row in rows && IsCleaned(row.value, b))
  {
    match QuantileBounds(Column(rows, Raw), left, right)
    case Err(e) => Err(e)
    case Ok(b) => Ok(Partition(rows, Raw, b))
  }

  /**
   * For probabilities `0 <= left <= right <= 1` on a non-empty column the
   * bounds are ordered and lie between the column's minimum and maximum.
   */
  lemma QuantileBoundsOrdered(x: seq<real>, left: real, right: real)
    requires |x| > 0 && 0.0 <= left <= right <= 1.0
    ensures QuantileBounds(x, left, right).Ok?
    ensures QuantileBounds(x, left, right).value.lower.Num? && QuantileBounds(x, left, right).value.upper.Num?
    ensures Min(x) <= QuantileBounds(x, left, right).value.lower.v
    ensures QuantileBounds(x, left, right).value.lower.v <= QuantileBounds(x, left, right).value.upper.v
    ensures QuantileBounds(x, left, right).value.upper.v <= Max(x)
  {
    QuantileMonotone(x, left, right);
  }

  /**
   * With `left = 0` and `right = 1` the bounds are the column's minimum and
   * maximum, so no row is an outlier.
   */
  lemma QuantileFullRangeNoOutliers(rows: seq<Row>)
    requires |rows| > 0
    ensures var x := Column(rows, Raw);
      QuantileBounds(x, 0.0, 1.0) == Ok(Bounds(Num(Min(x)), Num(Max(x))))
    ensures FindOutliersQuantile(rows, 0.0, 1.0).Ok?
    ensures FindOutliersQuantile(rows, 0.0, 1.0).value.outliers == []
  {
    var x := Column(rows, Raw);
    QuantileExtremes(x);
    var b := Bounds(Num(Min(x)), Num(Max(x)));
    assert QuantileBounds(x, 0.0, 1.0) == Ok(b);
    forall i | 0 <= i < |rows| ensures !OutlierMask(Raw, b)(rows[i]) {
      MasksAt(Raw, b, rows[i]);
      assert x[i] == rows[i].value;
    }
    SelectNone(rows, OutlierMask(Raw, b));
  }

  /**
   * Lowering `left` or raising `right` (within [0, 1]) never adds an outlier
   * and never removes a cleaned row.
   */
  lemma QuantileWiderProbabilitiesFewerOutliers(rows: seq<Row>, left: real, right: real, left': real, right': real)
    requires 0.0 <= left' <= left <= 1.0 && 0.0 <= right <= right' <= 1.0
    ensures FindOutliersQuantile(rows, left, right).Ok? && FindOutliersQuantile(rows, left', right').Ok?
    ensures IsSubsequence(FindOutliersQuantile(rows, left', right').value.outliers,
                          FindOutliersQuantile(rows, left, right).value.outliers)
    ensures IsSubsequence(FindOutliersQuantile(rows, left, right).value.cleaned,
                          FindOutliersQuantile(rows, left', right').value.cleaned)
  {
    var x := Column(rows, Raw);
    if |rows| == 0 {
      NaNBoundsSelectNothing(rows, Raw);
    } else {
      QuantileMonotone(x, left', left);
      QuantileMonotone(x, right, right');
      WiderBoundsFewerOutliers(rows, Raw, QuantileBounds(x, left, right).value, QuantileBounds(x, left', right').value);
    }
  }

  /**
   * For probabilities `0 <= left <= right <= 1` every row of the quantile
   * split is an outlier, a cleaned row or a row on a bound, and exactly one
   * of these.
   */
  lemma QuantileEveryRowPlacedOnce(rows: seq<Row>, left: real, right: real)
    requires 0.0 <= left <= right <= 1.0
    ensures FindOutliersQuantile(rows, left, right).Ok?
    ensures var b := QuantileBounds(Column(rows, Raw), left, right).value;
      multiset(FindOutliersQuantile(rows, left, right).value.outliers)
      + multiset(FindOutliersQuantile(rows, left, right).value.cleaned)
      + multiset(Select(rows, BoundMask(Raw, b))) == multiset(rows)
  {
    if |rows| > 0 {
      var x := Column(rows, Raw);
      QuantileBoundsOrdered(x, left, right);
      EveryRowPlacedOnce(rows, Raw, QuantileBounds(x, left, right).value);
    }
  }

  // ---------------------------------------------------------------------------
  // default arguments

  /**
   * With the IQR defaults (`left = 1.3`, `right = 1.5`) every row is an
   * outlier, a cleaned row or on a bound, exactly once.
   */
  lemma IqrDefaultArguments(rows: seq<Row>, logScale: bool, log1p: real -> real)
    ensures var key := KeyOf(logScale, log1p);
      var b := ColumnIqrBounds(Column(rows, key), IqrDefaultLeft, IqrDefaultRight);
      multiset(FindOutliersIqr(rows, IqrDefaultLeft, IqrDefaultRight, logScale, log1p).outliers)
      + multiset(FindOutliersIqr(rows, IqrDefaultLeft, IqrDefaultRight, logScale, log1p).cleaned)
      + multiset(Select(rows, BoundMask(key, b))) == multiset(rows)
  {
    IqrEveryRowPlacedOnce(rows, IqrDefaultLeft, IqrDefaultRight, logScale, log1p);
  }

  /** With the z-score defaults (`left = right = 3`) no outlier sits on the mean. */
  lemma ZScoreDefaultArguments(rows: seq<Row>, logScale: bool, log1p: real -> real, sigma: Scalar)
    requires IsStd(Column(rows, KeyOf(logScale, log1p)), sigma)
    ensures forall row :: row in FindOutliersZScore(rows, ZScoreDefaultLeft, ZScoreDefaultRight, logScale, log1p, sigma).outliers ==>
      KeyOf(logScale, log1p)(row.value) != Mean(Column(rows, KeyOf(logScale, log1p))).v
  {
    ZScoreMeanNeverOutlier(rows, ZScoreDefaultLeft, ZScoreDefaultRight, logScale, log1p, sigma);
  }

  /**
   * The default quantile probabilities (`0.01`, `0.99`) are accepted and, on
   * a non-empty column, give ordered bounds.
   */
  lemma QuantileDefaultArguments(rows: seq<Row>)
    ensures FindOutliersQuantile(rows, QuantileDefaultLeft, QuantileDefaultRight).Ok?
    ensures |rows| > 0 ==>
      var b := QuantileBounds(Column(rows, Raw), QuantileDefaultLeft, QuantileDefaultRight).value;
      b.lower.Num? && b.upper.Num? && b.lower.v <= b.upper.v
  {
    if |rows| > 0 {
      QuantileBoundsOrdered(Column(rows, Raw), QuantileDefaultLeft, QuantileDefaultRight);
    }
  }
}
