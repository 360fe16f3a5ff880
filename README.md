# Outlier detectors, modelled in Dafny

This project models `outliers_lib/find_outliers.py`. That file holds three detectors, and each one takes a data frame and one numeric feature:

- `find_outliers_iqr` takes the quartiles of the feature. Its bounds are `Q1 - left * IQR` and `Q3 + right * IQR`.
- `find_outliers_z_score` takes the mean `mu` and the sample standard deviation `sigma`. Its bounds are `mu - left * sigma` and `mu + right * sigma`.
- `find_outliers_quantile` uses `x.quantile(left)` and `x.quantile(right)` directly as its bounds.

All three split the rows with strict comparisons:

- outliers are the rows with `x < lower | x > upper`;
- cleaned rows are those with `lower < x < upper`;
- when `lower <= upper`, a row whose value equals a bound lands in neither output;
- when `lower > upper`, every row is an outlier, rows on a bound included, and no row is cleaned. The source allows this, because it never validates its parameters. The bounds can be inverted in three ways:
  - `find_outliers_quantile` with `left > right`;
  - the IQR bounds, exactly when the IQR is positive and `left + right < -1`;
  - the z-score bounds, exactly when `sigma > 0` and `left + right < 0`.

Each core part becomes one module, written as pure functions and lemmas with no state:

- `Numeric` defines `Scalar = NaN | Num(v)`. It is the value a pandas statistic returns when a column has too few values. Every comparison with `NaN` is false, which is how pandas behaves. So an empty column produces two empty outputs, and no precondition is needed to rule that case out. The case that changes the output is a one-row frame in the z-score detector. With `ddof=1`, `x.std()` of one value is NaN, so both bounds are NaN and that single row lands in neither output, although it is not on a bound. For such a frame the rule "every row not on a bound is in exactly one output" does not hold. `FindOutliers.EveryRowPlacedOnce` therefore requires numeric bounds, and `FindOutliers.ZScoreConstantColumn` covers the one-row case.
- `Frames` defines the rows, each `Row(id, value)`. Boolean-mask indexing `data[mask]` becomes `Select`, an order-preserving filter. `IsSubsequence` is defined independently of `Select`.
- `Stats` models three pandas statistics:
  - `Series.mean`, as the sum over the count;
  - `Series.std` with `ddof=1`. It is given by its defining property `IsStd` and is not computed;
  - `Series.quantile` with its default linear interpolation, which is definition 7 of Hyndman and Fan (1996). The column is sorted and `h = (n - 1) * p`. The result is `s[floor h] + (h - floor h) * (s[floor h + 1] - s[floor h])`. At `p = 1`, where `h = n - 1`, there is no next value, and the result is the last value `s[n - 1]`. A probability outside [0, 1] is an error, as pandas raises `ValueError` for it.
- `FindOutliers` holds the shared partition, the three bound formulas, the three detectors and the properties proved about them.
- `FindOutliersExamples` works the detectors through small columns:
  - the quartiles 12.75 and 16.5 of `[10, 12, 13, 14, 15, 16, 18, 100]`;
  - the 0.8 quantile of `[1, 2, 3, 4, 5, 100]`. It is exactly 5, because position 4 falls on a sample point. So with `left = 0` and `right = 0.8` the rows with values 1 and 5 sit on the bounds and appear in neither output.

Points where the model departs from the source or its comments:

- `log_scale` replaces the compared column by `np.log(value + 1)`. The model takes this as an arbitrary function `log1p: real -> real`, applied only to the comparison key. The returned rows always keep their original values.
- The z-score detector takes `sigma` as a parameter. Its precondition `IsStd(x, sigma)` ties `sigma` to the column:
  - `sigma` is NaN when the column has fewer than two values;
  - otherwise it is non-negative and its square is the sample variance.
- The docstring of `find_outliers_iqr` says the default `left` is 1.5. The signature at `outliers_lib/find_outliers.py:6` sets it to 1.3. The model follows the code: `IqrDefaultLeft` is 1.3.
- `outliers_lib/find_outliers.py:80` begins with a stray space before `def`. As written, importing the module fails with an `IndentationError`, so none of the three detectors can be called. The model describes the function that was evidently intended, i.e. the body at lines 80-107 at module level.

## Model

| member | source | states |
|---|---|---|
| Frames.Select | outliers_lib/find_outliers.py:36-37 | boolean-mask indexing keeps no more rows than it is given; a row is kept exactly when it is in the input and the mask holds for it |
| Frames.SelectIsSubsequence | outliers_lib/find_outliers.py:36-37 | the rows a mask selects come in their original order: a subsequence of the data |
| Frames.SelectNarrower | outliers_lib/find_outliers.py:36-37 | a mask implied by another selects a subsequence of what the other selects |
| Frames.SelectPartition | outliers_lib/find_outliers.py:74-75 | when exactly one of three masks holds for each row, the three selections together are the input as a multiset |
| FindOutliers.IsOutlier | outliers_lib/find_outliers.py:36 | the outlier mask `(x < lower) \| (x > upper)` never holds for a cleaned value; with ordered numeric bounds it holds exactly for values that are neither cleaned nor on a bound (also lines 74 and 102) |
| FindOutliers.IsCleaned | outliers_lib/find_outliers.py:37 | the cleaned mask `(x > lower) & (x < upper)` holds only for values on neither bound, and only when both bounds are numbers with `lower < upper` (also lines 75 and 105) |
| FindOutliers.Partition | outliers_lib/find_outliers.py:36-37 | both outputs are subsequences of the rows; a row is an outlier iff it is below `lower` or above `upper`; it is cleaned iff it lies strictly between them; no row is in both |
| FindOutliers.EveryRowPlacedOnce | outliers_lib/find_outliers.py:74-75 | with ordered, non-NaN bounds, a row on a bound is in neither output, and outliers, cleaned rows and on-bound rows together are exactly the input |
| FindOutliers.NaNBoundsSelectNothing | outliers_lib/find_outliers.py:36-37 | NaN bounds make every comparison false, so both outputs are empty; they arise from an empty column in every detector, and in the z-score detector also from a one-row column, whose `ddof=1` standard deviation is NaN, so that row is in neither output although it is not on a bound |
| FindOutliers.WiderBoundsFewerOutliers | outliers_lib/find_outliers.py:36-37 | widening the bounds gives outliers that are a subsequence of the old outliers, and keeps every old cleaned row, in order; so the outlier count never grows and the cleaned count never shrinks |
| FindOutliers.InvertedBoundsAllOutliers | outliers_lib/find_outliers.py:36-37 | with numeric bounds `lower > upper`, every row is an outlier, rows on a bound included, and none is cleaned |
| FindOutliers.IqrBounds | outliers_lib/find_outliers.py:31-34 | the bounds `Q1 - left * IQR` and `Q3 + right * IQR` are numbers exactly when both quartiles are |
| FindOutliers.IqrBoundsWidth | outliers_lib/find_outliers.py:31-34 | the IQR bounds are `1 + left + right` interquartile ranges apart |
| FindOutliers.IqrBoundsInverted | outliers_lib/find_outliers.py:31-34 | with `Q1 <= Q3`, the IQR bounds are inverted (`lower > upper`) exactly when the IQR is positive and `left + right < -1` |
| FindOutliers.FindOutliersIqr | outliers_lib/find_outliers.py:6-39 | the IQR detector returns two subsequences of its input that share no row; a row is an outlier exactly when its key (the value, or `log1p` of it under `log_scale`) lies below `Q1 - left * IQR` or above `Q3 + right * IQR` of the key column, and cleaned exactly when its key lies strictly between them |
| Frames.SelectTransform | outliers_lib/find_outliers.py:36-37 | selecting with a mask and then transforming the values equals selecting the transformed rows with the mask that reads the transformed value |
| FindOutliers.IqrLogScaleIsRawOnTransformed | outliers_lib/find_outliers.py:25-37 | `log_scale` mode is raw mode run on `log1p` of the values, except that the outputs keep the original values: transforming the log-mode outliers and cleaned rows gives the raw-mode outputs of the transformed rows |
| FindOutliers.IqrNonNegative | outliers_lib/find_outliers.py:30-31 | with a non-empty column both quartiles are numbers and `Q3 - Q1 >= 0`; with an empty column both are NaN |
| FindOutliers.IqrBoundsOrdered | outliers_lib/find_outliers.py:33-34 | with `Q1 <= Q3` and `left, right >= 0`: `lower <= Q1` and `Q3 <= upper` |
| FindOutliers.IqrBoundsWiden | outliers_lib/find_outliers.py:33-34 | larger multipliers give bounds that enclose the old ones |
| FindOutliers.IqrWiderMultipliersFewerOutliers | outliers_lib/find_outliers.py:33-36 | raising `left` or `right` never adds an outlier and never removes a cleaned row |
| FindOutliers.IqrEveryRowPlacedOnce | outliers_lib/find_outliers.py:30-37 | with `left, right >= 0`, each row is an IQR outlier, an IQR-cleaned row or on a bound, and it is exactly one of these |
| FindOutliers.IqrQuartileBandNeverOutlier | outliers_lib/find_outliers.py:30-36 | with `left, right >= 0` on a non-empty column, every IQR outlier lies strictly below `Q1` or strictly above `Q3`: no row inside the quartile band is flagged |
| FindOutliers.ZScoreBounds | outliers_lib/find_outliers.py:70-71 | the bounds `mu - left * sigma` and `mu + right * sigma` are numbers exactly when the column is non-empty and `sigma` is a number |
| FindOutliers.ZScoreBoundsWidth | outliers_lib/find_outliers.py:70-71 | the z-score bounds are `left + right` standard deviations apart, and with equal multipliers they are centred on the mean |
| FindOutliers.ZScoreBoundsInverted | outliers_lib/find_outliers.py:70-71 | with `sigma >= 0`, the z-score bounds are inverted exactly when `sigma > 0` and `left + right < 0` |
| FindOutliers.FindOutliersZScore | outliers_lib/find_outliers.py:42-77 | the z-score detector returns two subsequences of its input that share no row; a row is an outlier exactly when its key lies below `mu - left * sigma` or above `mu + right * sigma` of the key column, and cleaned exactly when its key lies strictly between them |
| FindOutliers.ZScoreLogScaleIsRawOnTransformed | outliers_lib/find_outliers.py:59-75 | the same for the z-score detector: the key column of the rows under `log1p` is the raw column of the transformed rows, and transforming the log-mode outputs gives the raw-mode outputs of the transformed rows |
| FindOutliers.ZScoreZeroSigma | outliers_lib/find_outliers.py:70-71 | with `sigma = 0`, `lower == upper == mu` for every pair of multipliers |
| FindOutliers.ZScoreBoundsOrdered | outliers_lib/find_outliers.py:66-71 | with a true standard deviation and `left, right >= 0`: `lower <= mu <= upper` |
| FindOutliers.ZScoreBoundsWiden | outliers_lib/find_outliers.py:70-71 | larger multipliers give bounds that enclose the old ones |
| FindOutliers.ZScoreMeanNeverOutlier | outliers_lib/find_outliers.py:66-74 | with a true standard deviation and `left, right >= 0`, no z-score outlier has its key equal to the mean |
| FindOutliers.ZScoreConstantColumn | outliers_lib/find_outliers.py:66-75 | for a constant column both the outliers and the cleaned rows are empty: with one row because `sigma` is NaN, with two or more because `sigma = 0` puts every row on the collapsed bound |
| FindOutliers.ZScoreEveryRowPlacedOnce | outliers_lib/find_outliers.py:66-75 | with at least two rows and `left, right >= 0`, each row is a z-score outlier, a cleaned row or on a bound, and it is exactly one of these |
| FindOutliers.ZScoreWiderMultipliersFewerOutliers | outliers_lib/find_outliers.py:70-75 | raising `left` or `right` never adds an outlier and never removes a cleaned row |
| FindOutliers.QuantileBounds | outliers_lib/find_outliers.py:98-99 | an error exactly when a probability lies outside [0, 1]; otherwise both bounds are NaN for an empty column and lie between the column minimum and maximum for a non-empty one |
| FindOutliers.FindOutliersQuantile | outliers_lib/find_outliers.py:80-107 | an error exactly when a probability lies outside [0, 1], naming `left` if it is out of range and `right` otherwise; for probabilities in range, success, with a row an outlier exactly when its value lies below `quantile(left)` or above `quantile(right)` and cleaned exactly when it lies strictly between them; the outputs are two disjoint subsequences of the input |
| FindOutliers.QuantileBoundsOrdered | outliers_lib/find_outliers.py:98-99 | for `0 <= left <= right <= 1` on a non-empty column: `min <= lower <= upper <= max` |
| FindOutliers.QuantileFullRangeNoOutliers | outliers_lib/find_outliers.py:98-102 | with `left = 0` and `right = 1` the bounds are the column minimum and maximum, and there are no outliers |
| FindOutliers.QuantileEveryRowPlacedOnce | outliers_lib/find_outliers.py:98-105 | for `0 <= left <= right <= 1` the detector succeeds, and each row is an outlier, a cleaned row or on a bound, and it is exactly one of these |
| FindOutliers.QuantileWiderProbabilitiesFewerOutliers | outliers_lib/find_outliers.py:98-105 | lowering `left` or raising `right` within [0, 1] never adds an outlier and never removes a cleaned row |
| Stats.Mean | outliers_lib/find_outliers.py:66 | `x.mean()` is a number exactly when the column is non-empty |
| Stats.MeanWithin | outliers_lib/find_outliers.py:66 | when every value lies in `[lo, hi]`, so does the mean |
| Stats.MeanBetween | outliers_lib/find_outliers.py:66 | the mean of a non-empty column lies between its minimum and maximum |
| Stats.Variance | outliers_lib/find_outliers.py:67 | the sample variance (`ddof=1`) is a number exactly when there are at least two values, and then it is non-negative |
| Stats.ConstantColumnStatistics | outliers_lib/find_outliers.py:66-67 | a constant column has that constant as its mean; its standard deviation is 0 with two or more values and NaN otherwise |
| Stats.Sort | outliers_lib/find_outliers.py:30 | the sorted column is ascending and a permutation of the column |
| Stats.SortOfSorted | outliers_lib/find_outliers.py:30 | sorting an ascending column leaves it unchanged |
| Stats.Min | outliers_lib/find_outliers.py:98 | the minimum is a value of the column and at most every value |
| Stats.Max | outliers_lib/find_outliers.py:99 | the maximum is a value of the column and at least every value |
| Stats.Lerp | outliers_lib/find_outliers.py:30 | interpolating a fraction in [0, 1] between `lo <= hi` stays in `[lo, hi]` |
| Stats.LerpMonotone | outliers_lib/find_outliers.py:30 | a larger fraction never gives a smaller interpolated value |
| Stats.Segment | outliers_lib/find_outliers.py:30 | the value between neighbouring order statistics lies between the first and last sorted value |
| Stats.SegmentMonotone | outliers_lib/find_outliers.py:30 | a later position (whole part, then fraction) never gives a smaller value |
| Stats.FractionalPart | outliers_lib/find_outliers.py:30 | a position in `[0, n - 1]` has a whole part that is a valid index and a fraction in `[0, 1)` |
| Stats.Position | outliers_lib/find_outliers.py:30 | the position `(n - 1) * p` lies in `[0, n - 1]` |
| Stats.PositionMonotone | outliers_lib/find_outliers.py:30 | the position is non-decreasing in `p` |
| Stats.Interpolate | outliers_lib/find_outliers.py:30 | linear interpolation on a sorted column lies between its first and last value |
| Stats.InterpolateMonotone | outliers_lib/find_outliers.py:30 | linear interpolation is non-decreasing in `p` |
| Stats.InterpolateAtOrderStatistic | outliers_lib/find_outliers.py:30 | at `p = k / (n - 1)` the interpolation equals the `k`-th sorted value exactly |
| Stats.InterpolateEnds | outliers_lib/find_outliers.py:98-99 | `p = 0` gives the first sorted value and `p = 1` the last |
| Stats.SortEnds | outliers_lib/find_outliers.py:98-99 | the first sorted value is the minimum and the last is the maximum |
| Stats.Quantile | outliers_lib/find_outliers.py:30 | the quantile is a number exactly when the column is non-empty, and it lies between the column minimum and maximum |
| Stats.SeriesQuantile | outliers_lib/find_outliers.py:98-99 | `x.quantile(q)` fails exactly when `q` is outside [0, 1], naming `q` |
| Stats.QuantileMonotone | outliers_lib/find_outliers.py:30 | a larger probability never gives a smaller quantile, so `Q1 <= Q3` |
| Stats.QuantileExtremes | outliers_lib/find_outliers.py:98-99 | the 0 quantile is the minimum and the 1 quantile the maximum |
| FindOutliers.IqrDefaultArguments | outliers_lib/find_outliers.py:6 | with the IQR defaults `left = 1.3`, `right = 1.5`, every row is placed exactly once |
| FindOutliers.ZScoreDefaultArguments | outliers_lib/find_outliers.py:42 | with the z-score defaults `left = right = 3`, no outlier's key equals the mean |
| FindOutliers.QuantileDefaultArguments | outliers_lib/find_outliers.py:80 | the default probabilities `0.01` and `0.99` are accepted and give ordered bounds on a non-empty column |
| FindOutliersExamples.SpreadQuartiles | outliers_lib/find_outliers.py:30-34 | the quartiles of `[10, 12, 13, 14, 15, 16, 18, 100]` are 12.75 and 16.5, so one IQR on each side gives the bounds 9 and 20.25 |
| FindOutliersExamples.IqrExample | outliers_lib/find_outliers.py:6-39 | on that column with `left = right = 1`, only 100 is an outlier and the other seven rows are cleaned |
| FindOutliersExamples.SkewedUpperQuantile | outliers_lib/find_outliers.py:99 | the 0.8 quantile of `[1, 2, 3, 4, 5, 100]` is exactly 5 |
| FindOutliersExamples.QuantileClippingExample | outliers_lib/find_outliers.py:80-107 | quantile clipping of that column at 0 and 0.8 gives the outliers `[100]` and the cleaned rows `[2, 3, 4]`; 1 and 5 sit on the bounds |
| FindOutliersExamples.ZScoreConstantExample | outliers_lib/find_outliers.py:66-75 | a z-score on the constant column `[7, 7, 7]` gives two empty outputs |

## Left out

- Floating point: values are exact reals. Rounding, infinities and NaN values in the data are not modelled. pandas skips NaN values in `quantile` and `mean`, and a NaN row fails both masks; neither behaviour is modelled.
- `np.log(data[feature] + 1)` (lines 26 and 61) is an arbitrary function `log1p`. A logarithm's domain (values above -1) and its monotonicity are not modelled.
- `x.std()` (line 67) is not computed, because it needs a square root. `FindOutliers.FindOutliersZScore` takes `sigma` as a parameter constrained by `IsStd`.
- The data frame has one numeric column. A row keeps its index label (`Row.id`) in the outputs, but other columns, index alignment of the boolean mask and the `feature` lookup are left out. Library errors such as a `KeyError` for a missing column or a `TypeError` on non-numeric data are not modelled; the code does no validation of its own.
- The `IndentationError` at line 80 is a syntax defect, not behaviour.
