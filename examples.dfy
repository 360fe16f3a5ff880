/**
 * Worked examples of the three detectors on small columns, with the bounds
 * the linear quantile and the bound arithmetic give for them.
 */
module FindOutliersExamples {
  import opened Numeric
  import opened Frames
  import opened Stats
  import opened FindOutliers

  function SkewedRows(): seq<Row> {
    [Row(0, 1.0), Row(1, 2.0), Row(2, 3.0), Row(3, 4.0), Row(4, 5.0), Row(5, 100.0)]
  }

  function SkewedColumn(): seq<real> {
    [1.0, 2.0, 3.0, 4.0, 5.0, 100.0]
  }

  lemma SkewedColumnOfRows()
    ensures Column(SkewedRows(), Raw) == SkewedColumn()
  {
  }

  lemma SkewedInterpolation()
    ensures Sorted(SkewedColumn())
    ensures Interpolate(SkewedColumn(), 0.8) == 5.0
  {
    var x := SkewedColumn();
    assert Position(6, 0.8) == 4.0;
    assert Segment(x, 4, 0.0) == 5.0;
  }

  /** The 0.8 quantile of [1, 2, 3, 4, 5, 100] is exactly 5: position 4 of 0..5, not a point between 4 and 5. */
  lemma SkewedUpperQuantile()
    ensures Quantile(SkewedColumn(), 0.8) == Num(5.0)
  {
    SkewedInterpolation();
    SortOfSorted(SkewedColumn());
  }

  lemma SkewedLowerQuantile()
    ensures Quantile(SkewedColumn(), 0.0) == Num(1.0)
  {
    QuantileExtremes(SkewedColumn());
    assert Min(SkewedColumn()) <= 1.0;
  }

  lemma SkewedQuantiles()
    ensures QuantileBounds(SkewedColumn(), 0.0, 0.8) == Ok(Bounds(Num(1.0), Num(5.0)))
  {
    SkewedUpperQuantile();
    SkewedLowerQuantile();
  }

  lemma SkewedOutliers()
    ensures Select(SkewedRows(), OutlierMask(Raw, Bounds(Num(1.0), Num(5.0)))) == [Row(5, 100.0)]
  {
    var rows, b := SkewedRows(), Bounds(Num(1.0), Num(5.0));
    var out := OutlierMask(Raw, b);
    forall k | 0 <= k < |rows| ensures out(rows[k]) == IsOutlier(rows[k].value, b) { MasksAt(Raw, b, rows[k]); }
    SelectNone(rows[..5], out);
    SelectAll(rows[5..], out);
    SelectAppend(rows[..5], rows[5..], out);
    assert rows[..5] + rows[5..] == rows;
  }

  lemma SkewedCleaned()
    ensures Select(SkewedRows(), CleanedMask(Raw, Bounds(Num(1.0), Num(5.0))))
      == [Row(1, 2.0), Row(2, 3.0), Row(3, 4.0)]
  {
    var rows, b := SkewedRows(), Bounds(Num(1.0), Num(5.0));
    var keep := CleanedMask(Raw, b);
    MasksAt(Raw, b, rows[0]);
    MasksAt(Raw, b, rows[1]);
    MasksAt(Raw, b, rows[2]);
    MasksAt(Raw, b, rows[3]);
    MasksAt(Raw, b, rows[4]);
    MasksAt(Raw, b, rows[5]);
    assert Select(rows[4..], keep) == [];
    assert Select(rows[3..], keep) == [rows[3]];
    assert Select(rows[2..], keep) == [rows[2], rows[3]];
    assert Select(rows[1..], keep) == [rows[1], rows[2], rows[3]];
  }

  /**
   * Quantile clipping of [1, 2, 3, 4, 5, 100] with `left = 0` and
   * `right = 0.8`: only 100 is an outlier, and 1 and 5, which sit on the
   * bounds, are in neither output.
   */
  lemma QuantileClippingExample()
    ensures FindOutliersQuantile(SkewedRows(), 0.0, 0.8)
      == Ok(Split([Row(5, 100.0)], [Row(1, 2.0), Row(2, 3.0), Row(3, 4.0)]))
  {
    SkewedColumnOfRows();
    SkewedQuantiles();
    SkewedOutliers();
    SkewedCleaned();
  }

  function SpreadRows(): seq<Row> {
    [Row(0, 10.0), Row(1, 12.0), Row(2, 13.0), Row(3, 14.0), Row(4, 15.0), Row(5, 16.0), Row(6, 18.0), Row(7, 100.0)]
  }

  function SpreadColumn(): seq<real> {
    [10.0, 12.0, 13.0, 14.0, 15.0, 16.0, 18.0, 100.0]
  }

  lemma SpreadColumnOfRows()
    ensures Column(SpreadRows(), Raw) == SpreadColumn()
  {
  }

  lemma SpreadInterpolation()
    ensures Sorted(SpreadColumn())
    ensures Interpolate(SpreadColumn(), 0.25) == 12.75
    ensures Interpolate(SpreadColumn(), 0.75) == 16.5
  {
    var x := SpreadColumn();
    assert Position(8, 0.25) == 1.75 && Position(8, 0.75) == 5.25;
    assert Segment(x, 1, 0.75) == 12.75;
    assert Segment(x, 5, 0.25) == 16.5;
  }

  lemma SpreadLowerQuartile()
    ensures Quantile(SpreadColumn(), 0.25) == Num(12.75)
  {
    SpreadInterpolation();
    SortOfSorted(SpreadColumn());
  }

  lemma SpreadUpperQuartile()
    ensures Quantile(SpreadColumn(), 0.75) == Num(16.5)
  {
    SpreadInterpolation();
    SortOfSorted(SpreadColumn());
  }

  /** The quartiles of [10, 12, 13, 14, 15, 16, 18, 100] are 12.75 and 16.5, so one IQR on each side gives 9 and 20.25. */
  lemma SpreadQuartiles()
    ensures ColumnIqrBounds(SpreadColumn(), 1.0, 1.0) == Bounds(Num(9.0), Num(20.25))
  {
    SpreadLowerQuartile();
    SpreadUpperQuartile();
  }

  lemma SpreadOutliers()
    ensures Select(SpreadRows(), OutlierMask(Raw, Bounds(Num(9.0), Num(20.25)))) == [Row(7, 100.0)]
  {
    var rows, b := SpreadRows(), Bounds(Num(9.0), Num(20.25));
    var out := OutlierMask(Raw, b);
    forall k | 0 <= k < |rows| ensures out(rows[k]) == IsOutlier(rows[k].value, b) { MasksAt(Raw, b, rows[k]); }
    SelectNone(rows[..7], out);
    SelectAll(rows[7..], out);
    SelectAppend(rows[..7], rows[7..], out);
    assert rows[..7] + rows[7..] == rows;
  }

  lemma SpreadCleaned()
    ensures Select(SpreadRows(), CleanedMask(Raw, Bounds(Num(9.0), Num(20.25)))) == SpreadRows()[..7]
  {
    var rows, b := SpreadRows(), Bounds(Num(9.0), Num(20.25));
    var keep := CleanedMask(Raw, b);
    forall k | 0 <= k < |rows| ensures keep(rows[k]) == IsCleaned(rows[k].value, b) { MasksAt(Raw, b, rows[k]); }
    SelectAll(rows[..7], keep);
    SelectNone(rows[7..], keep);
    SelectAppend(rows[..7], rows[7..], keep);
    assert rows[..7] + rows[7..] == rows;
  }

  /** IQR detection on [10, 12, 13, 14, 15, 16, 18, 100] with one IQR on each side: only 100 is an outlier. */
  lemma IqrExample()
    ensures FindOutliersIqr(SpreadRows(), 1.0, 1.0, false, Raw) == Split([Row(7, 100.0)], SpreadRows()[..7])
  {
    SpreadColumnOfRows();
    SpreadQuartiles();
    assert KeyOf(false, Raw) == Raw;
    SpreadOutliers();
    SpreadCleaned();
  }

  /**
   * The z-score detector on the constant column [7, 7, 7]: its standard
   * deviation is 0, both bounds are 7, and both outputs are empty.
   */
  lemma ZScoreConstantExample(sigma: Scalar)
    requires IsStd([7.0, 7.0, 7.0], sigma)
    ensures var rows := [Row(0, 7.0), Row(1, 7.0), Row(2, 7.0)];
      Column(rows, KeyOf(false, Raw)) == [7.0, 7.0, 7.0]
      && FindOutliersZScore(rows, 3.0, 3.0, false, Raw, sigma) == Split([], [])
  {
    var rows := [Row(0, 7.0), Row(1, 7.0), Row(2, 7.0)];
    assert Column(rows, KeyOf(false, Raw)) == [7.0, 7.0, 7.0];
    ZScoreConstantColumn(rows, 7.0, 3.0, 3.0, false, Raw, sigma);
  }
}
