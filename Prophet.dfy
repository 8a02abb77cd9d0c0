/** The parts of a fitted Prophet model the pipeline relies on. Fitting and
    the forecasting mathematics are not modelled: a fitted model is its
    history dates, whether it has the volume regressor, and an arbitrary
    per-row prediction. */
module Prophet {
  import opened Common

  /** What predict produces for one row. */
  datatype Prediction = Prediction(
    yhat: real, yhatLower: real, yhatUpper: real,
    trend: real, trendLower: real, trendUpper: real)

  /** A fitted model. `historyDates` are the distinct training dates in
      ascending order; `predictRow` gives the prediction for a date and, when
      the model has the volume regressor, the row's volume. */
  datatype Model = Model(
    historyDates: seq<int>,
    usesVolume: bool,
    predictRow: (int, Option<real>) -> Prediction)

  /** Prophet only returns a model fitted on at least one dated row, and it
      keeps the training dates sorted and distinct. */
  predicate Fitted(m: Model)
  {
    |m.historyDates| > 0 &&
    forall i, j :: 0 <= i < j < |m.historyDates| ==> m.historyDates[i] < m.historyDates[j]
  }

  /** A row handed to predict: the date and, when the frame has one, the volume. */
  datatype FutureRow = FutureRow(ds: int, volume: Option<real>)

  datatype FutureFrame = FutureFrame(hasVolume: bool, rows: seq<FutureRow>)

  /** predict's output row, before the pipeline selects and renames columns. */
  datatype ForecastRow = ForecastRow(ds: int, prediction: Prediction)

  datatype PredictError =
    | EmptyFrame         // the frame has no rows
    | MissingRegressor   // the model has the volume regressor, the frame has no volume column
    | NullRegressor      // the volume column holds a null

  predicate HasNullVolume(f: FutureFrame)
  {
    exists i :: 0 <= i < |f.rows| && f.rows[i].volume.None?
  }

  function RowDs(row: FutureRow): int { row.ds }

  /** The prediction predict gives for one row: the volume reaches the model
      only when it has the volume regressor. */
  function PredictOne(m: Model, row: FutureRow): ForecastRow
  {
    ForecastRow(row.ds, m.predictRow(row.ds, if m.usesVolume then row.volume else None))
  }

  /** model.predict(frame): raises on a frame without rows, and when the
      model needs the volume regressor and the frame lacks it or has a null in
      it. Otherwise predict sorts the frame by date and gives one prediction
      per row in that order, so the output dates ascend, and on a frame
      with distinct dates already in date order row i is the prediction of
      input row i (Prophet's sort is not stable, so rows sharing a date
      have no promised order)
      (PredictRows adds that every row is predicted, whatever the order). */
  function Predict(m: Model, f: FutureFrame): (r: Result<seq<ForecastRow>, PredictError>)
    ensures r.Err? <==> |f.rows| == 0 || (m.usesVolume && (!f.hasVolume || HasNullVolume(f)))
    ensures r == Err(EmptyFrame) <==> |f.rows| == 0
    ensures r.Ok? ==> |r.value| == |f.rows| && Ascending(r.value, PredictedDs)
    ensures r.Ok? && StrictlyAscending(f.rows, RowDs) ==>
      forall i :: 0 <= i < |f.rows| ==> r.value[i] == PredictOne(m, f.rows[i])
  {
    if |f.rows| == 0 then Err(EmptyFrame)
    else if m.usesVolume && !f.hasVolume then Err(MissingRegressor)
    else if m.usesVolume && HasNullVolume(f) then Err(NullRegressor)
    else
      var sorted := SortBy(f.rows, RowDs);
      if Ascending(f.rows, RowDs) then
        SortByAscendingIsIdentity(f.rows, RowDs);
        Ok(PredictAll(m, sorted))
      else
        Ok(PredictAll(m, sorted))
  }

  function PredictedDs(row: ForecastRow): int { row.ds }

  /** The predictions of a date-sorted frame, row by row. */
  function PredictAll(m: Model, sorted: seq<FutureRow>): (r: seq<ForecastRow>)
    requires Ascending(sorted, RowDs)
    ensures |r| == |sorted| && Ascending(r, PredictedDs)
    ensures forall i :: 0 <= i < |sorted| ==> r[i] == PredictOne(m, sorted[i])
  {
    seq(|sorted|, i requires 0 <= i < |sorted| => PredictOne(m, sorted[i]))
  }

  /** Whatever the frame's order, each output row is the prediction of some
      frame row, and every frame row's prediction is in the output. */
  lemma PredictRows(m: Model, f: FutureFrame)
    requires Predict(m, f).Ok?
    ensures var r := Predict(m, f).value;
      (forall i :: 0 <= i < |r| ==> exists row :: row in f.rows && r[i] == PredictOne(m, row)) &&
      (forall row :: row in f.rows ==> PredictOne(m, row) in r)
  {
    var sorted := SortBy(f.rows, RowDs);
    var r := Predict(m, f).value;
    assert r == PredictAll(m, sorted);
    SameMembers(sorted, f.rows);
    forall i | 0 <= i < |r| ensures exists row :: row in f.rows && r[i] == PredictOne(m, row) {
      assert sorted[i] in sorted;
    }
    forall row | row in f.rows ensures PredictOne(m, row) in r {
      var i :| 0 <= i < |sorted| && sorted[i] == row;
      assert r[i] == PredictOne(m, row);
    }
  }

  /** make_future_dataframe(periods, freq="D"): the history dates followed by
      `periods` daily dates after the last one. */
  function MakeFutureDataframe(m: Model, periods: nat): (r: FutureFrame)
    requires Fitted(m)
  {
    var last := m.historyDates[|m.historyDates| - 1];
    FutureFrame(false,
      seq(|m.historyDates|, i requires 0 <= i < |m.historyDates| => FutureRow(m.historyDates[i], None)) +
      seq(periods, k requires 0 <= k < periods => FutureRow(last + (k + 1) * MsPerDay, None)))
  }

  /** The future frame has no volume column and |history| + periods rows:
      the history dates first, then one row per day after the last of them,
      so its dates are strictly ascending. */
  lemma {:induction false} MakeFutureDataframeFacts(m: Model, periods: nat)
    requires Fitted(m)
    ensures var f := MakeFutureDataframe(m, periods);
      var h := m.historyDates;
      !f.hasVolume && |f.rows| == |h| + periods &&
      (forall i :: 0 <= i < |h| ==> f.rows[i].ds == h[i]) &&
      (forall i :: |h| <= i < |f.rows| ==> f.rows[i].ds == h[|h| - 1] + (i - |h| + 1) * MsPerDay) &&
      (forall i :: 0 <= i < |f.rows| ==> f.rows[i].volume.None?) &&
      (forall i, j :: 0 <= i < j < |f.rows| ==> f.rows[i].ds < f.rows[j].ds)
  {
    var f := MakeFutureDataframe(m, periods);
    var h := m.historyDates;
    var n := |h|;
    forall i, j | 0 <= i < j < |f.rows| ensures f.rows[i].ds < f.rows[j].ds {
      if j < n {
      } else if i < n {
        assert h[i] <= h[n - 1];
      } else {
        assert (i - n + 1) * MsPerDay < (j - n + 1) * MsPerDay;
      }
    }
  }
}
