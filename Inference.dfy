/** The inference pipeline (pipelines/inference/nodes.py): the future frame,
    the forecast, the rows after the history, and the forecast summary. */
module Inference {
  import opened Common
  import Processing
  import Prophet

  // ------------------------------------------------------------------
  // create_future_dataframe
  // ------------------------------------------------------------------

  /** How many of the most recent volumes the future estimate averages. */
  const RecentVolumeWindow: nat := 30

  /** The last `n` rows (all of them when there are fewer). */
  function LastRows<T>(s: seq<T>, n: nat): (r: seq<T>)
    ensures |r| == (if |s| < n then |s| else n)
    ensures forall i :: 0 <= i < |r| ==> r[i] == s[|s| - |r| + i]
  {
    if |s| < n then s else s[|s| - n..]
  }

  /** The non-null volumes, in order: pandas' mean skips nulls. */
  function PresentVolumes(rows: seq<Processing.Observation>): (r: seq<real>)
    ensures |r| <= |rows|
  {
    if rows == [] then []
    else (if rows[0].volume.Some? then [rows[0].volume.value] else []) + PresentVolumes(rows[1..])
  }

  /** prophet_data["volume"].tail(30).mean(): None (NaN) when none of the
      last 30 volumes is present. */
  function RecentVolumeAverage(history: seq<Processing.Observation>): Option<real>
  {
    MeanOrNone(PresentVolumes(LastRows(history, RecentVolumeWindow)))
  }

  /** When no volume is null the recent average is the mean of the last 30
      volumes (of all of them when there are fewer). */
  lemma {:induction false} RecentAverageOfPresentVolumes(history: seq<Processing.Observation>)
    requires forall i :: 0 <= i < |history| ==> history[i].volume.Some?
    ensures var recent := LastRows(history, RecentVolumeWindow);
      RecentVolumeAverage(history) ==
      MeanOrNone(seq(|recent|, i requires 0 <= i < |recent| => recent[i].volume.value))
  {
    var recent := LastRows(history, RecentVolumeWindow);
    PresentVolumesAll(recent);
  }

  lemma {:induction false} PresentVolumesAll(rows: seq<Processing.Observation>)
    requires forall i :: 0 <= i < |rows| ==> rows[i].volume.Some?
    ensures PresentVolumes(rows) == seq(|rows|, i requires 0 <= i < |rows| => rows[i].volume.value)
  {
    if rows != [] {
      PresentVolumesAll(rows[1..]);
    }
  }

  /** One future row merged with the history's (ds, volume) on ds: a row per
      history row with that date, or the row with a null volume when there
      is none. */
  function MergeRow(r: Prophet.FutureRow, history: seq<Processing.Observation>): (out: seq<Prophet.FutureRow>)
    ensures |out| >= 1 && forall i :: 0 <= i < |out| ==> out[i].ds == r.ds
  {
    var m := Filter(history, HasKey(Processing.DsOf, r.ds));
    if m == [] then [Prophet.FutureRow(r.ds, None)]
    else seq(|m|, i requires 0 <= i < |m| => Prophet.FutureRow(r.ds, m[i].volume))
  }

  /** future.merge(volume_df, on="ds", how="left"). */
  function MergeVolume(rows: seq<Prophet.FutureRow>, history: seq<Processing.Observation>): (out: seq<Prophet.FutureRow>)
    ensures |out| >= |rows|
  {
    if rows == [] then [] else MergeRow(rows[0], history) + MergeVolume(rows[1..], history)
  }

  /** Whatever the keys, every merged row has the date of a future row and
      carries null or the volume of a history row with that date. */
  lemma {:induction false} MergeVolumeContents(rows: seq<Prophet.FutureRow>, history: seq<Processing.Observation>)
    ensures forall i :: 0 <= i < |MergeVolume(rows, history)| ==>
      MergedFrom(MergeVolume(rows, history)[i], rows, history)
  {
    if rows != [] {
      var a := MergeRow(rows[0], history);
      var b := MergeVolume(rows[1..], history);
      var out := a + b;
      MergeRowContents(rows[0], history);
      MergeVolumeContents(rows[1..], history);
      forall i | 0 <= i < |out| ensures MergedFrom(out[i], rows, history) {
        if i < |a| {
          assert out[i] == a[i];
          assert out[i].ds == rows[0].ds;
        } else {
          assert out[i] == b[i - |a|];
          assert MergedFrom(MergeVolume(rows[1..], history)[i - |a|], rows[1..], history);
          var j :| 0 <= j < |rows[1..]| && b[i - |a|].ds == rows[1..][j].ds;
          assert rows[1..][j] == rows[j + 1];
        }
      }
    }
  }

  /** A merged row that has the date of a future row and carries null or
      the volume of a history row with that date. */
  predicate MergedFrom(x: Prophet.FutureRow, rows: seq<Prophet.FutureRow>, history: seq<Processing.Observation>)
  {
    (exists j :: 0 <= j < |rows| && x.ds == rows[j].ds) &&
    (x.volume.None? || exists k :: 0 <= k < |history| && history[k].ds == x.ds && history[k].volume == x.volume)
  }

  /** The merged rows of one future row carry null or the volume of a
      history row with its date. */
  lemma MergeRowContents(r: Prophet.FutureRow, history: seq<Processing.Observation>)
    ensures var out := MergeRow(r, history);
      forall i :: 0 <= i < |out| ==>
        out[i].volume.None? || exists k :: 0 <= k < |history| && history[k].ds == r.ds && history[k].volume == out[i].volume
  {
    var m := Filter(history, HasKey(Processing.DsOf, r.ds));
    forall i | 0 <= i < |m| ensures exists k :: 0 <= k < |history| && history[k].ds == r.ds && history[k].volume == m[i].volume {
      assert m[i] in m;
      assert Processing.DsOf(m[i]) == r.ds;
      var k :| 0 <= k < |history| && history[k] == m[i];
      assert history[k].ds == r.ds && history[k].volume == m[i].volume;
    }
  }

  /** fillna(avg): a null volume takes the average (and stays null when the
      average is itself NaN). */
  function FillVolume(rows: seq<Prophet.FutureRow>, avg: Option<real>): (out: seq<Prophet.FutureRow>)
    ensures |out| == |rows|
    ensures forall i :: 0 <= i < |rows| ==>
      out[i].ds == rows[i].ds &&
      out[i].volume == (if rows[i].volume.Some? then rows[i].volume else avg)
  {
    seq(|rows|, i requires 0 <= i < |rows| =>
      if rows[i].volume.Some? then rows[i] else Prophet.FutureRow(rows[i].ds, avg))
  }

  /** create_future_dataframe: the model's future frame; with the flag on and
      a volume column in the history, the historical volume of each date,
      and the recent average volume where there is none. */
  function CreateFutureDataframe(m: Prophet.Model, history: Processing.ProphetFrame, forecastDays: nat, addVolume: bool): Prophet.FutureFrame
    requires Prophet.Fitted(m)
  {
    var future := Prophet.MakeFutureDataframe(m, forecastDays);
    if addVolume && history.hasVolume then
      Prophet.FutureFrame(true, FillVolume(MergeVolume(future.rows, history.rows), RecentVolumeAverage(history.rows)))
    else future
  }

  /** The volume a future date gets from a history with distinct dates: the
      historical volume of that date when there is one, else the average. */
  function VolumeFor(history: seq<Processing.Observation>, t: int, avg: Option<real>): Option<real>
  {
    if t in Keys(history, Processing.DsOf) && history[FirstIndex(history, Processing.DsOf, t)].volume.Some?
    then history[FirstIndex(history, Processing.DsOf, t)].volume
    else avg
  }

  /** With the flag off or no volume column in the history, the future frame
      is the model's own and has no volume column. */
  lemma CreateFutureDataframeWithoutVolume(m: Prophet.Model, history: Processing.ProphetFrame, forecastDays: nat, addVolume: bool)
    requires Prophet.Fitted(m) && !(addVolume && history.hasVolume)
    ensures CreateFutureDataframe(m, history, forecastDays, addVolume) == Prophet.MakeFutureDataframe(m, forecastDays)
    ensures !CreateFutureDataframe(m, history, forecastDays, addVolume).hasVolume
  {
  }

  /** With distinct history dates the merge keeps each future row once and
      attaches the volume of its date (null when the date is not in the
      history). */
  lemma {:induction false} MergeVolumeUnique(rows: seq<Prophet.FutureRow>, history: seq<Processing.Observation>)
    requires UniqueKeys(history, Processing.DsOf)
    ensures |MergeVolume(rows, history)| == |rows|
    ensures forall i :: 0 <= i < |rows| ==>
      MergeVolume(rows, history)[i] == Prophet.FutureRow(rows[i].ds,
        if rows[i].ds in Keys(history, Processing.DsOf)
        then history[FirstIndex(history, Processing.DsOf, rows[i].ds)].volume else None)
  {
    if rows != [] {
      FilterUniqueKey(history, Processing.DsOf, rows[0].ds);
      MergeVolumeUnique(rows[1..], history);
      var r := MergeVolume(rows, history);
      assert forall i :: 1 <= i < |rows| ==> r[i] == MergeVolume(rows[1..], history)[i - 1] && rows[i] == rows[1..][i - 1];
    }
  }

  /** With the flag on, a volume column and distinct history dates, the future
      frame has one row per model date (history dates, then the new days), and
      each row carries the historical volume of its date or the average. */
  lemma CreateFutureDataframeWithVolume(m: Prophet.Model, history: Processing.ProphetFrame, forecastDays: nat)
    requires Prophet.Fitted(m) && history.hasVolume
    requires UniqueKeys(history.rows, Processing.DsOf)
    ensures var f := CreateFutureDataframe(m, history, forecastDays, true);
      var g := Prophet.MakeFutureDataframe(m, forecastDays);
      f.hasVolume && |f.rows| == |g.rows| &&
      forall i :: 0 <= i < |f.rows| ==>
        f.rows[i].ds == g.rows[i].ds &&
        f.rows[i].volume == VolumeFor(history.rows, g.rows[i].ds, RecentVolumeAverage(history.rows))
  {
    MergeVolumeUnique(Prophet.MakeFutureDataframe(m, forecastDays).rows, history.rows);
  }

  /** Every merged row's volume is null or a historical volume, so once a
      recent average exists no volume is left null. */
  lemma CreateFutureDataframeNoNulls(m: Prophet.Model, history: Processing.ProphetFrame, forecastDays: nat)
    requires Prophet.Fitted(m) && history.hasVolume
    requires RecentVolumeAverage(history.rows).Some?
    ensures !Prophet.HasNullVolume(CreateFutureDataframe(m, history, forecastDays, true))
  {
  }

  // ------------------------------------------------------------------
  // generate_forecast
  // ------------------------------------------------------------------

  /** The forecast columns kept, with yhat* renamed to predicted_price*. */
  datatype ForecastOutput = ForecastOutput(
    ds: int,
    predictedPrice: real, predictedPriceLower: real, predictedPriceUpper: real,
    trend: real, trendLower: real, trendUpper: real)

  function Rename(r: Prophet.ForecastRow): ForecastOutput
  {
    var p := r.prediction;
    ForecastOutput(r.ds, p.yhat, p.yhatLower, p.yhatUpper, p.trend, p.trendLower, p.trendUpper)
  }

  /** generate_forecast: predict, then select and rename columns. A predict
      failure propagates. The rows come out in date order; on a frame whose
      dates are strictly ascending, as every frame the pipeline builds is,
      row i carries the prediction for the frame's row i. */
  function GenerateForecast(m: Prophet.Model, future: Prophet.FutureFrame): (r: Result<seq<ForecastOutput>, Prophet.PredictError>)
    ensures r.Err? <==> Prophet.Predict(m, future).Err?
    ensures r.Ok? ==>
      |r.value| == |future.rows| &&
      forall i, j :: 0 <= i < j < |r.value| ==> r.value[i].ds <= r.value[j].ds
    ensures r.Ok? && StrictlyAscending(future.rows, Prophet.RowDs) ==>
      forall i :: 0 <= i < |future.rows| ==>
        var p := m.predictRow(future.rows[i].ds, if m.usesVolume then future.rows[i].volume else None);
        r.value[i].ds == future.rows[i].ds &&
        r.value[i].predictedPrice == p.yhat &&
        r.value[i].predictedPriceLower == p.yhatLower &&
        r.value[i].predictedPriceUpper == p.yhatUpper &&
        r.value[i].trend == p.trend && r.value[i].trendLower == p.trendLower && r.value[i].trendUpper == p.trendUpper
  {
    match Prophet.Predict(m, future)
    case Err(e) => Err(e)
    case Ok(rows) => Ok(seq(|rows|, i requires 0 <= i < |rows| => Rename(rows[i])))
  }

  /** A forecast on the frame create_future_dataframe builds succeeds when the
      model either has no volume regressor, or has one and was given the
      volume column together with a recent average to fill it. */
  lemma ForecastSucceeds(m: Prophet.Model, history: Processing.ProphetFrame, forecastDays: nat, addVolume: bool)
    requires Prophet.Fitted(m)
    requires m.usesVolume ==> addVolume && history.hasVolume && RecentVolumeAverage(history.rows).Some?
    ensures GenerateForecast(m, CreateFutureDataframe(m, history, forecastDays, addVolume)).Ok?
  {
    if m.usesVolume {
      CreateFutureDataframeNoNulls(m, history, forecastDays);
    }
  }

  // ------------------------------------------------------------------
  // extract_future_predictions
  // ------------------------------------------------------------------

  function LaterThan(cutoff: int): ForecastOutput -> bool
  {
    (o: ForecastOutput) => o.ds > cutoff
  }

  /** extract_future_predictions: the forecast rows dated after the last
      historical date, in order. Over an empty history the last date is NaT
      and no row compares greater. */
  function ExtractFuturePredictions(forecast: seq<ForecastOutput>, history: seq<Processing.Observation>): seq<ForecastOutput>
  {
    if history == [] then [] else Filter(forecast, LaterThan(MaxInt(Processing.Dates(history))))
  }

  /** The extracted rows are exactly the forecast rows after the last
      historical date: each one is such a row, and each such row is kept. */
  lemma ExtractFuturePredictionsFacts(forecast: seq<ForecastOutput>, history: seq<Processing.Observation>)
    requires |history| > 0
    ensures var last := MaxInt(Processing.Dates(history));
      var r := ExtractFuturePredictions(forecast, history);
      |r| <= |forecast| &&
      (forall i :: 0 <= i < |r| ==> r[i] in forecast && r[i].ds > last) &&
      (forall j :: 0 <= j < |forecast| && forecast[j].ds > last ==> forecast[j] in r)
  {
    var last := MaxInt(Processing.Dates(history));
    var r := Filter(forecast, LaterThan(last));
    assert ExtractFuturePredictions(forecast, history) == r;
    forall i | 0 <= i < |r| ensures r[i] in forecast && r[i].ds > last {
      assert r[i] in r;
    }
    forall j | 0 <= j < |forecast| && forecast[j].ds > last ensures forecast[j] in r {
      assert LaterThan(last)(forecast[j]) && forecast[j] in forecast;
    }
  }

  /** Over an empty history nothing is extracted. */
  lemma ExtractFromEmptyHistory(forecast: seq<ForecastOutput>)
    ensures ExtractFuturePredictions(forecast, []) == []
  {
  }

  /** When the first `n` forecast rows are dated at or before `last` and the
      rest after it, the rows kept are exactly the rest. */
  lemma {:induction false} FilterPastCutoff(forecast: seq<ForecastOutput>, last: int, n: nat)
    requires n <= |forecast|
    requires forall i :: 0 <= i < n ==> forecast[i].ds <= last
    requires forall i :: n <= i < |forecast| ==> forecast[i].ds > last
    ensures Filter(forecast, LaterThan(last)) == forecast[n..]
  {
    var a := forecast[..n];
    var b := forecast[n..];
    assert forecast == a + b;
    FilterAppend(a, b, LaterThan(last));
    assert forall i :: 0 <= i < |a| ==> a[i] == forecast[i];
    FilterNone(a, LaterThan(last));
    assert forall i :: 0 <= i < |b| ==> b[i] == forecast[n + i];
    FilterAll(b, LaterThan(last));
  }

  /** A history of consecutive days and a forecast of the same days followed
      by `k` more: exactly the last `k` forecast rows are extracted (30 days
      of history and 35 forecast rows give 5). */
  lemma {:induction false} ExtractAfterConsecutiveDays(forecast: seq<ForecastOutput>, history: seq<Processing.Observation>, start: int, k: nat)
    requires |history| > 0 && Processing.ConsecutiveDays(history, start)
    requires |forecast| == |history| + k
    requires forall j :: 0 <= j < |forecast| ==> forecast[j].ds == start + j * MsPerDay
    ensures ExtractFuturePredictions(forecast, history) == forecast[|history|..]
    ensures |ExtractFuturePredictions(forecast, history)| == k
  {
    var n := |history|;
    Processing.ConsecutiveDaysMax(history, start);
    var last := MaxInt(Processing.Dates(history));
    forall i | 0 <= i < n ensures forecast[i].ds <= last {
      assert i * MsPerDay <= (n - 1) * MsPerDay;
    }
    forall i | n <= i < |forecast| ensures forecast[i].ds > last {
      assert (n - 1) * MsPerDay < i * MsPerDay;
    }
    FilterPastCutoff(forecast, last, n);
  }

  /** The dates of the forecast over create_future_dataframe's frame: the
      model's history dates, then one per day after the last of them. */
  lemma {:induction false} ForecastDates(m: Prophet.Model, history: Processing.ProphetFrame, forecastDays: nat, addVolume: bool)
    requires Prophet.Fitted(m) && m.historyDates == Processing.Dates(history.rows)
    requires GenerateForecast(m, CreateFutureDataframe(m, history, forecastDays, addVolume)).Ok?
    ensures var forecast := GenerateForecast(m, CreateFutureDataframe(m, history, forecastDays, addVolume)).value;
      var h := m.historyDates;
      |forecast| == |h| + forecastDays &&
      (forall i :: 0 <= i < |h| ==> forecast[i].ds == h[i]) &&
      (forall i :: |h| <= i < |forecast| ==> forecast[i].ds == h[|h| - 1] + (i - |h| + 1) * MsPerDay)
  {
    var g := Prophet.MakeFutureDataframe(m, forecastDays);
    Prophet.MakeFutureDataframeFacts(m, forecastDays);
    FutureFrameDates(m, history, forecastDays, addVolume);
  }

  /** create_future_dataframe keeps the model's future dates, row by row, so
      its dates are strictly ascending. */
  lemma {:induction false} FutureFrameDates(m: Prophet.Model, history: Processing.ProphetFrame, forecastDays: nat, addVolume: bool)
    requires Prophet.Fitted(m) && m.historyDates == Processing.Dates(history.rows)
    ensures var f := CreateFutureDataframe(m, history, forecastDays, addVolume);
      var g := Prophet.MakeFutureDataframe(m, forecastDays);
      |f.rows| == |g.rows| && (forall i :: 0 <= i < |f.rows| ==> f.rows[i].ds == g.rows[i].ds) &&
      StrictlyAscending(f.rows, Prophet.RowDs)
  {
    var h := m.historyDates;
    var g := Prophet.MakeFutureDataframe(m, forecastDays);
    Prophet.MakeFutureDataframeFacts(m, forecastDays);
    var f := CreateFutureDataframe(m, history, forecastDays, addVolume);
    if addVolume && history.hasVolume {
      forall i, j | 0 <= i < |history.rows| && 0 <= j < |history.rows| && i != j
        ensures history.rows[i].ds != history.rows[j].ds
      {
        assert h[i] == history.rows[i].ds && h[j] == history.rows[j].ds;
      }
      CreateFutureDataframeWithVolume(m, history, forecastDays);
    }
    assert |f.rows| == |g.rows| && forall i :: 0 <= i < |f.rows| ==> f.rows[i].ds == g.rows[i].ds;
  }

  /** End to end: for a model fitted on the history's dates, with distinct
      history dates, the extracted predictions are exactly `forecastDays`
      rows, one per day after the last historical date, in order. */
  lemma {:induction false} ForecastHorizon(m: Prophet.Model, history: Processing.ProphetFrame, forecastDays: nat, addVolume: bool)
    requires Prophet.Fitted(m) && m.historyDates == Processing.Dates(history.rows)
    requires GenerateForecast(m, CreateFutureDataframe(m, history, forecastDays, addVolume)).Ok?
    ensures var forecast := GenerateForecast(m, CreateFutureDataframe(m, history, forecastDays, addVolume)).value;
      var p := ExtractFuturePredictions(forecast, history.rows);
      var h := m.historyDates;
      |p| == forecastDays &&
      forall k :: 0 <= k < forecastDays ==> p[k].ds == h[|h| - 1] + (k + 1) * MsPerDay
  {
    ForecastDates(m, history, forecastDays, addVolume);
    var forecast := GenerateForecast(m, CreateFutureDataframe(m, history, forecastDays, addVolume)).value;
    ExtractAfterHistory(forecast, history.rows, forecastDays);
  }

  /** A forecast of the history's dates, strictly ascending, followed by
      `periods` daily dates: exactly the rows after the history are
      extracted, the k-th dated k + 1 days after the last historical date. */
  lemma {:induction false} ExtractAfterHistory(forecast: seq<ForecastOutput>, history: seq<Processing.Observation>, periods: nat)
    requires |history| > 0
    requires forall i, j :: 0 <= i < j < |history| ==> history[i].ds < history[j].ds
    requires |forecast| == |history| + periods
    requires forall i :: 0 <= i < |history| ==> forecast[i].ds == history[i].ds
    requires forall i :: |history| <= i < |forecast| ==>
      forecast[i].ds == history[|history| - 1].ds + (i - |history| + 1) * MsPerDay
    ensures var p := ExtractFuturePredictions(forecast, history);
      |p| == periods &&
      forall k :: 0 <= k < periods ==> p[k].ds == history[|history| - 1].ds + (k + 1) * MsPerDay
  {
    var n := |history|;
    var last := MaxInt(Processing.Dates(history));
    assert last == history[n - 1].ds by {
      assert Processing.Dates(history)[n - 1] == history[n - 1].ds;
      assert forall i :: 0 <= i < n ==> Processing.Dates(history)[i] <= history[n - 1].ds;
    }
    forall i | 0 <= i < n ensures forecast[i].ds <= last {
      if i < n - 1 {
        assert history[i].ds < history[n - 1].ds;
      }
    }
    forall i | n <= i < |forecast| ensures forecast[i].ds > last {
      assert (i - n + 1) * MsPerDay > 0;
    }
    FilterPastCutoff(forecast, last, n);
    var p := forecast[n..];
    forall k | 0 <= k < periods ensures p[k].ds == history[n - 1].ds + (k + 1) * MsPerDay {
      assert p[k] == forecast[n + k];
      assert n + k - n + 1 == k + 1;
    }
  }

  // ------------------------------------------------------------------
  // create_forecast_summary
  // ------------------------------------------------------------------

  datatype PricePredictions = PricePredictions(firstDay: real, lastDay: real, maxPredicted: real, minPredicted: real)

  /** Percentage changes from the last historical price: at the 7th and 30th
      forecast day when the forecast reaches them, and at its end. */
  datatype ExpectedChanges = ExpectedChanges(sevenDay: Option<real>, thirtyDay: Option<real>, endOfForecast: real)

  datatype ForecastSummary = ForecastSummary(
    lastHistoricalPrice: real,
    lastHistoricalDate: int,
    forecastStartDate: Option<int>,
    forecastEndDate: Option<int>,
    forecastDays: nat,
    predictions: Option<PricePredictions>,
    expectedChanges: Option<ExpectedChanges>,
    avgIntervalWidth: Option<real>)

  datatype SummaryError =
    | NoHistory        // iloc[-1] on an empty history raises IndexError
    | ZeroLastPrice    // the percentage change divides by a last price of 0.0

  /** (pred - base) / base * 100. */
  function ChangePct(pred: real, base: real): real
    requires base != 0.0
  {
    (pred - base) / base * 100.0
  }

  function PredictedPrices(f: seq<ForecastOutput>): (r: seq<real>)
    ensures |r| == |f| && forall i :: 0 <= i < |f| ==> r[i] == f[i].predictedPrice
  {
    seq(|f|, i requires 0 <= i < |f| => f[i].predictedPrice)
  }

  function IntervalWidths(f: seq<ForecastOutput>): (r: seq<real>)
    ensures |r| == |f| && forall i :: 0 <= i < |f| ==> r[i] == f[i].predictedPriceUpper - f[i].predictedPriceLower
  {
    seq(|f|, i requires 0 <= i < |f| => f[i].predictedPriceUpper - f[i].predictedPriceLower)
  }

  /** create_forecast_summary. */
  function CreateForecastSummary(future: seq<ForecastOutput>, history: seq<Processing.Observation>): Result<ForecastSummary, SummaryError>
  {
    if history == [] then Err(NoHistory)
    else
      var lastPrice := history[|history| - 1].y;
      var lastDate := history[|history| - 1].ds;
      if future == [] then
        Ok(ForecastSummary(lastPrice, lastDate, None, None, 0, None, None, None))
      else if lastPrice == 0.0 then Err(ZeroLastPrice)
      else
        var prices := PredictedPrices(future);
        var n := |future|;
        var changes := ExpectedChanges(
          if n >= 7 then Some(ChangePct(prices[6], lastPrice)) else None,
          if n >= 30 then Some(ChangePct(prices[29], lastPrice)) else None,
          ChangePct(prices[n - 1], lastPrice));
        Ok(ForecastSummary(lastPrice, lastDate, Some(future[0].ds), Some(future[n - 1].ds), n,
          Some(PricePredictions(prices[0], prices[n - 1], MaxReal(prices), MinReal(prices))),
          Some(changes),
          Some(Mean(IntervalWidths(future)))))
  }

  /** The summary fails exactly on an empty history, or on a zero last price
      when there is something to compare with it. */
  lemma SummaryErrors(future: seq<ForecastOutput>, history: seq<Processing.Observation>)
    ensures CreateForecastSummary(future, history) == Err(NoHistory) <==> history == []
    ensures CreateForecastSummary(future, history) == Err(ZeroLastPrice) <==>
      history != [] && future != [] && history[|history| - 1].y == 0.0
  {
  }

  /** With nothing to summarise the summary carries only the last historical
      price and date, zero forecast days and no statistics. */
  lemma SummaryOfNoPredictions(history: seq<Processing.Observation>)
    requires history != []
    ensures var s := CreateForecastSummary([], history);
      s.Ok? &&
      s.value.lastHistoricalPrice == history[|history| - 1].y &&
      s.value.lastHistoricalDate == history[|history| - 1].ds &&
      s.value.forecastDays == 0 &&
      s.value.forecastStartDate.None? && s.value.forecastEndDate.None? &&
      s.value.predictions.None? && s.value.expectedChanges.None? && s.value.avgIntervalWidth.None?
  {
  }

  /** A summary of a non-empty forecast: its span and length, the first and
      last prices within the minimum and maximum (both of which are attained),
      the changes present exactly when the forecast is long enough, and the
      average width of the uncertainty interval. */
  lemma {:induction false} SummaryFacts(future: seq<ForecastOutput>, history: seq<Processing.Observation>)
    requires history != [] && future != [] && history[|history| - 1].y != 0.0
    ensures var s := CreateForecastSummary(future, history);
      var base := history[|history| - 1].y;
      var n := |future|;
      s.Ok? && s.value.lastHistoricalPrice == base &&
      s.value.lastHistoricalDate == history[|history| - 1].ds &&
      s.value.forecastDays == n &&
      s.value.forecastStartDate == Some(future[0].ds) && s.value.forecastEndDate == Some(future[n - 1].ds) &&
      s.value.predictions.Some? && s.value.expectedChanges.Some? &&
      s.value.avgIntervalWidth == Some(Mean(IntervalWidths(future))) &&
      (var p := s.value.predictions.value;
       p.firstDay == future[0].predictedPrice && p.lastDay == future[n - 1].predictedPrice &&
       p.minPredicted <= p.firstDay <= p.maxPredicted &&
       p.minPredicted <= p.lastDay <= p.maxPredicted &&
       (forall i :: 0 <= i < n ==> p.minPredicted <= future[i].predictedPrice <= p.maxPredicted) &&
       (exists i :: 0 <= i < n && future[i].predictedPrice == p.maxPredicted) &&
       (exists i :: 0 <= i < n && future[i].predictedPrice == p.minPredicted)) &&
      (var c := s.value.expectedChanges.value;
       (c.sevenDay.Some? <==> n >= 7) &&
       (c.sevenDay.Some? ==> c.sevenDay.value == ChangePct(future[6].predictedPrice, base)) &&
       (c.thirtyDay.Some? <==> n >= 30) &&
       (c.thirtyDay.Some? ==> c.thirtyDay.value == ChangePct(future[29].predictedPrice, base)) &&
       c.endOfForecast == ChangePct(future[n - 1].predictedPrice, base))
  {
    var prices := PredictedPrices(future);
    var mx := MaxReal(prices);
    var mn := MinReal(prices);
    var i :| 0 <= i < |prices| && prices[i] == mx;
    var j :| 0 <= j < |prices| && prices[j] == mn;
    assert future[i].predictedPrice == mx && future[j].predictedPrice == mn;
  }

  /** The change is positive exactly when the predicted price is above a
      positive last price. */
  lemma ChangeSign(pred: real, base: real)
    requires base > 0.0
    ensures ChangePct(pred, base) > 0.0 <==> pred > base
    ensures ChangePct(pred, base) == 0.0 <==> pred == base
  {
  }

  /** When every interval has its lower bound at or below its upper bound, the
      average interval width is not negative. */
  lemma SummaryWidthNonNegative(future: seq<ForecastOutput>, history: seq<Processing.Observation>)
    requires history != [] && future != [] && history[|history| - 1].y != 0.0
    requires forall i :: 0 <= i < |future| ==> future[i].predictedPriceLower <= future[i].predictedPriceUpper
    ensures CreateForecastSummary(future, history).value.avgIntervalWidth.value >= 0.0
  {
    var w := IntervalWidths(future);
    MeanBetweenMinAndMax(w);
  }
}
