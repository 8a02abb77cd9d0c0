/** The service layer (api/services.py): running a pipeline, describing the
    stored model, and serving a forecast from the stored artifacts, retraining
    first when asked to or when no model is stored. The artifact files are the
    fields of one store; running a pipeline is an abstract function of the
    store. */
module Service {
  import opened Common
  import Processing
  import Prophet
  import Training
  import Inference

  /** A model as the pickle file holds it: one Prophet has fitted. */
  type FittedModel = m: Prophet.Model | Prophet.Fitted(m)
    witness Prophet.Model([0], false, (t: int, v: Option<real>) => Prophet.Prediction(0.0, 0.0, 0.0, 0.0, 0.0, 0.0))

  /** The persisted artifacts; a missing file is None. `modelModifiedAt` is
      the model file's modification time. */
  datatype Artifacts = Artifacts(
    model: Option<FittedModel>,
    modelModifiedAt: int,
    report: Option<Training.ModelReport>,
    dataset: Option<Processing.ProphetFrame>,
    summary: Option<Inference.ForecastSummary>)

  /** What running a pipeline leaves in the store, and the text of the
      exception when the run raised (the store may then be partly written). */
  datatype RunEffect = RunEffect(after: Artifacts, failure: Option<string>)

  const DefaultPipeline: string := "__default__"
  const Symbol: string := "BTCUSDT"
  const NoModelMessage: string := "No trained model available. Run the training pipeline first."
  const NoHistoryMessage: string := "No historical data available. Run the pipeline first."
  const FailurePrefix: string := "Pipeline execution failed: "

  // ------------------------------------------------------------------
  // run_pipeline
  // ------------------------------------------------------------------

  datatype RunResult = RunResult(status: string, pipelineName: string, message: string)

  /** The record run_pipeline returns for a run that completed (no failure)
      or raised with the given text. */
  function RunResultOf(name: string, failure: Option<string>): (r: RunResult)
    ensures r.pipelineName == name
    ensures r.status == "success" || r.status == "error"
    ensures r.status == "success" <==> failure.None?
    ensures failure.Some? ==>
      |r.message| == |FailurePrefix| + |failure.value| &&
      r.message[..|FailurePrefix|] == FailurePrefix &&
      r.message[|FailurePrefix|..] == failure.value
  {
    match failure
    case None => RunResult("success", name, "Pipeline '" + name + "' completed successfully")
    case Some(e) => RunResult("error", name, FailurePrefix + e)
  }

  // ------------------------------------------------------------------
  // get_model_info
  // ------------------------------------------------------------------

  /** The report fields get_model_info copies. */
  datatype ReportDetails = ReportDetails(metrics: Training.Metrics, trainingInfo: Training.TrainingInfo)

  datatype ModelInfo = ModelInfo(
    modelExists: bool,
    modelType: Option<string>,
    trainingDate: Option<int>,
    details: Option<ReportDetails>)

  // ------------------------------------------------------------------
  // get_forecast
  // ------------------------------------------------------------------

  /** One entry of the predictions list. */
  datatype ApiPrediction = ApiPrediction(
    date: int, predictedPrice: real, predictedPriceLower: real, predictedPriceUpper: real, trend: real)

  /** Why get_forecast raised instead of answering. */
  datatype ForecastFailure =
    | PredictFailed(reason: Prophet.PredictError)   // model.predict raised
    | EmptyDataset                                   // iloc[-1] on an empty dataset

  datatype ForecastResponse =
    | PipelineFailed(result: RunResult)
    | ForecastError(message: string)
    | Raised(failure: ForecastFailure)
    | ForecastSuccess(
        symbol: string,
        lastHistoricalDate: int,
        lastHistoricalPrice: real,
        forecastDays: nat,
        predictions: seq<ApiPrediction>,
        summary: Option<Inference.ForecastSummary>)

  function ToApi(o: Inference.ForecastOutput): ApiPrediction
  {
    ApiPrediction(o.ds, o.predictedPrice, o.predictedPriceLower, o.predictedPriceUpper, o.trend)
  }

  /** One predictions entry per forecast row, in order, carrying the row's
      date, predicted price, bounds and trend. */
  function ApiPredictions(rows: seq<Inference.ForecastOutput>): (r: seq<ApiPrediction>)
    ensures |r| == |rows|
    ensures forall i :: 0 <= i < |rows| ==>
      r[i].date == rows[i].ds &&
      r[i].predictedPrice == rows[i].predictedPrice &&
      r[i].predictedPriceLower == rows[i].predictedPriceLower &&
      r[i].predictedPriceUpper == rows[i].predictedPriceUpper &&
      r[i].trend == rows[i].trend
  {
    seq(|rows|, i requires 0 <= i < |rows| => ToApi(rows[i]))
  }

  /** The predictions list, built by appending one entry per row. */
  method BuildPredictions(rows: seq<Inference.ForecastOutput>) returns (predictions: seq<ApiPrediction>)
    ensures |predictions| == |rows|
    ensures forall i :: 0 <= i < |rows| ==>
      predictions[i].date == rows[i].ds &&
      predictions[i].predictedPrice == rows[i].predictedPrice &&
      predictions[i].predictedPriceLower == rows[i].predictedPriceLower &&
      predictions[i].predictedPriceUpper == rows[i].predictedPriceUpper &&
      predictions[i].trend == rows[i].trend
    ensures predictions == ApiPredictions(rows)
  {
    predictions := [];
    var i := 0;
    while i < |rows|
      invariant 0 <= i <= |rows|
      invariant |predictions| == i
      invariant forall k :: 0 <= k < i ==> predictions[k] == ToApi(rows[k])
    {
      predictions := predictions + [ToApi(rows[i])];
      i := i + 1;
    }
  }

  /** What get_forecast answers from a store once any retraining is over: the
      model check first, then the dataset check, then the forecast over
      `daysAhead` days (no volume column is passed to predict), keeping the
      rows after the latest historical date. */
  function ForecastFrom(a: Artifacts, daysAhead: nat): ForecastResponse
  {
    if a.model.None? then ForecastError(NoModelMessage)
    else if a.dataset.None? then ForecastError(NoHistoryMessage)
    else
      var m := a.model.value;
      var data := a.dataset.value.rows;
      match Inference.GenerateForecast(m, Prophet.MakeFutureDataframe(m, daysAhead))
      case Err(e) => Raised(PredictFailed(e))
      case Ok(forecast) =>
        if data == [] then Raised(EmptyDataset)
        else
          var predictions := ApiPredictions(Inference.ExtractFuturePredictions(forecast, data));
          ForecastSuccess(Symbol, MaxInt(Processing.Dates(data)), data[|data| - 1].y,
                          |predictions|, predictions, a.summary)
  }

  /** The no-model error comes first, then the no-dataset error; each is
      returned exactly in its case. */
  lemma ForecastFromErrors(a: Artifacts, daysAhead: nat)
    ensures ForecastFrom(a, daysAhead) == ForecastError(NoModelMessage) <==> a.model.None?
    ensures ForecastFrom(a, daysAhead) == ForecastError(NoHistoryMessage) <==> a.model.Some? && a.dataset.None?
    ensures ForecastFrom(a, daysAhead).ForecastError? <==> a.model.None? || a.dataset.None?
  {
    assert |NoModelMessage| != |NoHistoryMessage|;
  }

  /** A successful answer: forecast_days counts the predictions, each dated
      after the latest historical date; the anchor is that date and the last
      row's price; the summary is the stored one (None standing for {}). */
  lemma ForecastFromSuccess(a: Artifacts, daysAhead: nat)
    requires ForecastFrom(a, daysAhead).ForecastSuccess?
    ensures a.model.Some? && a.dataset.Some? && a.dataset.value.rows != []
    ensures var s := ForecastFrom(a, daysAhead);
      var data := a.dataset.value.rows;
      s.symbol == Symbol &&
      s.forecastDays == |s.predictions| &&
      s.lastHistoricalDate == MaxInt(Processing.Dates(data)) &&
      s.lastHistoricalPrice == data[|data| - 1].y &&
      s.summary == a.summary &&
      forall i :: 0 <= i < |s.predictions| ==> s.predictions[i].date > s.lastHistoricalDate
  {
    var m := a.model.value;
    var data := a.dataset.value.rows;
    var forecast := Inference.GenerateForecast(m, Prophet.MakeFutureDataframe(m, daysAhead)).value;
    Inference.ExtractFuturePredictionsFacts(forecast, data);
  }

  /** The predictions are the forecast rows dated after the latest historical
      date, each of them, in the forecast's (ascending) date order. */
  lemma {:induction false} ForecastFromPredictions(a: Artifacts, daysAhead: nat)
    requires ForecastFrom(a, daysAhead).ForecastSuccess?
    ensures a.model.Some? && a.dataset.Some? && a.dataset.value.rows != []
    ensures var s := ForecastFrom(a, daysAhead);
      var m := a.model.value;
      var forecast := Inference.GenerateForecast(m, Prophet.MakeFutureDataframe(m, daysAhead));
      forecast.Ok? &&
      (forall i, j :: 0 <= i < j < |s.predictions| ==> s.predictions[i].date < s.predictions[j].date) &&
      (forall i :: 0 <= i < |s.predictions| ==> exists j :: 0 <= j < |forecast.value| && s.predictions[i] == ToApi(forecast.value[j])) &&
      (forall j :: 0 <= j < |forecast.value| && forecast.value[j].ds > s.lastHistoricalDate ==> ToApi(forecast.value[j]) in s.predictions)
  {
    var data := a.dataset.value.rows;
    var m := a.model.value;
    var forecast := Inference.GenerateForecast(m, Prophet.MakeFutureDataframe(m, daysAhead)).value;
    var last := MaxInt(Processing.Dates(data));
    PredictionsAscending(m, daysAhead, last);
    KeptRows(forecast, last);
    var s := ForecastFrom(a, daysAhead);
    assert s.predictions == ApiPredictions(Filter(forecast, Inference.LaterThan(last)));
    assert s.lastHistoricalDate == last;
  }

  /** The entries built from the rows after `last` are, each of them, those
      rows, and every such row has its entry. */
  lemma KeptRows(forecast: seq<Inference.ForecastOutput>, last: int)
    ensures var p := ApiPredictions(Filter(forecast, Inference.LaterThan(last)));
      (forall i :: 0 <= i < |p| ==> exists j :: 0 <= j < |forecast| && p[i] == ToApi(forecast[j])) &&
      (forall j :: 0 <= j < |forecast| && forecast[j].ds > last ==> ToApi(forecast[j]) in p)
  {
    var kept := Filter(forecast, Inference.LaterThan(last));
    var p := ApiPredictions(kept);
    forall i | 0 <= i < |p|
      ensures exists j :: 0 <= j < |forecast| && p[i] == ToApi(forecast[j])
    {
      assert kept[i] in kept;
      var j :| 0 <= j < |forecast| && forecast[j] == kept[i];
    }
    forall j | 0 <= j < |forecast| && forecast[j].ds > last
      ensures ToApi(forecast[j]) in p
    {
      assert Inference.LaterThan(last)(forecast[j]);
      assert forecast[j] in kept;
      var i :| 0 <= i < |kept| && kept[i] == forecast[j];
      assert p[i] == ToApi(forecast[j]);
    }
  }

  /** The forecast over the model's future frame is strictly ascending by
      date, and so is any filter of it. */
  lemma PredictionsAscending(m: FittedModel, daysAhead: nat, last: int)
    requires Inference.GenerateForecast(m, Prophet.MakeFutureDataframe(m, daysAhead)).Ok?
    ensures StrictlyAscending(Filter(Inference.GenerateForecast(m, Prophet.MakeFutureDataframe(m, daysAhead)).value, Inference.LaterThan(last)), DsOfOutput)
  {
    var g := Prophet.MakeFutureDataframe(m, daysAhead);
    Prophet.MakeFutureDataframeFacts(m, daysAhead);
    var forecast := Inference.GenerateForecast(m, g).value;
    assert forall i :: 0 <= i < |forecast| ==> forecast[i].ds == g.rows[i].ds;
    FilterStrictlyAscending(forecast, Inference.LaterThan(last), DsOfOutput);
  }

  function DsOfOutput(o: Inference.ForecastOutput): int { o.ds }

  /** For a model without the volume regressor fitted on the stored dataset's
      dates, the answer holds exactly `daysAhead` predictions, one per day
      after the latest historical date. */
  lemma ForecastFromHorizon(a: Artifacts, daysAhead: nat)
    requires a.model.Some? && a.dataset.Some? && !a.model.value.usesVolume
    requires a.model.value.historyDates == Processing.Dates(a.dataset.value.rows)
    ensures var s := ForecastFrom(a, daysAhead);
      s.ForecastSuccess? && s.forecastDays == daysAhead &&
      forall k :: 0 <= k < daysAhead ==> s.predictions[k].date == s.lastHistoricalDate + (k + 1) * MsPerDay
  {
    var m := a.model.value;
    var h := a.dataset.value;
    Inference.CreateFutureDataframeWithoutVolume(m, h, daysAhead, false);
    Inference.ForecastHorizon(m, h, daysAhead, false);
    var data := h.rows;
    var n := |data|;
    assert MaxInt(Processing.Dates(data)) == m.historyDates[n - 1] by {
      assert m.historyDates[n - 1] in Processing.Dates(data);
      assert forall i :: 0 <= i < n ==> m.historyDates[i] <= m.historyDates[n - 1];
    }
  }

  // ------------------------------------------------------------------
  // The service
  // ------------------------------------------------------------------

  class ForecastService {
    /** The project's artifacts. */
    var store: Artifacts
    /** Runs a named pipeline against the store (a Kedro session). */
    const runner: (string, Artifacts) -> RunEffect

    constructor(initial: Artifacts, runPipeline: (string, Artifacts) -> RunEffect)
      ensures store == initial && runner == runPipeline
    {
      store := initial;
      runner := runPipeline;
    }

    /** run_pipeline: never raises; the store is whatever the run left, and
        the record reports success or the exception's text. */
    method RunPipeline(name: string) returns (r: RunResult)
      modifies this
      ensures store == runner(name, old(store)).after
      ensures r == RunResultOf(name, runner(name, old(store)).failure)
    {
      var effect := runner(name, store);
      store := effect.after;
      r := RunResultOf(name, effect.failure);
    }

    /** get_model_info: no model, and everything else is None; a model, and
        it is a Prophet model with its file time and, when the report exists,
        the report's metrics and training info. */
    function GetModelInfo(): (r: ModelInfo)
      reads this
      ensures r.modelExists <==> store.model.Some?
      ensures !r.modelExists ==> r.modelType.None? && r.trainingDate.None? && r.details.None?
      ensures r.modelExists ==>
        r.modelType == Some("Prophet") && r.trainingDate == Some(store.modelModifiedAt) &&
        (r.details.Some? <==> store.report.Some?) &&
        (r.details.Some? ==>
          r.details.value.metrics == store.report.value.metrics &&
          r.details.value.trainingInfo == store.report.value.trainingInfo)
    {
      if store.model.None? then ModelInfo(false, None, None, None)
      else
        ModelInfo(true, Some("Prophet"), Some(store.modelModifiedAt),
          match store.report
          case None => None
          case Some(rep) => Some(ReportDetails(rep.metrics, rep.trainingInfo)))
    }

    /** get_forecast: with a stored model and no retrain request no pipeline
        runs and the store is untouched; otherwise the default pipeline runs
        first, and its error record is returned unchanged when it fails. */
    method GetForecast(daysAhead: nat, retrain: bool) returns (r: ForecastResponse)
      modifies this
      ensures !retrain && old(store).model.Some? ==>
        store == old(store) && r == ForecastFrom(old(store), daysAhead)
      ensures retrain || old(store).model.None? ==>
        var e := runner(DefaultPipeline, old(store));
        store == e.after &&
        r == (if e.failure.Some? then PipelineFailed(RunResultOf(DefaultPipeline, e.failure))
              else ForecastFrom(e.after, daysAhead))
    {
      var model := store.model;
      if retrain || model.None? {
        var result := RunPipeline(DefaultPipeline);
        if result.status == "error" {
          return PipelineFailed(result);
        }
        model := store.model;
      }
      if model.None? {
        return ForecastError(NoModelMessage);
      }
      if store.dataset.None? {
        return ForecastError(NoHistoryMessage);
      }
      var m := model.value;
      var data := store.dataset.value.rows;
      var forecast := Inference.GenerateForecast(m, Prophet.MakeFutureDataframe(m, daysAhead));
      if forecast.Err? {
        return Raised(PredictFailed(forecast.error));
      }
      if data == [] {
        return Raised(EmptyDataset);
      }
      var lastDate := MaxInt(Processing.Dates(data));
      var futureForecast := Filter(forecast.value, Inference.LaterThan(lastDate));
      var predictions := BuildPredictions(futureForecast);
      r := ForecastSuccess(Symbol, lastDate, data[|data| - 1].y, |predictions|, predictions, store.summary);
    }
  }
}
