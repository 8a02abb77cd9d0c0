/** Model evaluation metrics and the training report
    (pipelines/model_training/nodes.py). Fitting the model is not modelled. */
module Training {
  import opened Common
  import Processing
  import Prophet

  /** A square root: a non-negative value whose square is its argument
      (and the root of zero is zero). */
  ghost predicate SqrtLike(sqrt: real -> real)
  {
    sqrt(0.0) == 0.0 &&
    forall x :: x >= 0.0 ==> sqrt(x) >= 0.0 && sqrt(x) * sqrt(x) == x
  }

  /** The offset MAPE adds to each |actual| (1e-10). */
  const Epsilon: real := 1.0 / 10_000_000_000.0

  /** Abs on reals. */
  function Abs(x: real): (r: real)
    ensures r >= 0.0 && (r == x || r == -x)
  {
    if x < 0.0 then -x else x
  }

  function AbsErrors(yTrue: seq<real>, yPred: seq<real>): (r: seq<real>)
    requires |yTrue| == |yPred|
    ensures |r| == |yTrue| && forall i :: 0 <= i < |r| ==> r[i] == Abs(yTrue[i] - yPred[i])
  {
    seq(|yTrue|, i requires 0 <= i < |yTrue| => Abs(yTrue[i] - yPred[i]))
  }

  function PercentageErrors(yTrue: seq<real>, yPred: seq<real>): (r: seq<real>)
    requires |yTrue| == |yPred|
    ensures |r| == |yTrue| && forall i :: 0 <= i < |r| ==> r[i] == Abs(yTrue[i] - yPred[i]) / (Abs(yTrue[i]) + Epsilon)
  {
    seq(|yTrue|, i requires 0 <= i < |yTrue| => Abs(yTrue[i] - yPred[i]) / (Abs(yTrue[i]) + Epsilon))
  }

  function Square(x: real): real
  {
    x * x
  }

  function SquaredErrors(yTrue: seq<real>, yPred: seq<real>): (r: seq<real>)
    requires |yTrue| == |yPred|
    ensures |r| == |yTrue| && forall i :: 0 <= i < |r| ==> r[i] == Square(yTrue[i] - yPred[i])
  {
    seq(|yTrue|, i requires 0 <= i < |yTrue| => Square(yTrue[i] - yPred[i]))
  }

  /** The squared deviations of `ys` from the value `c`. */
  function SquaredDeviations(ys: seq<real>, c: real): (r: seq<real>)
    ensures |r| == |ys| && forall i :: 0 <= i < |r| ==> r[i] == Square(ys[i] - c)
  {
    seq(|ys|, i requires 0 <= i < |ys| => Square(ys[i] - c))
  }

  /** The evaluation metrics. A NaN (from an empty test set, or from R² with
      SS_tot = 0) is None; an empty column's minimum and maximum date are None. */
  datatype Metrics = Metrics(
    mae: Option<real>,
    mape: Option<real>,
    rmse: Option<real>,
    r2: Option<real>,
    testSamples: nat,
    testStartDate: Option<int>,
    testEndDate: Option<int>)

  function Targets(rows: seq<Processing.Observation>): (r: seq<real>)
    ensures |r| == |rows| && forall i :: 0 <= i < |rows| ==> r[i] == rows[i].y
  {
    seq(|rows|, i requires 0 <= i < |rows| => rows[i].y)
  }

  /** mean |y_true - y_pred|; NaN (None) over an empty test set. */
  function Mae(yTrue: seq<real>, yPred: seq<real>): Option<real>
    requires |yTrue| == |yPred|
  {
    if |yTrue| == 0 then None else Some(Mean(AbsErrors(yTrue, yPred)))
  }

  /** 100 * mean(|y_true - y_pred| / (|y_true| + 1e-10)). */
  function Mape(yTrue: seq<real>, yPred: seq<real>): Option<real>
    requires |yTrue| == |yPred|
  {
    if |yTrue| == 0 then None else Some(Mean(PercentageErrors(yTrue, yPred)) * 100.0)
  }

  /** mean((y_true - y_pred)^2) ** 0.5. */
  function Rmse(yTrue: seq<real>, yPred: seq<real>, sqrt: real -> real): Option<real>
    requires |yTrue| == |yPred|
  {
    if |yTrue| == 0 then None else Some(sqrt(Mean(SquaredErrors(yTrue, yPred))))
  }

  /** 1 - SS_res / SS_tot. With SS_tot = 0 numpy gives NaN or -inf, and over
      an empty test set NaN: None in each case. */
  function R2(yTrue: seq<real>, yPred: seq<real>): Option<real>
    requires |yTrue| == |yPred|
  {
    if |yTrue| == 0 then None
    else
      var ssTot := Sum(SquaredDeviations(yTrue, Mean(yTrue)));
      if ssTot == 0.0 then None else Some(1.0 - Sum(SquaredErrors(yTrue, yPred)) / ssTot)
  }

  function MinOf(dates: seq<int>): Option<int>
  {
    if |dates| == 0 then None else Some(MinInt(dates))
  }

  function MaxOf(dates: seq<int>): Option<int>
  {
    if |dates| == 0 then None else Some(MaxInt(dates))
  }

  /** The metrics dictionary over paired actuals and predictions, with the
      test dates. */
  function MetricsOf(yTrue: seq<real>, yPred: seq<real>, dates: seq<int>, sqrt: real -> real): Metrics
    requires |yTrue| == |yPred| == |dates|
  {
    Metrics(Mae(yTrue, yPred), Mape(yTrue, yPred), Rmse(yTrue, yPred, sqrt), R2(yTrue, yPred),
            |yTrue|, MinOf(dates), MaxOf(dates))
  }

  /** The frame evaluate_model hands to predict: the test dates, plus the test
      volumes when the flag is on and the test frame has a volume column. */
  function EvaluationFrame(test: Processing.ProphetFrame, addVolume: bool): Prophet.FutureFrame
  {
    var withVolume := addVolume && test.hasVolume;
    Prophet.FutureFrame(withVolume,
      seq(|test.rows|, i requires 0 <= i < |test.rows| =>
        Prophet.FutureRow(test.rows[i].ds, if withVolume then test.rows[i].volume else None)))
  }

  function Yhats(f: seq<Prophet.ForecastRow>): (r: seq<real>)
    ensures |r| == |f| && forall i :: 0 <= i < |f| ==> r[i] == f[i].prediction.yhat
  {
    seq(|f|, i requires 0 <= i < |f| => f[i].prediction.yhat)
  }

  /** evaluate_model: predict the test dates, then score yhat against y
      position by position. predict returns its rows in date order, so on a
      test frame with strictly ascending dates (as the split of the dataset
      produces) each actual is scored against the prediction for its own
      row. A predict failure propagates. */
  function EvaluateModel(m: Prophet.Model, test: Processing.ProphetFrame, addVolume: bool, sqrt: real -> real): (r: Result<Metrics, Prophet.PredictError>)
    ensures r.Err? <==> Prophet.Predict(m, EvaluationFrame(test, addVolume)).Err?
    ensures |test.rows| == 0 ==> r == Err(Prophet.EmptyFrame)
    ensures r.Ok? ==>
      var yhat := Yhats(Prophet.Predict(m, EvaluationFrame(test, addVolume)).value);
      var y := Targets(test.rows);
      |yhat| == |y| &&
      r.value.mae == Mae(y, yhat) && r.value.mape == Mape(y, yhat) &&
      r.value.rmse == Rmse(y, yhat, sqrt) && r.value.r2 == R2(y, yhat)
    ensures r.Ok? ==> r.value.testSamples == |test.rows| &&
                      r.value.testStartDate == MinOf(Processing.Dates(test.rows)) &&
                      r.value.testEndDate == MaxOf(Processing.Dates(test.rows))
  {
    match Prophet.Predict(m, EvaluationFrame(test, addVolume))
    case Err(e) => Err(e)
    case Ok(forecast) => Ok(MetricsOf(Targets(test.rows), Yhats(forecast), Processing.Dates(test.rows), sqrt))
  }

  /** The test rows the model can be scored on: at least one row and, when
      the model has the volume regressor, a volume column passed to predict
      with no null in it. */
  predicate Evaluable(m: Prophet.Model, test: Processing.ProphetFrame, addVolume: bool)
  {
    |test.rows| > 0 &&
    (m.usesVolume ==> addVolume && test.hasVolume &&
                      forall i :: 0 <= i < |test.rows| ==> test.rows[i].volume.Some?)
  }

  /** Evaluation succeeds exactly on the evaluable test frames. */
  lemma EvaluableIff(m: Prophet.Model, test: Processing.ProphetFrame, addVolume: bool, sqrt: real -> real)
    ensures EvaluateModel(m, test, addVolume, sqrt).Ok? <==> Evaluable(m, test, addVolume)
  {
    var f := EvaluationFrame(test, addVolume);
    if m.usesVolume && addVolume && test.hasVolume {
      assert Prophet.HasNullVolume(f) <==> exists i :: 0 <= i < |test.rows| && test.rows[i].volume.None? by {
        assert forall i :: 0 <= i < |test.rows| ==> f.rows[i].volume == test.rows[i].volume;
      }
    }
  }

  /** On a test frame with strictly ascending dates, as the split gives,
      each yhat scored against row i's actual is the model's prediction for
      row i. */
  lemma EvaluateInOrder(m: Prophet.Model, test: Processing.ProphetFrame, addVolume: bool, sqrt: real -> real)
    requires Evaluable(m, test, addVolume) && StrictlyAscending(test.rows, Processing.DsOf)
    ensures EvaluateModel(m, test, addVolume, sqrt).Ok?
    ensures var yhat := Yhats(Prophet.Predict(m, EvaluationFrame(test, addVolume)).value);
      |yhat| == |test.rows| &&
      forall i :: 0 <= i < |test.rows| ==>
        yhat[i] == m.predictRow(test.rows[i].ds, if m.usesVolume then test.rows[i].volume else None).yhat
  {
    EvaluableIff(m, test, addVolume, sqrt);
    var frame := EvaluationFrame(test, addVolume);
    assert forall i :: 0 <= i < |test.rows| ==> frame.rows[i].ds == test.rows[i].ds;
    assert StrictlyAscending(frame.rows, Prophet.RowDs);
  }

  /** MAE is the mean absolute error and is non-negative; it is zero exactly
      when every prediction is exact. An empty test set has no MAE. */
  lemma {:induction false} MaeFacts(yTrue: seq<real>, yPred: seq<real>)
    requires |yTrue| == |yPred|
    ensures Mae(yTrue, yPred).Some? <==> |yTrue| > 0
    ensures Mae(yTrue, yPred).Some? ==>
      Mae(yTrue, yPred).value == Mean(AbsErrors(yTrue, yPred)) && Mae(yTrue, yPred).value >= 0.0 &&
      (Mae(yTrue, yPred).value == 0.0 <==> forall i :: 0 <= i < |yTrue| ==> yTrue[i] == yPred[i])
  {
    if |yTrue| > 0 {
      var ae := AbsErrors(yTrue, yPred);
      SumNonNegative(ae);
      MeanZero(ae);
      assert forall i :: 0 <= i < |ae| ==> (ae[i] == 0.0 <==> yTrue[i] == yPred[i]);
    }
  }

  lemma {:induction false} MeanZero(s: seq<real>)
    requires |s| > 0 && Sum(s) >= 0.0
    ensures Mean(s) >= 0.0 && (Mean(s) == 0.0 <==> Sum(s) == 0.0)
  {
    var n := |s| as real;
    assert Mean(s) * n == Sum(s);
  }

  /** MAPE exists for every non-empty test set, whatever the actuals (a zero
      actual included, thanks to the offset), and is non-negative. */
  lemma {:induction false} MapeFacts(yTrue: seq<real>, yPred: seq<real>)
    requires |yTrue| == |yPred|
    ensures Mape(yTrue, yPred).Some? <==> |yTrue| > 0
    ensures Mape(yTrue, yPred).Some? ==> Mape(yTrue, yPred).value >= 0.0
  {
    if |yTrue| > 0 {
      var pe := PercentageErrors(yTrue, yPred);
      forall i | 0 <= i < |pe| ensures pe[i] >= 0.0 {
        assert Abs(yTrue[i]) + Epsilon > 0.0;
      }
      SumNonNegative(pe);
      MeanZero(pe);
    }
  }

  /** The squared errors sum to a non-negative value, which is zero exactly
      when every prediction is exact. */
  lemma {:induction false} SquaredErrorsFacts(yTrue: seq<real>, yPred: seq<real>)
    requires |yTrue| == |yPred|
    ensures Sum(SquaredErrors(yTrue, yPred)) >= 0.0
    ensures Sum(SquaredErrors(yTrue, yPred)) == 0.0 <==> forall i :: 0 <= i < |yTrue| ==> yTrue[i] == yPred[i]
  {
    var se := SquaredErrors(yTrue, yPred);
    forall i | 0 <= i < |se| ensures se[i] >= 0.0 && (se[i] == 0.0 <==> yTrue[i] == yPred[i]) {
      SquareNonNegative(yTrue[i] - yPred[i]);
      if se[i] == 0.0 {
        SquareZero(yTrue[i] - yPred[i]);
      }
      if yTrue[i] == yPred[i] {
        ZeroSquare(yTrue[i] - yPred[i]);
      }
    }
    SumNonNegative(se);
  }

  /** The squared deviations from `c` sum to a non-negative value, which is
      zero exactly when every value equals `c`. */
  lemma {:induction false} DeviationsFacts(ys: seq<real>, c: real)
    ensures Sum(SquaredDeviations(ys, c)) >= 0.0
    ensures Sum(SquaredDeviations(ys, c)) == 0.0 <==> forall i :: 0 <= i < |ys| ==> ys[i] == c
  {
    var dev := SquaredDeviations(ys, c);
    forall i | 0 <= i < |dev| ensures dev[i] >= 0.0 && (dev[i] == 0.0 <==> ys[i] == c) {
      SquareNonNegative(ys[i] - c);
      if dev[i] == 0.0 {
        SquareZero(ys[i] - c);
      }
      if ys[i] == c {
        ZeroSquare(ys[i] - c);
      }
    }
    SumNonNegative(dev);
  }

  /** RMSE is the square root of the mean squared error, so with a genuine
      square root it is non-negative, squares to the MSE, and is zero exactly
      when every prediction is exact. */
  lemma {:induction false} RmseFacts(yTrue: seq<real>, yPred: seq<real>, sqrt: real -> real)
    requires |yTrue| == |yPred| && |yTrue| > 0 && SqrtLike(sqrt)
    ensures Rmse(yTrue, yPred, sqrt).Some?
    ensures var r := Rmse(yTrue, yPred, sqrt).value;
      r >= 0.0 && r * r == Mean(SquaredErrors(yTrue, yPred)) &&
      (r == 0.0 <==> forall i :: 0 <= i < |yTrue| ==> yTrue[i] == yPred[i])
  {
    var se := SquaredErrors(yTrue, yPred);
    SquaredErrorsFacts(yTrue, yPred);
    MeanZero(se);
    var r := sqrt(Mean(se));
    if r == 0.0 {
      assert r * r == 0.0;
    }
  }

  /** R² = 1 - SS_res / SS_tot whenever it exists, which needs a non-empty
      test set; there is no R² exactly when the actuals are all equal (an
      empty test set included), since SS_tot is then zero. */
  lemma {:induction false} R2Facts(yTrue: seq<real>, yPred: seq<real>)
    requires |yTrue| == |yPred|
    ensures R2(yTrue, yPred).Some? ==>
      (|yTrue| > 0 &&
       R2(yTrue, yPred).value == 1.0 - Sum(SquaredErrors(yTrue, yPred)) / Sum(SquaredDeviations(yTrue, Mean(yTrue))))
    ensures R2(yTrue, yPred).None? <==>
      forall i, j :: 0 <= i < |yTrue| && 0 <= j < |yTrue| ==> yTrue[i] == yTrue[j]
  {
    if |yTrue| > 0 {
      var c := Mean(yTrue);
      DeviationsFacts(yTrue, c);
      if forall i, j :: 0 <= i < |yTrue| && 0 <= j < |yTrue| ==> yTrue[i] == yTrue[j] {
        ConstantMean(yTrue, yTrue[0]);
      }
    }
  }

  /** R², when it exists, is at most 1: SS_res is never negative and SS_tot
      is positive. */
  lemma {:induction false} R2AtMostOne(yTrue: seq<real>, yPred: seq<real>)
    requires |yTrue| == |yPred|
    ensures R2(yTrue, yPred).Some? ==> R2(yTrue, yPred).value <= 1.0
  {
    if R2(yTrue, yPred).Some? {
      var dev := SquaredDeviations(yTrue, Mean(yTrue));
      forall i | 0 <= i < |dev| ensures dev[i] >= 0.0 {
        SquareNonNegative(yTrue[i] - Mean(yTrue));
      }
      SumNonNegative(dev);
      SquaredErrorsFacts(yTrue, yPred);
      NonNegativeQuotient(Sum(SquaredErrors(yTrue, yPred)), Sum(dev));
    }
  }

  lemma NonNegativeQuotient(a: real, b: real)
    requires a >= 0.0 && b > 0.0
    ensures a / b >= 0.0
  {
  }

  lemma ZeroSquare(x: real)
    requires x == 0.0
    ensures Square(x) == 0.0
  {
  }

  /** Only zero squares to zero. */
  lemma SquareZero(x: real)
    requires Square(x) == 0.0
    ensures x == 0.0
  {
    if x != 0.0 {
      SquareOverBase(x);
    }
  }

  lemma SquareOverBase(x: real)
    requires x != 0.0
    ensures Square(x) / x == x
  {
  }

  lemma SquareNonNegative(x: real)
    ensures Square(x) >= 0.0
  {
  }

  /** A column holding one value has that value as its mean. */
  lemma {:induction false} ConstantMean(ys: seq<real>, c: real)
    requires |ys| > 0 && forall j :: 0 <= j < |ys| ==> ys[j] == c
    ensures Mean(ys) == c
  {
    SumBounds(ys, c, c);
  }

  /** Perfect predictions score MAE 0, RMSE 0 and, when R² exists, R² 1. */
  lemma {:induction false} PerfectPredictions(ys: seq<real>, sqrt: real -> real)
    requires |ys| > 0 && SqrtLike(sqrt)
    ensures Mae(ys, ys) == Some(0.0) && Rmse(ys, ys, sqrt) == Some(0.0)
    ensures R2(ys, ys).Some? ==> R2(ys, ys).value == 1.0
  {
    MaeFacts(ys, ys);
    RmseFacts(ys, ys, sqrt);
    SquaredErrorsFacts(ys, ys);
  }

  /** When the model predicts every test target exactly, evaluation reports
      MAE 0, RMSE 0, R² 1 when it exists, and the test row count. */
  lemma {:induction false} EvaluatePerfect(m: Prophet.Model, test: Processing.ProphetFrame, addVolume: bool, sqrt: real -> real)
    requires SqrtLike(sqrt)
    requires Evaluable(m, test, addVolume)
    requires forall i :: 0 <= i < |test.rows| ==>
      Prophet.Predict(m, EvaluationFrame(test, addVolume)).value[i].prediction.yhat == test.rows[i].y
    ensures var r := EvaluateModel(m, test, addVolume, sqrt).value;
      r.mae == Some(0.0) && r.rmse == Some(0.0) && (r.r2.Some? ==> r.r2.value == 1.0) &&
      r.testSamples == |test.rows|
  {
    EvaluableIff(m, test, addVolume, sqrt);
    var f := Prophet.Predict(m, EvaluationFrame(test, addVolume)).value;
    var ys := Targets(test.rows);
    assert Yhats(f) == ys;
    PerfectPredictions(ys, sqrt);
  }

  /** The test dates reported are the earliest and latest test dates. */
  lemma {:induction false} MetricDates(yTrue: seq<real>, yPred: seq<real>, dates: seq<int>, sqrt: real -> real)
    requires |yTrue| == |yPred| == |dates| && |dates| > 0
    ensures var m := MetricsOf(yTrue, yPred, dates, sqrt);
      m.testSamples == |dates| &&
      m.testStartDate.Some? && m.testEndDate.Some? &&
      m.testStartDate.value in dates && m.testEndDate.value in dates &&
      forall i :: 0 <= i < |dates| ==> m.testStartDate.value <= dates[i] <= m.testEndDate.value
  {
  }

  // ------------------------------------------------------------------
  // create_model_report
  // ------------------------------------------------------------------

  datatype PriceRange = PriceRange(min: real, max: real, mean: real)

  datatype TrainingInfo = TrainingInfo(
    samples: nat, startDate: Option<int>, endDate: Option<int>, priceRange: Option<PriceRange>)

  datatype TestInfo = TestInfo(samples: nat, startDate: Option<int>, endDate: Option<int>)

  datatype ModelReport = ModelReport(
    modelType: string, trainingInfo: TrainingInfo, testInfo: TestInfo, metrics: Metrics)

  /** The training target's range; NaN (None) for an empty training frame. */
  function PriceRangeOf(rows: seq<Processing.Observation>): Option<PriceRange>
  {
    if |rows| == 0 then None
    else
      var ys := Targets(rows);
      Some(PriceRange(MinReal(ys), MaxReal(ys), Mean(ys)))
  }

  function CreateModelReport(metrics: Metrics, train: Processing.ProphetFrame, test: Processing.ProphetFrame): ModelReport
  {
    ModelReport("Prophet",
      TrainingInfo(|train.rows|, MinOf(Processing.Dates(train.rows)), MaxOf(Processing.Dates(train.rows)), PriceRangeOf(train.rows)),
      TestInfo(|test.rows|, MinOf(Processing.Dates(test.rows)), MaxOf(Processing.Dates(test.rows))),
      metrics)
  }

  /** The report names Prophet, embeds the metrics unchanged, counts the
      training and test rows, gives each frame's first and last date (the
      earliest and latest of its dates, as MetricDates states of MinOf and
      MaxOf), and for a
      non-empty training frame gives a price range whose minimum and maximum
      are training targets bounding every target, and the targets' mean
      between them. */
  lemma {:induction false} CreateModelReportFacts(metrics: Metrics, train: Processing.ProphetFrame, test: Processing.ProphetFrame)
    ensures var r := CreateModelReport(metrics, train, test);
      r.modelType == "Prophet" && r.metrics == metrics &&
      r.trainingInfo.samples == |train.rows| && r.testInfo.samples == |test.rows| &&
      (r.trainingInfo.priceRange.Some? <==> |train.rows| > 0)
    ensures var r := CreateModelReport(metrics, train, test);
      r.trainingInfo.startDate == MinOf(Processing.Dates(train.rows)) &&
      r.trainingInfo.endDate == MaxOf(Processing.Dates(train.rows)) &&
      r.testInfo.startDate == MinOf(Processing.Dates(test.rows)) &&
      r.testInfo.endDate == MaxOf(Processing.Dates(test.rows))
    ensures |train.rows| > 0 ==>
      var p := CreateModelReport(metrics, train, test).trainingInfo.priceRange.value;
      p.mean == Mean(Targets(train.rows)) &&
      p.min <= p.mean <= p.max &&
      (exists i :: 0 <= i < |train.rows| && train.rows[i].y == p.min) &&
      (exists i :: 0 <= i < |train.rows| && train.rows[i].y == p.max) &&
      forall i :: 0 <= i < |train.rows| ==> p.min <= train.rows[i].y <= p.max
  {
    if |train.rows| > 0 {
      var ys := Targets(train.rows);
      MeanBetweenMinAndMax(ys);
      var lo := MinReal(ys);
      var hi := MaxReal(ys);
      var i :| 0 <= i < |ys| && ys[i] == lo;
      var j :| 0 <= j < |ys| && ys[j] == hi;
    }
  }
}
