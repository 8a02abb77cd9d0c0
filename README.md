# crypto-ts-forecast: a Dafny model of the forecasting pipeline

crypto-ts-forecast downloads daily BTCUSDT candles from the Binance REST
API. It validates them and turns them into a Prophet training set with an
optional volume regressor, then splits that set chronologically. It scores
a Prophet model on the test part and writes a training report. It builds
the future frame, forecasts, keeps the days after the history and
summarises them. A service layer runs the Kedro pipelines and serves model
information and forecasts from the artifacts they leave on disk.

This project models that table logic in Dafny and proves what each step
promises. Tables are sequences of records. Times are integer epoch
milliseconds, a day being 86 400 000 of them. Prices and volumes are exact
`real`s, and a pandas NaN or a missing value is `None`. Three things are
abstract inputs:

- the exchange, a function from the request window to a page or a request failure;
- Prophet, a fitted model given by its training dates, whether it uses the volume regressor, and an arbitrary per-row prediction;
- a pipeline run, a function from the artifact store to the new store and an optional failure text.

The modules follow the repository's layout:

| module | models |
|---|---|
| `Common` | pandas building blocks: sort by key, drop duplicates that keeps the first row, boolean filter, sum, mean, min and max |
| `Ingestion` | `pipelines/data_ingestion/nodes.py`: the paginated download, a `while` loop, and the validation gate, which forward-fills nulls in place in an `array` |
| `Processing` | `pipelines/data_processing/nodes.py`: the Prophet dataset, the volume feature and the train/test split |
| `Prophet` | the parts of Prophet the pipeline relies on: `predict` and `make_future_dataframe` |
| `Training` | `pipelines/model_training/nodes.py`: the evaluation metrics and the model report |
| `Inference` | `pipelines/inference/nodes.py`: the future frame, the forecast, the extraction of the future rows and the summary |
| `Service` | `api/services.py`: the `ForecastService` class, whose field is the artifact store |

Two behaviours of the code are worth stating up front, and the model follows
them:

- `split_train_test` raises nothing when a part comes out empty; both parts are returned as they are (`pipelines/data_processing/nodes.py:95-124`).
- `get_forecast` runs the default pipeline when no model is stored, the same as for a retrain request, and reports a missing model only if there is still none afterwards (`api/services.py:142-155`).

## Model

| member | source | states |
|---|---|---|
| Common.SortBy | src/crypto_ts_forecast/pipelines/data_ingestion/nodes.py:116 | sorting by a key gives a permutation of the rows (same multiset, same length) in ascending key order |
| Common.SortByFacts | src/crypto_ts_forecast/pipelines/data_processing/nodes.py:45 | sorting keeps the set of keys, and with distinct keys the result is strictly ascending |
| Common.DedupByFacts | src/crypto_ts_forecast/pipelines/data_ingestion/nodes.py:113 | dropping duplicates leaves distinct keys, keeps every key, and keeps the first row of each key |
| Common.Filter | src/crypto_ts_forecast/pipelines/data_processing/nodes.py:115-116 | a boolean mask keeps exactly the rows satisfying it and is no longer than its input |
| Common.MeanOrNone | src/crypto_ts_forecast/pipelines/inference/nodes.py:41 | a mean exists exactly when the column is non-empty, and it is then the column's mean |
| Common.MeanBetweenMinAndMax | src/crypto_ts_forecast/pipelines/model_training/nodes.py:162-164 | the mean of a non-empty column lies between its minimum and its maximum |
| Common.MeanBounds | src/crypto_ts_forecast/pipelines/model_training/nodes.py:162-164 | the mean of a non-empty column lies between any common lower and upper bound of its values |
| Ingestion.FetchKlines | src/crypto_ts_forecast/pipelines/data_ingestion/nodes.py:37-123 | the loop returns the rows collected from now − years·365 days up to now, with duplicates dropped and the rows sorted; a failed request yields the error and no partial frame |
| Ingestion.CollectedStep | src/crypto_ts_forecast/pipelines/data_ingestion/nodes.py:69-74 | after a non-empty page, the collected rows are that page followed by what the cursor at the last close time + 1 collects, and the cursor strictly increases |
| Ingestion.CollectedStops | src/crypto_ts_forecast/pipelines/data_ingestion/nodes.py:52-67 | nothing more is collected once the cursor reaches the end time or a page is empty |
| Ingestion.TidyFacts | src/crypto_ts_forecast/pipelines/data_ingestion/nodes.py:112-116 | the output's open times are strictly ascending and exactly the fetched open times, the output is no longer than the input, and each row is the first fetched row with its open time |
| Ingestion.SinglePageDownload | tests/pipelines/data_ingestion/test_nodes.py:38-71 | one strictly ascending page followed by an empty page is downloaded exactly as it arrived |
| Ingestion.FFillMeaning | src/crypto_ts_forecast/pipelines/data_ingestion/nodes.py:149-153 | after forward fill each required cell holds the latest non-null value at or above it; a leading null stays null; the timestamps are kept |
| Ingestion.FFillWithoutNulls | src/crypto_ts_forecast/pipelines/data_ingestion/nodes.py:149-153 | a frame without nulls is not changed by forward fill |
| Ingestion.ForwardFill | src/crypto_ts_forecast/pipelines/data_ingestion/nodes.py:153 | the in-place loop leaves the array equal to the forward fill of its old contents |
| Ingestion.FirstNegative | src/crypto_ts_forecast/pipelines/data_ingestion/nodes.py:156-159 | it gives no column exactly when no listed column has a negative value; otherwise it gives the first listed column that has one |
| Ingestion.FirstNegativePrice | src/crypto_ts_forecast/pipelines/data_ingestion/nodes.py:156-159 | the price columns are checked in the order open, high, low, close, and the first with a negative value is reported |
| Ingestion.NegativeIsFirst | src/crypto_ts_forecast/pipelines/data_ingestion/nodes.py:156-159 | the loop's first negative price column is the one the gate reports |
| Ingestion.ValidateRawData | src/crypto_ts_forecast/pipelines/data_ingestion/nodes.py:126-163 | the result is the gate's decision on the old rows; past the empty and missing-column checks the caller's rows stay forward-filled, even when a negative price then rejects them |
| Ingestion.ValidationOrder | src/crypto_ts_forecast/pipelines/data_ingestion/nodes.py:140-159 | each error occurs exactly in its case, checked in this order: an empty frame, then missing required columns (reporting exactly those), then the first of open, high, low, close with a negative value after the fill; success exactly otherwise |
| Ingestion.NegativeCase | src/crypto_ts_forecast/pipelines/data_ingestion/nodes.py:140-159 | the gate reports a negative price in a given column exactly when the frame is non-empty, has every required column, and that column is the first price column with a negative value |
| Ingestion.CleanFramePasses | src/crypto_ts_forecast/pipelines/data_ingestion/nodes.py:140-163 | a complete frame with no nulls and no negative price is returned unchanged, whatever its volumes |
| Processing.ProjectAll | src/crypto_ts_forecast/pipelines/data_processing/nodes.py:30-35 | one row per validated row, in order: ds is the open time, y is the chosen price cell, and there is no volume |
| Processing.CreateProphetDatasetFacts | src/crypto_ts_forecast/pipelines/data_processing/nodes.py:30-55 | no volume column; dates strictly ascending and exactly the input's dates; each row is the projection of some input row; no row lost when the input timestamps are distinct |
| Processing.DatasetRowsAreProjections | src/crypto_ts_forecast/pipelines/data_processing/nodes.py:30-48 | every dataset row has no volume and is the (ds, y) projection of some validated row |
| Processing.DatasetOfUniqueTimestamps | src/crypto_ts_forecast/pipelines/data_processing/nodes.py:45-48 | with distinct validated timestamps, deduplication drops nothing: one dataset row per input row |
| Processing.PositiveVolume | src/crypto_ts_forecast/pipelines/data_processing/nodes.py:87-89 | a positive volume is kept, and anything else (zero, negative or null) becomes 1, so the result is positive |
| Processing.JoinRow | src/crypto_ts_forecast/pipelines/data_processing/nodes.py:84 | a left merge gives each row at least one output row |
| Processing.LeftJoinVolume | src/crypto_ts_forecast/pipelines/data_processing/nodes.py:84 | a left merge never loses a row |
| Processing.JoinRowContents | src/crypto_ts_forecast/pipelines/data_processing/nodes.py:84 | whatever the keys, the merged rows of a left row keep its date and target and carry null or the volume of a validated row with that date |
| Processing.LeftJoinContents | src/crypto_ts_forecast/pipelines/data_processing/nodes.py:84 | whatever the keys, every merged row has the date and target of some left row, and null or the volume of a validated row with that date |
| Processing.AddFeaturesCases | src/crypto_ts_forecast/pipelines/data_processing/nodes.py:76-93 | with the flag off or no volume column, the frame is returned unchanged; otherwise it gains a volume column whose values are all positive |
| Processing.LeftJoinUnique | src/crypto_ts_forecast/pipelines/data_processing/nodes.py:84 | with distinct validated timestamps, the merge keeps the row count and every row, and attaches the volume of its date (null when the date is absent) |
| Processing.AddFeaturesUnique | src/crypto_ts_forecast/pipelines/data_processing/nodes.py:76-89 | with the flag on and distinct timestamps, the row count, dates and targets are kept, and each volume is the positive form of that date's validated volume |
| Processing.SplitPartition | src/crypto_ts_forecast/pipelines/data_processing/nodes.py:109-116 | train and test together are a permutation of the input; train holds exactly the rows on or before max(ds) − d days and test exactly those after it; both are ascending, and every train date precedes every test date |
| Processing.SplitAt | src/crypto_ts_forecast/pipelines/data_processing/nodes.py:115-116 | splitting sorted rows at a cutoff partitions them into two ascending parts, every train date before every test date |
| Processing.SplitMembers | src/crypto_ts_forecast/pipelines/data_processing/nodes.py:109-116 | the cutoff of the sorted frame is that of the input, and train and test hold exactly the input rows on or before and after it |
| Processing.SplitLastDateInTest | src/crypto_ts_forecast/pipelines/data_processing/nodes.py:113-116 | with d ≥ 1 and a non-empty input, the test part is non-empty and contains the last date |
| Processing.SplitConsecutiveDays | src/crypto_ts_forecast/pipelines/data_processing/nodes.py:113-116 | over consecutive days, test is exactly the last d rows and train all the others |
| Processing.TenDaysThreeTest | tests/pipelines/data_processing/test_nodes.py:85-95 | ten consecutive days split with d = 3 give 7 train rows and 3 test rows |
| Prophet.Predict | src/crypto_ts_forecast/pipelines/inference/nodes.py:74 | predict fails exactly when the frame has no rows, or when the model uses the volume regressor and the frame lacks it or has a null in it; otherwise it sorts the frame by date and gives one row per input row, with ascending dates, and on a frame with strictly ascending dates row i is the prediction for input row i |
| Prophet.PredictRows | src/crypto_ts_forecast/pipelines/inference/nodes.py:74 | whatever the frame's order, each predicted row is the prediction for some input row, and every input row's prediction is in the output |
| Prophet.MakeFutureDataframeFacts | src/crypto_ts_forecast/pipelines/inference/nodes.py:35 | the future frame is the training dates followed by `periods` daily dates after the last one; it has no volume column, and its dates are strictly ascending |
| Training.EvaluateModel | src/crypto_ts_forecast/pipelines/model_training/nodes.py:92-129 | fails exactly when predict on the test dates (with the test volumes when asked) fails, an empty test part included; otherwise mae, mape, rmse and r2 are those of the test targets against predict's yhat column, paired by position with predict's date-ordered output; test_samples is the row count, and the start and end dates are the first and last test dates |
| Training.EvaluableIff | src/crypto_ts_forecast/pipelines/model_training/nodes.py:92-99 | evaluation succeeds exactly when the test part has rows and, for a model with the volume regressor, the test volumes are passed and none is null |
| Training.EvaluateInOrder | src/crypto_ts_forecast/pipelines/model_training/nodes.py:99-106 | on an evaluable test part with strictly ascending dates, as the split of the dataset gives, each yhat scored against row i's actual is the model's prediction for row i |
| Training.MaeFacts | src/crypto_ts_forecast/pipelines/model_training/nodes.py:102-106 | MAE exists exactly for a non-empty test set; it is the mean absolute error, non-negative, and 0 exactly when every prediction is exact |
| Training.MapeFacts | src/crypto_ts_forecast/pipelines/model_training/nodes.py:109-111 | MAPE exists for every non-empty test set, zero actuals included, and is non-negative |
| Training.SquaredErrorsFacts | src/crypto_ts_forecast/pipelines/model_training/nodes.py:117 | SS_res is non-negative, and 0 exactly when every prediction is exact |
| Training.DeviationsFacts | src/crypto_ts_forecast/pipelines/model_training/nodes.py:118 | SS_tot about a centre is non-negative, and 0 exactly when every actual equals that centre |
| Training.RmseFacts | src/crypto_ts_forecast/pipelines/model_training/nodes.py:114 | with a genuine square root, RMSE exists, is non-negative, squares to the mean squared error, and is 0 exactly when every prediction is exact |
| Training.R2Facts | src/crypto_ts_forecast/pipelines/model_training/nodes.py:116-119 | when R² exists the test set is non-empty and R² = 1 − SS_res / SS_tot; there is no R² exactly when all actuals are equal, an empty test set included (numpy's NaN and −∞ both count as no R²) |
| Training.R2AtMostOne | src/crypto_ts_forecast/pipelines/model_training/nodes.py:116-119 | R², when it exists, is at most 1 |
| Training.PerfectPredictions | tests/pipelines/model_training/test_nodes.py:53-76 | exact predictions give MAE 0, RMSE 0 and, when R² exists, R² 1 |
| Training.EvaluatePerfect | tests/pipelines/model_training/test_nodes.py:53-76 | when the model predicts every test target exactly, evaluate_model reports MAE 0, RMSE 0, R² 1 when it exists, and test_samples equal to the row count |
| Training.MetricDates | src/crypto_ts_forecast/pipelines/model_training/nodes.py:126-128 | test_samples is the row count; the start and end dates are test dates that bound every test date |
| Training.CreateModelReportFacts | src/crypto_ts_forecast/pipelines/model_training/nodes.py:155-173 | the report names Prophet, embeds the metrics unchanged and counts the train and test rows; a price range exists exactly for a non-empty training frame, and its min and max are attained training targets that bound every target, and the mean is the mean of the training targets, between them; the training and test start and end dates are the earliest and latest dates of each part (`MinOf`/`MaxOf` of its dates) |
| Inference.LastRows | src/crypto_ts_forecast/pipelines/inference/nodes.py:41 | tail(n): the last n rows, in order (all of them when there are fewer) |
| Inference.RecentAverageOfPresentVolumes | src/crypto_ts_forecast/pipelines/inference/nodes.py:41 | when no volume is null, the recent average is the mean of the last 30 volumes |
| Inference.MergeRow | src/crypto_ts_forecast/pipelines/inference/nodes.py:44-45 | each future row gives at least one merged row, all with its date |
| Inference.MergeVolume | src/crypto_ts_forecast/pipelines/inference/nodes.py:44-45 | the left merge never loses a future row |
| Inference.MergeRowContents | src/crypto_ts_forecast/pipelines/inference/nodes.py:44-45 | whatever the keys, the merged rows of a future row carry null or the volume of a history row with its date |
| Inference.MergeVolumeContents | src/crypto_ts_forecast/pipelines/inference/nodes.py:44-45 | whatever the keys, every merged row has the date of some future row, and null or the volume of a history row with that date |
| Inference.CreateFutureDataframeWithoutVolume | src/crypto_ts_forecast/pipelines/inference/nodes.py:35-56 | with the flag off or no volume column, the result is the model's own future frame, without a volume column |
| Inference.MergeVolumeUnique | src/crypto_ts_forecast/pipelines/inference/nodes.py:44-45 | with distinct history dates, the merge keeps each future row once and attaches its date's historical volume, or null |
| Inference.CreateFutureDataframeWithVolume | src/crypto_ts_forecast/pipelines/inference/nodes.py:35-48 | with the flag on, a volume column and distinct history dates: one row per model date, in the model's order; each volume is the historical volume of its date (when present) or the average of the last 30 volumes |
| Inference.CreateFutureDataframeNoNulls | src/crypto_ts_forecast/pipelines/inference/nodes.py:41-48 | once a recent average exists, no volume in the future frame is null |
| Inference.GenerateForecast | src/crypto_ts_forecast/pipelines/inference/nodes.py:74-96 | fails exactly when predict fails; otherwise it gives one output row per input row in ascending date order, and on a frame with strictly ascending dates each output row has the same date as its input row and the model's prediction in the renamed columns |
| Inference.ForecastSucceeds | src/crypto_ts_forecast/pipelines/inference/nodes.py:35-74 | forecasting on the constructed frame succeeds when the model has no volume regressor, or has one and gets the volume column with a recent average |
| Inference.ExtractFuturePredictionsFacts | src/crypto_ts_forecast/pipelines/inference/nodes.py:119-122 | the extracted rows are forecast rows dated after the last historical date, and every such forecast row is extracted |
| Inference.ExtractFromEmptyHistory | src/crypto_ts_forecast/pipelines/inference/nodes.py:119-121 | over an empty history (a NaT cutoff) nothing is extracted |
| Inference.FilterPastCutoff | src/crypto_ts_forecast/pipelines/inference/nodes.py:121 | when the rows up to some index are dated on or before the cutoff and the rest after it, the filter keeps exactly the rest |
| Inference.ExtractAfterConsecutiveDays | tests/pipelines/inference/test_nodes.py:71-80 | n consecutive history days and a forecast of those days plus k more extract exactly the last k forecast rows (35 over 30 give 5) |
| Inference.ForecastDates | src/crypto_ts_forecast/pipelines/inference/nodes.py:35-74 | the forecast covers the history dates and then one row per day after the last of them |
| Inference.FutureFrameDates | src/crypto_ts_forecast/pipelines/inference/nodes.py:35-56 | the frame create_future_dataframe builds has the model's future dates row by row, so its dates are strictly ascending and predict's sort leaves it as it is |
| Inference.ExtractAfterHistory | src/crypto_ts_forecast/pipelines/inference/nodes.py:119-122 | over strictly ascending history dates, extraction from such a forecast gives exactly the `periods` days after the last historical date |
| Inference.ForecastHorizon | src/crypto_ts_forecast/pipelines/inference/nodes.py:35-122 | for a model fitted on the history's dates, the extracted predictions are exactly forecast_days rows, the k-th dated k + 1 days after the last historical date |
| Inference.SummaryErrors | src/crypto_ts_forecast/pipelines/inference/nodes.py:145-171 | the summary fails exactly on an empty history, or on a last price of 0 when there are predictions to compare with it |
| Inference.SummaryOfNoPredictions | src/crypto_ts_forecast/pipelines/inference/nodes.py:145-160 | with no predictions: the last historical price and date, 0 forecast days and no statistics |
| Inference.SummaryFacts | src/crypto_ts_forecast/pipelines/inference/nodes.py:145-204 | the last historical price and date; the span and length of the forecast; the first and last prices lie between a min and a max that are both attained; the 7-day and 30-day changes are present exactly with 7 and 30 rows, and use rows 6 and 29; the end change uses the last row and the last historical price; the average interval width is the mean of upper minus lower bound |
| Inference.ChangeSign | src/crypto_ts_forecast/pipelines/inference/nodes.py:171-179 | against a positive last price, a change is positive exactly when the prediction is higher, and zero exactly when it is equal |
| Inference.SummaryWidthNonNegative | src/crypto_ts_forecast/pipelines/inference/nodes.py:198-204 | when no interval is inverted, the average interval width is non-negative |
| Service.RunResultOf | src/crypto_ts_forecast/api/services.py:55-78 | echoes the pipeline name; status is "success" exactly when the run did not raise, and otherwise "error" with the message "Pipeline execution failed: " followed by the exception text |
| Service.ApiPredictions | src/crypto_ts_forecast/api/services.py:178-188 | one API entry per forecast row, in order, carrying its date, predicted price, bounds and trend |
| Service.BuildPredictions | src/crypto_ts_forecast/api/services.py:178-188 | the append loop builds one entry per row, carrying its date, price, bounds and trend, in order |
| Service.ForecastFromErrors | src/crypto_ts_forecast/api/services.py:151-163 | the no-model error occurs exactly when no model is stored; the no-data error exactly when a model is stored but no dataset |
| Service.ForecastFromSuccess | src/crypto_ts_forecast/api/services.py:174-208 | on success: symbol BTCUSDT; forecast_days = the number of predictions, each dated after the last historical date; that date and the last row's y as the anchor; the stored summary passed through |
| Service.ForecastFromPredictions | src/crypto_ts_forecast/api/services.py:174-188 | on success, the predictions are in strictly ascending date order; each is a forecast row, and every forecast row after the last historical date is one |
| Service.KeptRows | src/crypto_ts_forecast/api/services.py:174-188 | the entries built from the filtered forecast are forecast rows, and every row after the cutoff has its entry |
| Service.PredictionsAscending | src/crypto_ts_forecast/api/services.py:168-175 | the service's forecast is strictly ascending by date, and so is its filtered part |
| Service.ForecastFromHorizon | src/crypto_ts_forecast/api/services.py:168-206 | for a model without the volume regressor, fitted on the dataset's dates, the answer succeeds with exactly days_ahead predictions, one per day after the last historical date |
| Service.ForecastService.constructor | src/crypto_ts_forecast/api/services.py:27-34 | the service starts with the given store and pipeline runner |
| Service.ForecastService.RunPipeline | src/crypto_ts_forecast/api/services.py:41-78 | never fails: the store becomes what the run left, and the result is the run's success or error record |
| Service.ForecastService.GetModelInfo | src/crypto_ts_forecast/api/services.py:80-112 | model_exists exactly when a model is stored; with none, every other field is None; with one, the type is Prophet, the training date is the model file time, and the metrics and training info (copied from the report) are present exactly when a report exists |
| Service.ForecastService.GetForecast | src/crypto_ts_forecast/api/services.py:128-208 | with a stored model and no retrain request, no pipeline runs, the store is unchanged, and the answer is the forecast from it; otherwise the default pipeline runs first: its error record is returned unchanged if it fails, and if not, the answer is the forecast from the new store |

## Left out

- The HTTP layer is not part of this model: the FastAPI routes, the status-code mapping, the request and response schemas, and the command-line entry point. The day count is a `nat`; the schema's range of 1 to 365 is not enforced.
- The MLflow hooks and the Kedro pipeline and package wiring are not part of this model: they are telemetry and configuration.
- Prophet's fitting, seasonality set-up and prediction arithmetic sit in an external library. A fitted model is an abstract value. `train_prophet_model` is not modelled.
- I/O is replaced by parameters and fields:
  - the network (`requests`) is the `Api` parameter;
  - the clock (`datetime.now()`) is `nowMs`;
  - the pickle, parquet and JSON artifacts are the fields of the `Artifacts` store;
  - the model file time is `modelModifiedAt`;
  - a Kedro session run is the `runner` function.
- `run_pipeline`'s wall-clock `duration_seconds` is left out, because it needs a clock.
- `load_model`, `get_predictions_dataframe`, `get_current_price`, `get_available_pipelines` and the project bootstrap only read files, the network or the Kedro registry. They are not modelled. `get_forecast` reads the store's fields directly.
- Numeric details that IEEE doubles and pandas add are left out: floating-point rounding, `round(…, 2)`, the square root (a parameter), string-to-number coercion, NaN propagation beyond "no value", and timezone stripping (times are UTC integers). Dates stay integers rather than ISO strings.
- Processing.CreateProphetDataset: requires that the chosen price column has no null. A leading null that forward fill cannot fill would make y NaN in pandas.
- Processing.AddFeatures: requires a frame without a volume column. That is what `create_prophet_dataset` produces, and a pandas merge onto an existing volume column would rename columns instead.
- Prophet.Predict: Prophet's sort by date is not stable, so rows that share a date have no promised order. The model's sort keeps them in frame order, and it makes no claim about that order. The row-by-row match with the input holds only for strictly ascending dates. With repeated dates the contract claims only ascending output dates and the membership that PredictRows states.
- Processing.CreateProphetDatasetFacts: states that each output row is some input row with its date, not which one. pandas' default sort is not stable, so the surviving duplicate is unspecified.
- Ingestion.FetchKlines: assumes (`Ingestion.Progresses`) that each non-empty page below the end time ends with a row closing at or after the requested start. The source loop has no such guard and does not terminate otherwise. The contract also does not state the page size limit of 1000. The exchange decides page contents. Only a request failure (transport or status) is modelled as an error; other exceptions are not.
- Ingestion.Kline: the open time is a plain integer that is never null, as the fetcher always fills it. The null count and forward fill therefore act only on the five other required columns; a null timestamp, possible in pandas, is not modelled.
- Service.ForecastService.GetModelInfo: does not distinguish a report key that is absent from one that is null; both are None.
- Service.ForecastService.GetForecast: exceptions that escape `get_forecast` are modelled only as `Raised` with a reason: a failing `predict`, or `iloc[-1]` on an empty dataset. Their text is not modelled. The service never passes a volume column to `predict`, so models with the volume regressor always end there.
- Concurrency is not part of this model. Overlapping pipeline runs or requests over the same artifact files are not modelled.
