# StockPrediction core, modelled in Dafny

StockPrediction trains a LightGBM classifier per stock ticker. The classifier
predicts whether the adjusted close rises (or falls) by at least a threshold
within H trading rows. Around it sit a set of scripts that keep a SQLite
database of prices, macro indicators, watch lists and trained models.

This project models those scripts and proves properties of the model:

- **Feature and label pipeline.**
  - `create_features`: adjusted-close normalisation, auxiliary and macro left joins, forward fill, lag returns, moving averages, volume change, calendar parts, clean-up.
  - `create_classification_target` and its near-copy `create_target`: forward return and 0/1 label.
- **Versioned model registry.**
  - Saving takes version `max + 1`.
  - Loading takes an exact version, or the latest one.
- **Selection and scheduling rules.**
  - Bulk evaluation: ticker set arithmetic, skip rules, the five-year window and the 80/20 split, failure logging.
  - The backtest: date split and feature-column filter.
  - The diagnosis script: evaluation window, class rule, and the grouped listing.
- **Small store state machines.**
  - Each is a Dafny `class` whose methods change a `map`, `set` or `seq` field and state the whole new state.
  - They cover: the (ticker, date) price upsert, the insert-or-ignore of ticker information, the `stock_info` upsert, the macro-indicator upsert, the watch list, the column migration, the truncate-then-load of the market list, the evaluation tables script, and the notification flags.
- **String rules.**
  - Comma lists in the configuration and `ID:name` arguments.
  - Splitting an SQL script on `;`.
  - Prefixes of auxiliary columns, label and model names.
  - The Bollinger-band rename.

Shared modules:

| module | holds |
|---|---|
| `Wrappers` | `Option`, `Result`, a left fold that stops at the first error, and `Filter` |
| `Text` | split, join, strip, decimal spelling and parsing of integers, code-point order |
| `Calendar` | epoch days (1970-01-01 is day 0), civil dates, weekdays, business days, `DateOffset(years)` |
| `Cells` | a pandas float cell: `NaN`, a real number, or an infinity |
| `Frames` | a date-indexed table of rows |

Modelling choices:

- Prices are `real`, so the return, moving-average and threshold rules hold exactly.
- `int(threshold * 100)` is an integer parameter.
- The database is a value held by a class. Every outside effect is a parameter:
  - a database or network failure is a flag (`dbOk`, `sendOk`, `infoOk`, `ok`) or, for the per-ticker query and download of the price update, a `raises` predicate that ends the run at the first raising ticker;
  - a file read or download is an `Option` or a given frame;
  - today's date is an epoch-day argument.

The source differs from its description in one place. `script/send_notifications.py` defines `main` twice, and the second definition is the one Python runs (see "## Findings").

## Model

| member | source | states |
|---|---|---|
| StockUtils.Scaled | script/stock_utils.py:67-70 | a raw price column times `adj_close_price / close_price`, cell by cell, with NaN and infinities as pandas produces them |
| StockUtils.SafeName | script/stock_utils.py:87 | the auxiliary ticker with every `^` removed: no `^` is left and every other character is kept in order |
| StockUtils.RenameOhlcvLoaded | script/stock_utils.py:76-82 | on the columns `load_all_data` selects, the rename gives each loaded column its short label, keeps its cells and keeps the dates |
| StockUtils.RenameOhlcvTwice | script/stock_utils.py:89-95 | renaming an already-renamed frame changes nothing, so a frame renamed in place can be renamed again |
| StockUtils.NormaliseErrors | script/stock_utils.py:66-73 | the adjustment raises `KeyError` exactly when it must read a raw column the frame lacks |
| StockUtils.NormaliseAdjustedShape | script/stock_utils.py:66-73 | the adjusted frame has the same dates, gains the short labels and keeps every other column |
| StockUtils.NormaliseAdjustedPrices | script/stock_utils.py:67-73 | open/high/low are the raw prices times the adjustment ratio, close is the adjusted close, volume is unchanged |
| StockUtils.NormaliseLoaded | script/stock_utils.py:74-82 | the frames `load_all_data` returns have no `close_price`, so nothing is scaled and every column is only renamed (see also lines 29 and 66) |
| StockUtils.NormaliseKeepsDays | script/stock_utils.py:62-82 | the first step keeps the target's dates |
| StockUtils.ReturnNameInjective | script/stock_utils.py:109 | different lags get different return labels (see also line 123) |
| StockUtils.SmaNamesDistinct | script/stock_utils.py:125-126 | different windows get different `SMA_p` / `SMA_diff_ratio_p` labels, and the two kinds never coincide |
| StockUtils.ReturnsFold | script/stock_utils.py:122-123 | the lag loop fails with `KeyError(src)` exactly when there is a lag and no source column; otherwise each lag's column is the `pct_change` of the source and nothing else changes |
| StockUtils.AveragesFold | script/stock_utils.py:124-126 | the moving-average loop succeeds exactly when there are no periods, or `close` exists and every period is non-negative; the columns are the rolling mean and `(close - SMA) / SMA` |
| StockUtils.VolumeAndCalendarFacts | script/stock_utils.py:128-131 | fails exactly without `volume`; otherwise adds the one-row volume change and the weekday (Monday 0), month and year of each row's date and changes nothing else |
| StockUtils.PreparedAuxLoaded | script/stock_utils.py:89-96 | each loaded auxiliary column `c` becomes `<safe name>_<short label of c>` with its cells, and there are no other columns |
| StockUtils.JoinedAuxClose | script/stock_utils.py:96-101 | the joined `<safe name>_close` of a target row is the auxiliary adjusted close of that date, or missing when the auxiliary ticker has no row that day |
| StockUtils.AuxApplyFacts | script/stock_utils.py:96-113 | one auxiliary ticker adds `vix_price` for exactly `^VIX`, otherwise `lower(safe)_return_Nd` per lag; its prepared labels join the drop list; the target's dates are kept |
| StockUtils.AuxFoldKeepsDays | script/stock_utils.py:86-97 | the auxiliary loop keeps exactly the target's dates when each auxiliary frame has a unique date index |
| StockUtils.StagesKeepDays | script/stock_utils.py:97 | both left joins keep exactly the target's dates: one row per target row (see also line 116) |
| StockUtils.AuxFoldDrops | script/stock_utils.py:113 | the drop list the loop collects is every prepared auxiliary label |
| StockUtils.FinishFacts | script/stock_utils.py:141-148 | after clean-up the dropped labels are gone, `close` is back as `adj_close_price`, no cell is missing or infinite, and the rows are input rows in order |
| StockUtils.FinishDropsAux | script/stock_utils.py:141 | every prepared auxiliary label except `adj_close_price` is removed |
| StockUtils.FeaturesClean | script/stock_utils.py:141-148 | what `create_features` returns has no missing or infinite cell, no `close`, and no prepared auxiliary label |
| StockUtils.FeaturesDates | script/stock_utils.py:148 | the rows returned are rows of the target's dates, in increasing order when the target's are (see also lines 97 and 116) |
| StockUtils.FeaturesOnLoaded | script/stock_utils.py:58-151 | on frames as `load_all_data` returns them, `create_features` fails only for a negative window and otherwise returns every lag return, moving average, volume and calendar feature, the auxiliary features, `volume` and `adj_close_price` |
| StockUtils.FinishKeeps | script/stock_utils.py:141 | no feature label is dropped by the clean-up |
| StockUtils.AddReturns | script/stock_utils.py:122-123 | the lag loop computes the lag-return fold, stopping at a missing source |
| StockUtils.AddAverages | script/stock_utils.py:124-126 | the period loop computes the moving-average fold, stopping at a missing `close` or a negative window |
| StockUtils.JoinOne | script/stock_utils.py:87-113 | one pass renames the auxiliary frame in place, prefixes and joins it, and adds its features |
| StockUtils.JoinAux | script/stock_utils.py:86-113 | the loop's result is the auxiliary fold; every frame it reached is renamed in place and later frames are untouched |
| StockUtils.CreateFeatures | script/stock_utils.py:58-151 | the whole of `create_features`: its result is the feature-table function, and the auxiliary frames are renamed in place as far as the loop got |
| Frames.DataFrame.Rename | script/stock_utils.py:89-95 | `rename(..., inplace=True)` replaces the frame's table with the renamed table (see also lines 76-82) |
| Frames.FillForward | script/stock_utils.py:119 | one pass over the rows equals the column-wise forward fill |
| Frames.DropIncomplete | script/stock_utils.py:148 | one pass keeps exactly the rows without a missing cell |
| Frames.LeftJoinFacts | script/stock_utils.py:97 | a left join keeps the left rows and dates; a joined cell is the right table's cell of that date, or missing (see also line 116) |
| Frames.FFillFrameFacts | script/stock_utils.py:119 | the forward-filled frame keeps columns and dates; each cell is the nearest earlier present cell of its column |
| Cells.FFillKeepsPresent | script/stock_utils.py:119 | a present cell is never overwritten by the forward fill |
| Frames.CompleteRowsIncreasing | script/stock_utils.py:148 | dropping incomplete rows keeps an increasing date index increasing |
| Frames.LeftJoinIgnoresLaterRight | script/stock_utils.py:97 | right rows dated after every target row do not change the join (see also line 116) |
| Frames.CleanUpFacts | script/stock_utils.py:141-147 | dropping columns, the rename back and blanking infinities keep every row's date and give every row the same columns |
| Cells.FFillNearestEarlier | script/stock_utils.py:119 | a filled cell is missing exactly when no cell at or before it is present, and otherwise is the nearest earlier present cell, never a later one |
| Cells.FFillIdempotent | script/stock_utils.py:119 | filling twice is filling once |
| Cells.PctChangeAt | script/stock_utils.py:110 | `pct_change(n)[t] = close[t] / close[t-n] - 1` on the filled column, missing for `t < n` (see also line 123) |
| Cells.RollingMeanAt | script/stock_utils.py:125 | `SMA_p[t]` is the mean of the `p` rows ending at `t`, missing while `t < p - 1` |
| Cells.RollingMeanOfRampAnchor | tests/test_unit/test_stock_utils.py:43-46 | for prices 100..199 the last five-row moving average is 197 |
| Calendar.Weekday | script/stock_utils.py:129 | `dayofweek` of an epoch day: Monday 0 to Sunday 6 |
| Calendar.MinusYearsNotLater | script/bulk_evaluate.py:172 | subtracting a non-negative number of years never yields a later day |
| Calendar.AddBusinessDaysCorrect | script/predict.py:102 | for `n >= 1` the business-day offset lands on the `n`-th Monday-to-Friday day after the start |
| Calendar.NthBusinessDayAfter | script/predict.py:102 | the `n`-th weekday after a day is a Monday-to-Friday day and strictly later, for `n >= 1` |
| TrainModel.ForwardReturnAt | script/train_model.py:39-40 | the return at row `i` is `(p[i+h] - p[i]) / p[i]` when row `i+h` exists, missing otherwise |
| TrainModel.ForwardReturnTail | script/train_model.py:39-40 | the last `h` rows have a missing forward return |
| TrainModel.LabelsBinary | script/train_model.py:45-47 | labels are 0 or 1, 1 exactly on a hit, 0 where the return is missing |
| TrainModel.LatestDay | script/train_model.py:273 | the latest row's date is the greatest date in the table |
| TrainModel.HitOnNumbers | script/train_model.py:44-47 | "up" is a hit iff return >= θ; "down" iff return <= -θ |
| TrainModel.TargetLabelsDistinct | script/train_model.py:40-42 | the return column and the label column have different names |
| TrainModel.CreateClassificationTargetFacts | script/train_model.py:36-51 | `KeyError` without `adj_close_price`, `ValueError` for any other direction; otherwise exactly the return and label columns are added to a copy with the same rows and dates |
| TrainModel.StepPricesLabels | tests/test_unit/test_train_model.py:15-67 | for `[100]*10+[110]*10+[95]*10`, H=10, θ=5%: "up" labels row 0 as 1 and row 10 as 0, "down" the opposite; the label is `target_10d_up_5pct` |
| TrainModel.NextVersionFresh | script/train_model.py:60-62 | the new version is above every stored version of the pair, so its key is new |
| TrainModel.NextVersionFirst | script/train_model.py:62 | the first model of a pair gets version 1 |
| TrainModel.SaveModel | script/train_model.py:54-95 | a save inserts the next version and returns it; a failure returns -1 and leaves the table unchanged |
| TrainModel.SaveKeepsRows | script/train_model.py:84-89 | a save only appends: every stored row is still there unchanged |
| TrainModel.SaveThenSelectLatest | script/train_model.py:60-62 | after a save, loading without a version returns the new model (see also `script/predict.py:25-30`) |
| TrainModel.SavesIncrease | script/train_model.py:60-62 | two saves in a row get two consecutive versions |
| TrainModel.TrainingWindowMember | script/train_model.py:273-275 | a row is in the window exactly when it is dated on or after latest minus the configured years; the latest row is always kept |
| TrainModel.ChronologicalSplitFacts | script/train_model.py:282-284 | train ++ test is the whole window, and train has `floor(n·(1 - test_size))` rows for a test fraction in [0, 1] |
| TrainModel.ChronologicalSplitOrdered | script/train_model.py:282-284 | on dated rows in increasing order, every train row precedes every test row |
| TrainModel.ScalePosWeight | script/train_model.py:122-124 | `neg / pos` when there is a positive label, else 1 |
| TrainModel.CountsCover | script/train_model.py:122-123 | on 0/1 labels the two counts add up to the number of labels |
| Backtest.CreateTargetSameAsTraining | script/backtest.py:23-39 | the backtest's target table equals the training script's: the label is never missing, so the `dropna` removes nothing |
| Backtest.CreateTargetKeepsTail | script/backtest.py:26-38 | the trailing `h` rows stay, with a missing return and label 0 |
| Backtest.DateSplitMembers | script/backtest.py:68-73 | the split succeeds iff some row is on or before the training end and some on or after the test start; the parts are exactly those rows |
| Backtest.DateSplitFacts | script/backtest.py:68-73 | the split succeeds iff both parts are non-empty; the parts are the rows up to the training end and from the test start, disjoint when the end precedes the start |
| Backtest.FeatureColumnsFacts | script/backtest.py:78-80 | a column is a feature iff it is a table column passing every exclusion; the label and every `target…` column never are; table order is kept |
| Backtest.DerivedColumnsAreFeatures | script/backtest.py:78-80 | the target's derived columns are all features, while `vix_price` is excluded by the `_price` rule |
| Predict.ModelNameOfTarget | script/predict.py:50 | a model is named after its training label with `target` replaced by `LGBM` (see also `script/train_model.py:42`) |
| Predict.ModelNameInjective | script/predict.py:50 | equal model names for one direction have equal horizons and equal percents |
| Predict.LoadModel | script/predict.py:20-45 | a truthy version loads that exact row, otherwise the greatest version, with that row's model, scaler and features; no row, or a failed connection, query or unpickling, gives `None` |
| Predict.VersionZeroIsLatest | script/predict.py:25 | version 0 behaves as "latest" |
| Predict.FeatureTickers | script/predict.py:58-68 | the stored `features` string split on commas; missing or empty gives `[]` |
| Predict.FeatureTickersRoundTrip | script/predict.py:61 | comma-free tickers joined with commas are read back unchanged |
| Predict.BandStepFacts | script/predict.py:83-87 | one pass renames only `<e>_2.0` to `e`, and only when the first exists and the second does not |
| Predict.RenameBandsFacts | script/predict.py:81-87 | after the loop the rows and dates are the same; every column that is not a new-style band name is unchanged; every label is original or expected |
| Predict.AlignBands | script/predict.py:80-88 | the in-place rename loop computes the band-rename fold |
| Predict.PredictionRowFacts | script/predict.py:90-94 | the last row is used; the row is built exactly when every expected feature is present after the renames, one cell per expected feature (see also line 76) |
| Predict.TargetDateFacts | script/predict.py:102 | for a positive horizon the target date is the `h`-th weekday after the last feature date: a business day, strictly later |
| Registry.Select | script/predict.py:25-30 | a truthy version picks that exact key, otherwise the greatest stored version of the pair (see also `script/diagnose_model.py:102-107`) |
| Registry.Latest | script/train_model.py:60-61 | the greatest stored version of a pair, `None` when there is none |
| Registry.MaxOf | script/train_model.py:60-61 | `MAX` of a non-empty set of versions is one of them and no smaller than any |
| Registry.ModelStore.Insert | script/train_model.py:84-89 | inserting a new key adds exactly that row |
| Diagnose.DirectionOfModelName | script/diagnose_model.py:74 | the direction read from `LGBM_{h}d_{dir}_{p}pct` is `dir` for "up" and "down" |
| Diagnose.UnknownWithoutLetters | script/diagnose_model.py:74 | a name with no `u` and no `o` reads as `不明`, whatever other letters it has |
| Diagnose.OtherDirectionUnknown | script/diagnose_model.py:74 | for every horizon and percent, a model name built with a direction that has no `u` and no `o` (such as "flat") reads as `不明`; the horizon's `d` never starts a `down` |
| Diagnose.LoadModelForEvaluation | script/diagnose_model.py:91-134 | the same selection as the prediction script, returning the row's metadata; not found, or a caught exception, gives `None` |
| Diagnose.SameRowAsPrediction | script/diagnose_model.py:102-107 | evaluation and prediction load the same stored row for the same request (see also `script/predict.py:25-30`) |
| Diagnose.EvaluationRowsMember | script/diagnose_model.py:175 | a row is evaluated iff it is a table row dated strictly after the creation time with no missing cell; order is kept (see also line 241) |
| Diagnose.NothingAfterLastRow | script/diagnose_model.py:175-178 | a model created at or after the last row's date has nothing to evaluate |
| Diagnose.EvaluationSet | script/diagnose_model.py:177-178 | an empty evaluation set returns `None` |
| Diagnose.BacktestSet | script/diagnose_model.py:242-244 | fewer than `2 · n_splits` rows stops the backtest |
| Diagnose.PredictedClassMonotone | script/diagnose_model.py:197 | class 1 iff probability > 0.5: monotone, and 0.5 gives class 0 (see also line 268) |
| Diagnose.ListModels | script/diagnose_model.py:53-84 | the printing loop produces the listing function's lines |
| Diagnose.EntryOutput | script/diagnose_model.py:58-84 | one pass of the printing loop prints exactly the entry's lines (a ticker header only on a new ticker, a name header only on a new name, version, direction, notes when present, the rule) and leaves the trackers on this entry's ticker and name |
| Diagnose.HeadersAreRuns | script/diagnose_model.py:65-68 | a ticker header is printed exactly where the ticker changes |
| Diagnose.OneHeaderPerTicker | script/diagnose_model.py:65-68 | for rows ordered by ticker, one header per listed ticker and no other (see also line 43) |
| Diagnose.VersionLines | script/diagnose_model.py:76 | every listed entry gets its version line, in query order |
| BulkEvaluate.OutsideMember | script/bulk_evaluate.py:58 | a ticker is kept iff it is listed and not excluded (see also line 142) |
| BulkEvaluate.OutsideAppend | script/bulk_evaluate.py:58 | the selection keeps order (see also line 142) |
| BulkEvaluate.TickersToUpdateCovers | script/bulk_evaluate.py:57-59 | every target without price data and every common feature is fetched, and nothing else |
| BulkEvaluate.TickersToUpdateNonEmpty | script/bulk_evaluate.py:59-65 | the common features are always fetched, so the update always runs (see also line 21) |
| BulkEvaluate.CompletedIffBoth | script/bulk_evaluate.py:41-46 | a ticker is completed exactly when both "up" and "down" have a success row |
| BulkEvaluate.Completed | script/bulk_evaluate.py:37-49 | a ticker is completed exactly when its success rows carry two distinct directions |
| BulkEvaluate.DecideFacts | script/bulk_evaluate.py:164-192 | skip when no rows are left; skip with the window's dates when the window has < 100 rows or one class; otherwise train on the first `int(0.8·n)` rows |
| BulkEvaluate.PreparedFacts | script/bulk_evaluate.py:163 | the label column's name is the training script's; no `adj_close_price` raises `KeyError`; with it, both directions succeed |
| BulkEvaluate.StandardSound | script/bulk_evaluate.py:160-192 | a direction's row is about that ticker and direction, and is never a failure row |
| BulkEvaluate.FeatureRowsFacts | script/bulk_evaluate.py:158-192 | every row the direction loop writes names the ticker and a direction, and is not a failure row |
| BulkEvaluate.DirectionRowsFacts | script/bulk_evaluate.py:160-192 | the direction loop writes rows for a prefix of the directions, in order, and stops at the first exception |
| BulkEvaluate.EvaluateTickerFacts | script/bulk_evaluate.py:151-197 | an unloadable or short (< 200 rows) ticker gets one "N/A" row; a failing feature step gives one failure row; every ticker's rows are well formed |
| BulkEvaluate.RunRowsAppend | script/bulk_evaluate.py:149-197 | the loop goes on after a failure: the rows are the per-ticker rows in ticker order |
| BulkEvaluate.RunRowsCover | script/bulk_evaluate.py:149-197 | every ticker gets a row and every row is about one of the tickers |
| BulkEvaluate.RunCompleted | script/bulk_evaluate.py:41-46 | after a run a ticker counts as completed iff it has both an "up" and a "down" success (see also line 192) |
| BulkEvaluate.PerformanceLog.Save | script/bulk_evaluate.py:97-118 | a save appends exactly one row |
| BulkEvaluate.PerformanceLog.Clear | script/bulk_evaluate.py:131-136 | the fresh-run truncation empties the log |
| BulkEvaluate.EvaluateDirections | script/bulk_evaluate.py:160-192 | the direction loop appends the direction rows, then a failure row if one raised |
| BulkEvaluate.EvaluateOne | script/bulk_evaluate.py:151-197 | the body of the ticker loop appends exactly the ticker's rows |
| BulkEvaluate.EvaluateAll | script/bulk_evaluate.py:149-197 | the ticker loop appends every ticker's rows in turn |
| BulkEvaluate.CleanupRestores | script/bulk_evaluate.py:91 | when the new tickers had no rows and the fetch changed no other ticker, the delete restores the table as it was before the fetch |
| BulkEvaluate.CleanedNothing | script/bulk_evaluate.py:82-84 | no new tickers, no change |
| BulkEvaluate.Cleanup | script/bulk_evaluate.py:80-95 | nothing without new tickers; otherwise one committed delete, or no change when the database fails |
| BulkEvaluate.RunEvaluation | script/bulk_evaluate.py:120-199 | optional truncation, the remaining tickers evaluated one by one, then the cleanup of the newly fetched tickers |
| ConfigLoader.GetListFacts | script/config_loader.py:14-19 | an empty value gives `[]`; otherwise one element per comma-separated piece, in order, each the conversion of the stripped piece, or the first conversion error |
| ConfigLoader.IntListRoundTrip | script/config_loader.py:19 | integers written with commas are read back as the same list |
| ConfigLoader.GetIntOr | script/config_loader.py:25 | the fallback is used only for a missing section or option; a bad value still raises |
| ConfigLoader.TargetSettingsFacts | script/config_loader.py:23-27 | without the section the defaults 10 and 0.03 are used; stored values replace them |
| ConfigLoader.FeatureSettingsRoundTrip | script/config_loader.py:29-33 | two integer lists written with commas into the options are read back as (lags, moving-average periods) |
| ConfigLoader.ModeKeysDisjoint | script/config_loader.py:38-43 | test mode's five `_test` options are none of normal mode's, so the modes read disjoint options |
| ConfigLoader.SearchSettingsReadOnlyKeys | script/config_loader.py:35-46 | each mode reads only its own five options |
| ConfigLoader.SearchSettingsValues | script/config_loader.py:35-46 | a successful read holds the values stored under the mode's options |
| UpdateStockData.ValidateDataQuality | script/update_stock_data.py:129-150 | valid unless every adjusted close is missing; the abnormal moves are reported |
| UpdateStockData.AbnormalMoves | script/update_stock_data.py:141-148 | the positions of moves above 50% between consecutive present closes, none with fewer than two |
| UpdateStockData.ValidityIgnoresJumps | script/update_stock_data.py:133-150 | validity depends only on whether some close is present, however far prices jump |
| UpdateStockData.InvalidIffNothingPresent | script/update_stock_data.py:133-138 | invalid exactly when the download is not empty and every close is missing |
| UpdateStockData.FetchWindowCovers | script/update_stock_data.py:184-192 | with history, a day is downloaded exactly when it lies from a week before the stored last date through today |
| UpdateStockData.FetchWindowNoHistory | script/update_stock_data.py:189-192 | without history, a day is downloaded exactly when it lies in the 3650 days up to and including today |
| UpdateStockData.UpsertedFacts | script/update_stock_data.py:104-121 | a key is stored iff stored before or sent; a sent key holds its last row's bar; other keys are unchanged |
| UpdateStockData.PriceTable.InsertOrUpdate | script/update_stock_data.py:81-126 | nothing for an empty download; otherwise the upsert is committed, or rolled back on a database error |
| UpdateStockData.LastDate | script/update_stock_data.py:67-78 | the greatest stored date of the ticker, `None` when there is none |
| UpdateStockData.StockInfoTable.Tickers | script/update_stock_data.py:59-64 | every ticker stored in `stock_info`, each once, in no particular order |
| UpdateStockData.UpdateStockPrices | script/update_stock_data.py:153-212 | no connection does nothing; the arguments when given, otherwise the listing is inserted and every stored ticker is selected, each once; a failing insert ends the run with nothing selected; the prices are those of the passes over the tickers before the first one whose query or download raises |
| UpdateStockData.FirstRaising | script/update_stock_data.py:180-212 | the first ticker whose last-date query or download raises, with no raising ticker before it |
| UpdateStockData.UpdatePrices | script/update_stock_data.py:166-209 | an empty list stops before any download; otherwise the tickers before the first raising one get their passes, committed, and no later ticker is touched (see also lines 211-212) |
| UpdateStockData.UpdateTickerFacts | script/update_stock_data.py:180-208 | one ticker's pass never removes a row and leaves other tickers' rows unchanged |
| UpdateStockData.UpdateAllFacts | script/update_stock_data.py:180-208 | a run never removes a row; an unlisted ticker keeps exactly its rows |
| UpdateStockData.InsertedOrIgnoredFacts | script/update_stock_data.py:48-53 | insert-or-ignore keeps every stored ticker's row and adds each new ticker with its first entry |
| UpdateStockData.StockInfoTable.InsertStockInfo | script/update_stock_data.py:19-56 | a missing or unreadable file and an empty list change nothing; a failing `executemany` is rolled back and raised; otherwise insert-or-ignore, returning the rows added |
| UpdateStockInfo.Fields | script/update_stock_info.py:30-41 | the fields whose value is not `None`, in order |
| UpdateStockInfo.Kept | script/update_stock_info.py:58 | the entries whose key is a table column, in order |
| UpdateStockInfo.StatementShape | script/update_stock_info.py:64-65 | column list and placeholders have one entry per kept key, in the same order |
| UpdateStockInfo.AssignmentsFacts | script/update_stock_info.py:68 | one assignment per kept key other than `ticker_symbol`; empty exactly when no other key is kept |
| UpdateStockInfo.NoCompanyNoChange | script/update_stock_info.py:25-27 | without a company name the table is not touched |
| UpdateStockInfo.AppliedOnlyTicker | script/update_stock_info.py:70-78 | a successful update changes only the ticker's row |
| UpdateStockInfo.AppliedRow | script/update_stock_info.py:70-78 | every kept entry is stored; columns not named keep their values; a new row has exactly the kept columns |
| UpdateStockInfo.RowOfFacts | script/update_stock_info.py:64-78 | the row written has exactly the listed columns, each holding its last listed value |
| UpdateStockInfo.UpdateStoresInfo | script/update_stock_info.py:24-78 | a successful update stores the company name and every present field that is a column |
| UpdateStockInfo.KeptDistinct | script/update_stock_info.py:58-64 | no column is listed twice (see also line 41) |
| UpdateStockInfo.InfoStore.UpdateStockInfo | script/update_stock_info.py:14-83 | `True` exactly when the statement is committed; otherwise the table is unchanged |
| UpdateEconomicData.Bind | script/update_economic_data.py:85 | `d[k] = v`: an existing key keeps its place, a new key goes last; the dict stays well formed |
| UpdateEconomicData.ParseItem | script/update_economic_data.py:85-86 | `(item.split(':')[0], item.split(':')[1])`, or none exactly when the item has no colon |
| UpdateEconomicData.ParseItemIsSplit | script/update_economic_data.py:85 | the parse equals the first two pieces of the split on `:` |
| UpdateEconomicData.SecondColonIgnored | script/update_economic_data.py:85 | text after a second colon is ignored |
| UpdateEconomicData.ParseSucceeds | script/update_economic_data.py:83-88 | parsing succeeds exactly when every item has a colon |
| UpdateEconomicData.ParseKeys | script/update_economic_data.py:85 | the parsed ids are the items' ids |
| UpdateEconomicData.ParseLastWins | script/update_economic_data.py:85 | each id maps to the name of its last occurrence |
| UpdateEconomicData.LaterDuplicateWins | script/update_economic_data.py:85 | two items with one id give that id once, with the later name |
| UpdateEconomicData.MalformedItemAborts | script/update_economic_data.py:86-88 | an item without a colon fails the whole parse |
| UpdateEconomicData.SelectSeriesValid | script/update_economic_data.py:82-92 | the series list of a run is a well-formed dict whenever it exists |
| UpdateEconomicData.DefaultSeriesFacts | script/update_economic_data.py:9-14 | four distinct series, each stored under its name (`cpi`, …) |
| UpdateEconomicData.DailyDays | script/update_economic_data.py:31 | the daily frame has one row per calendar day from the first date to the last |
| UpdateEconomicData.DailyLatest | script/update_economic_data.py:31 | each day carries the latest observation at or before it, never a later one |
| UpdateEconomicData.DailyKeepsObserved | script/update_economic_data.py:31 | an observed date keeps its own row |
| UpdateEconomicData.ItemsOfMember | script/update_economic_data.py:43-53 | one series' items are exactly its non-missing values, keyed by the stored name and the day (see also line 28) |
| UpdateEconomicData.ItemsOfCount | script/update_economic_data.py:44-55 | one item, and one count, per non-missing value |
| UpdateEconomicData.StoreAllKeys | script/update_economic_data.py:45-54 | the upserts add exactly the items' keys |
| UpdateEconomicData.StoreAllKeeps | script/update_economic_data.py:45-54 | rows no item touches are unchanged |
| UpdateEconomicData.StoreAllLastWins | script/update_economic_data.py:49-50 | the last item for a key decides its stored value |
| UpdateEconomicData.StageSeries | script/update_economic_data.py:44-55 | the inner loop upserts exactly one series' items over the staged rows and counts its non-missing values |
| UpdateEconomicData.StageAll | script/update_economic_data.py:43-55 | the outer loop upserts every series' items in order and counts them all |
| UpdateEconomicData.UpsertStoresValues | script/update_economic_data.py:42-57 | after a committed run every non-missing value is stored under (name, day) |
| UpdateEconomicData.UpsertKeepsOthers | script/update_economic_data.py:42-57 | a stored key that is the (name, day) of no non-missing value keeps its value |
| UpdateEconomicData.IndicatorTable.Upsert | script/update_economic_data.py:33-63 | each non-missing value is upserted and counted; commit on success, rollback on error, nothing without a connection |
| UpdateEconomicData.UpdateFromArguments | script/update_economic_data.py:17-95 | malformed arguments stop with no update; otherwise the fetched frame is resampled and upserted under the mapped names |
| ManageTickers.AddFacts | script/manage_tickers.py:35-55 | add succeeds iff both arguments are non-empty and the database works; then it upserts ticker→features and keeps every other ticker; a failure changes nothing |
| ManageTickers.RemoveFacts | script/manage_tickers.py:66-84 | remove fails only on an empty ticker or a database error; otherwise it deletes exactly that ticker |
| ManageTickers.RemoveAbsent | script/manage_tickers.py:76-81 | removing an absent ticker succeeds and changes nothing (see also `tests/test_integration/test_db_integration.py:23-24`) |
| ManageTickers.AddIdempotent | script/manage_tickers.py:46-55 | adding the same entry twice equals adding it once |
| ManageTickers.AddThenRemove | script/manage_tickers.py:46-55 | add then remove leaves the other tickers as they were (see also line 76) |
| ManageTickers.InsertSorted | script/manage_tickers.py:21 | inserting a new key keeps a list strictly sorted |
| ManageTickers.ListingShows | script/manage_tickers.py:21-29 | a ticker is listed exactly when it is in the table, with its features |
| ManageTickers.AddListRemoveList | tests/test_integration/test_db_integration.py:20-50 | after the add the ticker is listed with its features; after each remove it is not |
| ManageTickers.TargetTable.Add | script/manage_tickers.py:35-63 | the table and exit code are those of the add rule |
| ManageTickers.TargetTable.Remove | script/manage_tickers.py:66-84 | the table and exit code are those of the remove rule, and "not found" is reported iff the ticker was absent |
| ManageTickers.TargetTable.List | script/manage_tickers.py:15-32 | the rows are the table in strictly increasing ticker order, the "none yet" message iff the table is empty, status 1 on a database error |
| LoadMarketList.StocksFacts | script/load_market_list.py:21-22 | the stocks are the rows of the three segments, in file order |
| LoadMarketList.TickerOf | script/load_market_list.py:23 | the ticker is the code followed by `.T` |
| LoadMarketList.TickerInjective | script/load_market_list.py:23 | distinct codes give distinct tickers |
| LoadMarketList.InsertAllKeys | script/load_market_list.py:33-47 | the inserted tickers are exactly the rows' tickers |
| LoadMarketList.InsertAllFirstWins | script/load_market_list.py:40 | each ticker holds its first row in file order |
| LoadMarketList.LoadedFacts | script/load_market_list.py:21-47 | after a load the table holds exactly the tickers of the file's domestic stocks, each dated today |
| LoadMarketList.InsertAllSize | script/load_market_list.py:33-49 | the table never has more rows than the reported count |
| LoadMarketList.MarketTable.Load | script/load_market_list.py:7-52 | a missing or unreadable file leaves the table untouched; otherwise it is truncated and refilled and the count reported; a database error rolls back |
| PrepareEvaluationDb.StatementsFacts | script/prepare_evaluation_db.py:19-21 | each executed statement is a non-blank piece without `;`; at most `count(';') + 1` run |
| PrepareEvaluationDb.ExecutedIff | script/prepare_evaluation_db.py:19-21 | a piece is executed iff it is a piece of the script and not blank |
| PrepareEvaluationDb.StatementsOrder | script/prepare_evaluation_db.py:19-21 | statements run in script order |
| PrepareEvaluationDb.TrailingSemicolon | script/prepare_evaluation_db.py:20 | a trailing `;` adds no statement |
| PrepareEvaluationDb.BlankTailSkipped | script/prepare_evaluation_db.py:20 | a whitespace-only piece after the last `;` adds no statement |
| PrepareEvaluationDb.ExecutePieces | script/prepare_evaluation_db.py:19-21 | the loop executes exactly the pieces passing the test, in order |
| PrepareEvaluationDb.EvaluationDb.Prepare | script/prepare_evaluation_db.py:9-27 | an unreadable file executes nothing; otherwise the statements run and one commit follows; an error leaves the committed log unchanged |
| ApplyDbMigration.StepFacts | script/apply_db_migration.py:56-61 | a step adds its column only when absent, fails exactly on a missing table, and keeps every other column and table |
| ApplyDbMigration.MigrateOnlyAdds | script/apply_db_migration.py:50-61 | a successful run changes no table or existing column and only adds the migrations' columns |
| ApplyDbMigration.MigrateIdempotent | script/apply_db_migration.py:56-61 | running the migrations twice changes nothing the second time |
| ApplyDbMigration.MigrateNoOp | script/apply_db_migration.py:56-61 | when every column exists nothing changes |
| ApplyDbMigration.NotificationMigration | script/apply_db_migration.py:50-61 | succeeds iff both tables exist; afterwards both `notification_sent` columns exist, a newly added one is `BOOLEAN DEFAULT false`, nothing else differs (see also lines 33-44) |
| ApplyDbMigration.Database.ApplyMigrations | script/apply_db_migration.py:46-72 | one commit after the loop on success; any error rolls everything back |
| SendNotifications.FlagAllFacts | script/send_notifications.py:109-116 | the flag is set exactly on the listed rows; no other field or row changes, none is added or removed |
| SendNotifications.FlagRemovesPending | script/send_notifications.py:60-64 | the pending rows after a flag update are those pending before minus the flagged ones (see also lines 103-121) |
| SendNotifications.FlagPendingClears | script/send_notifications.py:245-247 | flagging the pending rows leaves nothing pending (see also lines 169-171) |
| SendNotifications.EmailDelivered | script/send_notifications.py:72-75 | `True` only with every SMTP variable set and a send that raised nothing (see also lines 97-101) |
| SendNotifications.SendFailureNoEmail | script/send_notifications.py:97-101 | a send that raises means no e-mail, however complete the configuration |
| SendNotifications.MissingVariableNoEmail | script/send_notifications.py:72-75 | a missing or empty SMTP variable means no e-mail |
| SendNotifications.NothingPendingNothingSent | script/send_notifications.py:213-215 | with nothing pending a run sends nothing and changes nothing (see also lines 136-138) |
| SendNotifications.RunKeepsUndelivered | script/send_notifications.py:165-173 | the first `main` never loses a notification: each pending row is e-mailed and flagged, or still pending |
| SendNotifications.RunAsWrittenFlagsAll | script/send_notifications.py:242-247 | the running `main` flags every pending row, delivered or not |
| SendNotifications.RunAsWrittenIgnoresEmail | script/send_notifications.py:242-247 | the running `main`'s database outcome does not depend on the mailer |
| SendNotifications.UndeliveredMarkedSent | script/send_notifications.py:242-247 | a pending model with no SMTP settings is flagged by the running `main` without an e-mail, and stays pending under the first `main` (see also lines 200 and 253-254) |
| SendNotifications.SheetDirectionOfModelName | script/send_notifications.py:226 | the sheet reads back the direction a model name was built with (see also line 149 and `script/predict.py:50`) |
| SendNotifications.SheetDirectionVsListing | script/send_notifications.py:149 | the sheet agrees with the listing except that a name with neither word is filed as "down" (see also `script/diagnose_model.py:74`) |
| SendNotifications.WriteRows | script/send_notifications.py:37-50 | an empty frame changes nothing; otherwise the header goes first on an empty worksheet, then the rows |
| SendNotifications.HeaderOnce | script/send_notifications.py:45-50 | two writes onto an empty worksheet put the header once, at the top |
| SendNotifications.NotificationDb.UpdateNotificationFlags | script/send_notifications.py:103-121 | empty lists change nothing; a failure rolls back and re-raises; otherwise exactly the listed rows are flagged |
| SendNotifications.NotificationDb.MainAsWritten | script/send_notifications.py:200-251 | the running `main`: missing sheet name exits 1, nothing pending exits 0, otherwise all pending rows are flagged whatever the e-mail did |
| SendNotifications.NotificationDb.FirstMain | script/send_notifications.py:123-177 | the first `main`: the flags are set only after a delivered e-mail |

## Left out

- Technical indicators from pandas_ta (RSI, MACD, Bollinger bands, ATR; `script/stock_utils.py:135-138`): a foreign library. The model has no such columns. The Bollinger labels appear only as names in the prediction rename.
- StockUtils.FeaturesDates, StockUtils.FeaturesOnLoaded, StockUtils.FinishFacts: without the indicators their warm-up gaps are gone too (RSI-14, MACD's 26+9 rows, Bollinger-20, ATR-14). The final `dropna` of the source removes those leading rows. When the lag and moving-average windows are shorter than these warm-ups, the model's rows are a strict superset of the source's.
- Model fitting, scaling and metrics (LightGBM, StandardScaler, sklearn metrics, grid/random/Optuna search, TimeSeriesSplit): foreign, floating-point and stochastic. The trainer is a function parameter, and the backtest's scaler fit is not modelled.
- IEEE floating point: prices are `real`, and float rounding of `int(threshold * 100)` is not modelled (the percent is given as an integer).
- All I/O is a parameter or left out: SQLite connections, yfinance, pandas_datareader (FRED), gspread and Google credentials, SMTP, CSV and JSON reads, `os.system` calls, plotting, printing.
- Driver mismatches (`%s` placeholders, `TRUNCATE`, `information_schema`, `with conn.cursor()` on SQLite) are modelled by the statements' intended effect, not as failures.
- `load_all_data` appears only through the columns it selects.
- `update_stock_info`, run after `add_ticker`, is modelled separately: its own table and its own method.
- Glue and printing scripts are not part of this model:
  - `run_sql_file.py`, `check_db.py`, `ensure_schema.py`, `initialize_db.py`, `list_tickers.py`;
  - `get_model_info.py`, `list_models.py`, `predict_all.py`, `register_temp_tickers.py`.
- `evaluate_model.py`, `predict_trend.py` and the backtest's two-argument `load_all_data` call have broken call sites. Only the pure pieces around them are modelled.
- StockUtils.JoinOne, Frames.LeftJoin: `pd.merge` renames labels present on both sides to `_x`/`_y`, while the model lets the right-hand label replace the left-hand one. Two auxiliary tickers with the same safe name, such as `^N225` and `N225`, both give `N225_close`. The source then has no `N225_close` column and raises `KeyError` at `script/stock_utils.py:105`; the model carries on with the later ticker's values.
- Text.Lower folds only the ASCII letters, while Python's `str.lower()` (used on the safe ticker name at `script/stock_utils.py:109`) folds every Unicode letter.
- Duplicate column labels (pandas allows them) collapse into one in the map-based frame, and column order is not tracked except where a list of labels is given.
- BulkEvaluate.TickersToUpdate: the fetch list is a set, because `list(set(...))` has no specified order.
- UpdateStockData.StockInfoTable.Tickers: the order of the rows the query returns is unspecified, so the model promises only each stored ticker once.
- BulkEvaluate.RunEvaluation: the subprocess calls become a given price table after the update.
- ConfigLoader: `configparser`'s interpolation, its case-folding of option names and its DEFAULT section are not modelled.
- ConfigLoader.GetIntOr, ConfigLoader.GetRealOr, ConfigLoader.GetInt, ConfigLoader.GetList, ConfigLoader.TargetSettings, ConfigLoader.SearchSettingsOf: conversion uses the concrete Text.ParseInt and Text.ParseReal. After stripping whitespace they accept only an optional sign and ASCII decimal digits, with one optional decimal point for reals. Python's `int()` and `float()` also accept exponents (`3e-2`), `inf`, `nan`, underscores (`1_000`) and non-ASCII digits. The model rejects those values with `InvalidValue`.
- Diagnose.EntryOutput: the training-performance lines (`script/diagnose_model.py:79-83`) and the timestamp formatting of the version line are not modelled. They are formatted floating-point output.
- UpdateEconomicData.IndicatorTable.Upsert: `updated_at` timestamps are not modelled, and the printed count is only returned.
- UpdateStockData.PriceTable.InsertOrUpdate: `updated_at` timestamps are not modelled.
- LoadMarketList: the CSV parse and pandas' dtype conversion of codes are not modelled. Codes arrive as the strings `str(...)` makes of them.
- PrepareEvaluationDb.EvaluationDb.Prepare: the statements' SQL effect is not modelled. The state is the log of committed statements.
- ApplyDbMigration: the schema is abstract (tables and columns). The `information_schema` lookup is modelled as membership.
- SendNotifications.WriteRows: only the worksheet's rows are modelled. Timestamp formatting, JSON expansion of metrics, `fillna('')` and the sheet column lists are left out.
- SendNotifications.NotificationDb.FirstMain, SendNotifications.NotificationDb.MainAsWritten: the spreadsheet and credential steps are a success flag each. The sheet contents are not part of the run's result.

## Findings

| source | as written | input that shows it | evidently intended | confidence | as-written member | corrected member |
|---|---|---|---|---|---|---|
| script/send_notifications.py:242-247 | `main` is defined a second time at line 200, so `__main__` runs that copy. It ignores the result of `send_email_notification` and always sets `notification_sent` on every pending row. | one pending model whose ticker is in `stock_info`, `GSPREAD_SHEET_NAME` set, Google credentials that load and worksheet writes that succeed (otherwise the exception at lines 249-251 exits before any flag is set), no SMTP variables: no e-mail is sent, yet the model is flagged as notified and is never sent | the first definition (lines 165-173): flag the rows only when the e-mail was delivered, so undelivered notifications stay pending | not executed | SendNotifications.UndeliveredMarkedSent (over SendNotifications.NotificationDb.MainAsWritten) | SendNotifications.NotificationDb.FirstMain, with SendNotifications.RunKeepsUndelivered |

