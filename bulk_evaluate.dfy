/**
 * script/bulk_evaluate.py: which tickers a bulk evaluation fetches, which it
 * still has to evaluate, the skip rules and the train/test split of each
 * (ticker, direction) pair, the rows written to `performance_log` (one
 * failure never stops the run), and the removal of the price rows fetched
 * only for the evaluation.
 */
module BulkEvaluate {
  import opened Wrappers
  import opened Text
  import opened Calendar
  import opened Cells
  import opened Frames
  import StockUtils
  import TrainModel
  import UpdateStockData

  /** The auxiliary tickers every evaluation joins. */
  const CommonFeatures: seq<string> := ["^N225", "^TPX", "^GSPC", "JPY=X", "CL=F"]
  const TrainingYears: int := 5
  const TestSize: real := 0.2
  /** Below this many price rows a ticker is skipped. */
  const MinPriceRows: int := 200
  /** Below this many window rows a direction is skipped. */
  const MinWindowRows: int := 100
  const Directions: seq<string> := ["up", "down"]

  // ------------------------------------------------------------ ticker sets

  /** Keeps the tickers outside `s`. */
  function NotIn(s: set<string>): string -> bool
  {
    t => t !in s
  }

  /** `[t for t in xs if t not in s]`. */
  function Outside(xs: seq<string>, s: set<string>): (r: seq<string>)
    ensures |r| <= |xs| && forall i :: 0 <= i < |r| ==> r[i] !in s
  {
    Filter(xs, NotIn(s))
  }

  /** A ticker is kept exactly when it is listed and not excluded. */
  lemma OutsideMember(xs: seq<string>, s: set<string>, t: string)
    ensures t in Outside(xs, s) <==> t in xs && t !in s
  {
    FilterMember(xs, NotIn(s), t);
  }

  /** Order is kept: the selection of a concatenation is the concatenation of the selections. */
  lemma OutsideAppend(a: seq<string>, b: seq<string>, s: set<string>)
    ensures Outside(a + b, s) == Outside(a, s) + Outside(b, s)
  {
    FilterAppend(a, b, NotIn(s));
  }

  /** `new_evaluation_tickers`: the targets without price data yet. */
  function NewEvaluationTickers(targets: seq<string>, existing: set<string>): seq<string>
  {
    Outside(targets, existing)
  }

  /** `set(new_evaluation_tickers + COMMON_FEATURES)` (the list order is not specified). */
  function TickersToUpdate(newTickers: seq<string>): (r: set<string>)
    ensures forall t :: t in r <==> t in newTickers || t in CommonFeatures
  {
    set t | t in newTickers + CommonFeatures
  }

  /** The common feature tickers are always fetched, so the update always runs. */
  lemma TickersToUpdateNonEmpty(newTickers: seq<string>)
    ensures TickersToUpdate(newTickers) != {}
  {
    assert "^N225" in TickersToUpdate(newTickers);
  }

  /**
   * `prepare_data` fetches every target that has no price data yet and the
   * common features, and nothing else: no target that already has data is
   * fetched unless it is a common feature.
   */
  lemma TickersToUpdateCovers(targets: seq<string>, existing: set<string>, t: string)
    ensures t in targets && t !in existing ==> t in TickersToUpdate(NewEvaluationTickers(targets, existing))
    ensures t in CommonFeatures ==> t in TickersToUpdate(NewEvaluationTickers(targets, existing))
    ensures t in TickersToUpdate(NewEvaluationTickers(targets, existing)) ==>
      t in CommonFeatures || (t in targets && t !in existing)
  {
    OutsideMember(targets, existing, t);
  }

  // ------------------------------------------------------- performance log

  datatype Status = Success | Skipped | Failed

  /**
   * One `performance_log` row: the model version is always -1, the feature
   * list is always the common features, and the training period is absent
   * for data and failure rows.
   */
  datatype LogRow = LogRow(
    ticker: string, direction: string, status: Status, message: string,
    period: Option<(int, int)>, metrics: map<string, real>)

  /** The directions with a `success` row for `ticker`. */
  function SuccessDirections(log: seq<LogRow>, ticker: string): (ds: set<string>)
    ensures forall d :: d in ds <==> exists i :: 0 <= i < |log| && log[i].ticker == ticker && log[i].status == Success && log[i].direction == d
  {
    set i | 0 <= i < |log| && log[i].ticker == ticker && log[i].status == Success :: log[i].direction
  }

  /** `GROUP BY ticker HAVING COUNT(DISTINCT direction) = 2` over the `success` rows. */
  function Completed(log: seq<LogRow>): (done: set<string>)
    ensures forall t :: t in done <==> |SuccessDirections(log, t)| == 2
  {
    var done := set i | 0 <= i < |log| && |SuccessDirections(log, log[i].ticker)| == 2 :: log[i].ticker;
    forall t | |SuccessDirections(log, t)| == 2
      ensures t in done
    {
      var d :| d in SuccessDirections(log, t);
      var i :| 0 <= i < |log| && log[i].ticker == t && log[i].status == Success && log[i].direction == d;
    }
    done
  }

  /** `target_tickers`: all tickers not completed, in order. */
  function Remaining(all: seq<string>, log: seq<LogRow>): seq<string>
  {
    Outside(all, Completed(log))
  }

  /** Directions a `success` row may carry. */
  predicate SuccessIsUpOrDown(log: seq<LogRow>)
  {
    forall i :: 0 <= i < |log| && log[i].status == Success ==> log[i].direction in Directions
  }

  /** When successes carry only "up" or "down", a ticker is completed exactly when both succeeded. */
  lemma CompletedIffBoth(log: seq<LogRow>, t: string)
    requires SuccessIsUpOrDown(log)
    ensures t in Completed(log) <==> "up" in SuccessDirections(log, t) && "down" in SuccessDirections(log, t)
  {
    var ds := SuccessDirections(log, t);
    assert ds <= {"up", "down"};
    if "up" !in ds {
      assert ds <= {"down"};
      assert |ds| <= 1 by {
        if ds != {} {
          assert ds == {"down"};
        }
      }
    } else if "down" !in ds {
      assert ds <= {"up"};
      assert |ds| <= 1 by {
        if ds != {} {
          assert ds == {"up"};
        }
      }
    } else {
      assert ds == {"up", "down"};
    }
  }

  // ------------------------------------------------- one ticker, one direction

  /** What `load_all_data` returns: the target's prices, the auxiliary tables and the macro panel. */
  datatype Loaded = Loaded(main: Frame, aux: seq<(string, Frame)>, macro: Frame)

  /** The settings the run takes from the configuration and the training module. */
  datatype Settings = Settings(h: int, theta: real, pct: int, lags: seq<int>, mas: seq<int>)

  /** The training inputs: training features and labels, test features and labels. */
  datatype Split = Split(trainX: seq<Row>, trainY: seq<Cell>, testX: seq<Row>, testY: seq<Cell>)

  /** The model fitting (`train_and_evaluate_classification`): metrics, or the text of what it raised. */
  type Trainer = (string, string, Split) -> Result<map<string, real>, string>

  /** `str(e)` of the errors raised by the feature and target code. */
  function TargetErrorText(e: TrainModel.TargetError): string
  {
    match e
    case KeyError(c) => "'" + c + "'"
    case ValueError(m) => m
  }

  function FeatureErrorText(e: StockUtils.FeatureError): string
  {
    match e
    case KeyError(c) => "'" + c + "'"
    case ValueError(m) => m
  }

  /** `window_df[features_columns]`: the cells of the feature columns only. */
  function Project(rows: seq<Row>, columns: set<string>): (out: seq<Row>)
    ensures |out| == |rows|
    ensures forall i :: 0 <= i < |rows| ==> out[i].day == rows[i].day && out[i].cells.Keys == rows[i].cells.Keys * columns
  {
    seq(|rows|, i requires 0 <= i < |rows| => Row(rows[i].day, map c | c in rows[i].cells && c in columns :: rows[i].cells[c]))
  }

  /** The label column of the window. */
  function LabelsOf(rows: seq<Row>, name: string): (y: seq<Cell>)
    ensures |y| == |rows|
  {
    seq(|rows|, i requires 0 <= i < |rows| => CellOf(rows[i], name))
  }

  /** `y.nunique()`: the distinct present labels. */
  function Classes(y: seq<Cell>): set<Cell>
  {
    set i | 0 <= i < |y| && y[i] != NaN :: y[i]
  }

  /** The split of `X` and `y` at `int(len(X) * 0.8)`. */
  function SplitOf(x: seq<Row>, y: seq<Cell>): (s: Split)
    requires |x| == |y|
  {
    var (trainX, testX) := TrainModel.ChronologicalSplit(x, TestSize);
    var (trainY, testY) := TrainModel.ChronologicalSplit(y, TestSize);
    Split(trainX, trainY, testX, testY)
  }

  /** `create_classification_target` followed by `dropna()`: the rows left, with the label's name. */
  function Prepared(features: Frame, direction: string, st: Settings): Result<(seq<Row>, string), string>
  {
    match TrainModel.CreateClassificationTarget(features, st.h, st.theta, st.pct, direction)
    case Err(e) => Err(TargetErrorText(e))
    case Ok((targets, name)) => Ok((DropNa(targets).rows, name))
  }

  /**
   * What a direction does with the rows left: skip when none are left, or
   * when the five-year window is too short or has a single class; otherwise
   * train on the split window.
   */
  function Decide(ticker: string, direction: string, final: seq<Row>, name: string, columns: set<string>, train: Trainer): Result<LogRow, string>
  {
    if final == [] then
      Ok(LogRow(ticker, direction, Skipped, "No data after feature creation", None, map[]))
    else
      var latest := TrainModel.LatestDay(final);
      var period := Some((MinusYears(latest, TrainingYears), latest));
      var window := TrainModel.TrainingWindow(final, TrainingYears);
      var x := Project(window, columns);
      var y := LabelsOf(window, name);
      if |x| < MinWindowRows || |Classes(y)| < 2 then
        Ok(LogRow(ticker, direction, Skipped, "Insufficient training data or single class", period, map[]))
      else
        match train(ticker, direction, SplitOf(x, y))
        case Err(m) => Err(m)
        case Ok(metrics) => Ok(LogRow(ticker, direction, Success, "", period, metrics))
  }

  /** One pass of the direction loop: a row for the log, or the text of an exception, which ends this ticker's evaluation. */
  function EvaluateDirection(ticker: string, features: Frame, direction: string, st: Settings, train: Trainer): Result<LogRow, string>
  {
    match Prepared(features, direction, st)
    case Err(m) => Err(m)
    case Ok((final, name)) => Decide(ticker, direction, final, name, features.columns, train)
  }

  /** A loop over `dirs` that stops at the first exception: the rows written, and the exception, if any. */
  function DirectionRows(dirs: seq<string>, step: string -> Result<LogRow, string>): (seq<LogRow>, Option<string>)
    decreases |dirs|
  {
    if dirs == [] then ([], None)
    else
      var (rows, stop) := DirectionRows(dirs[..|dirs| - 1], step);
      if stop.Some? then (rows, stop)
      else
        match step(dirs[|dirs| - 1])
        case Err(m) => (rows, Some(m))
        case Ok(row) => (rows + [row], None)
  }

  /**
   * The two stages of a ticker's evaluation: building the feature table
   * (or the text of what it raised), and one direction on it.
   */
  datatype Pipeline = Pipeline(
    build: Loaded -> Result<Frame, string>,
    direction: (string, Frame, string) -> Result<LogRow, string>)

  /** `create_features` with the configured settings. */
  function BuildFeatures(d: Loaded, st: Settings): Result<Frame, string>
  {
    match StockUtils.Features(d.main, d.aux, d.macro, st.lags, st.mas)
    case Err(e) => Err(FeatureErrorText(e))
    case Ok(f) => Ok(f)
  }

  /** The stages of `run_evaluation`. */
  function Standard(st: Settings, train: Trainer): Pipeline
  {
    Pipeline(d => BuildFeatures(d, st), (t, f, dir) => EvaluateDirection(t, f, dir, st, train))
  }

  function StepOf(ticker: string, features: Frame, p: Pipeline): string -> Result<LogRow, string>
  {
    d => p.direction(ticker, features, d)
  }

  function FailedRow(ticker: string, message: string): LogRow
  {
    LogRow(ticker, "N/A", Failed, message, None, map[])
  }

  /** The rows of the direction loop, then a failure row if it raised. */
  function FeatureRows(ticker: string, step: string -> Result<LogRow, string>): seq<LogRow>
  {
    var (rows, stop) := DirectionRows(Directions, step);
    if stop.Some? then rows + [FailedRow(ticker, stop.value)] else rows
  }

  /** Everything the body of the ticker loop writes for one ticker. */
  function EvaluateTicker(ticker: string, data: Result<Loaded, string>, p: Pipeline): seq<LogRow>
  {
    match data
    case Err(m) => [FailedRow(ticker, m)]
    case Ok(d) =>
      if |d.main.rows| < MinPriceRows then
        [LogRow(ticker, "N/A", Skipped, "Insufficient data", None, map[])]
      else
        match p.build(d)
        case Err(m) => [FailedRow(ticker, m)]
        case Ok(features) => FeatureRows(ticker, StepOf(ticker, features, p))
  }

  /** The rows a loop over `targets` appends, `each` giving the rows of one ticker. */
  function RunRows(targets: seq<string>, each: string -> seq<LogRow>): seq<LogRow>
    decreases |targets|
  {
    if targets == [] then []
    else RunRows(targets[..|targets| - 1], each) + each(targets[|targets| - 1])
  }

  function TickerStep(load: string -> Result<Loaded, string>, p: Pipeline): string -> seq<LogRow>
  {
    t => EvaluateTicker(t, load(t), p)
  }

  // ------------------------------------------------------------- properties

  /** The label column's name is the training module's, and a table without `adj_close_price` raises `KeyError`. */
  lemma PreparedFacts(features: Frame, direction: string, st: Settings)
    ensures var p := Prepared(features, direction, st);
      (p.Ok? ==> p.value.1 == TrainModel.TargetName(st.h, direction, st.pct)) &&
      (TrainModel.AdjClose !in features.columns ==> p == Err("'adj_close_price'")) &&
      (TrainModel.AdjClose in features.columns && direction in Directions ==> p.Ok?)
  {
    assert "'" + TrainModel.AdjClose + "'" == "'adj_close_price'";
  }

  /**
   * The row of a direction: a skip when no rows are left; a skip with the
   * window's dates when the window has fewer than 100 rows or a single
   * class; otherwise a success holding the metrics from training on the
   * first `int(0.8 * n)` window rows, or the trainer's exception.
   */
  lemma DecideFacts(ticker: string, direction: string, final: seq<Row>, name: string, columns: set<string>, train: Trainer)
    ensures var r := Decide(ticker, direction, final, name, columns, train);
      (r.Ok? ==> r.value.ticker == ticker && r.value.direction == direction && r.value.status != Failed) &&
      (final == [] ==> r.Ok? && r.value.status == Skipped && r.value.period.None?)
    ensures final != [] ==>
      var r := Decide(ticker, direction, final, name, columns, train);
      var latest := TrainModel.LatestDay(final);
      var window := TrainModel.TrainingWindow(final, TrainingYears);
      var y := LabelsOf(window, name);
      var s := SplitOf(Project(window, columns), y);
      (|window| < MinWindowRows || |Classes(y)| < 2 <==> r.Ok? && r.value.status == Skipped) &&
      (r.Ok? ==> r.value.period == Some((MinusYears(latest, TrainingYears), latest))) &&
      (r.Ok? && r.value.status == Success ==> train(ticker, direction, s) == Ok(r.value.metrics)) &&
      (r.Err? <==> |window| >= MinWindowRows && |Classes(y)| >= 2 && train(ticker, direction, s).Err?) &&
      s.trainX + s.testX == Project(window, columns) && s.trainY + s.testY == y &&
      |s.trainX| == |s.trainY| == (|window| as real * 0.8).Floor
  {
    if final != [] {
      var window := TrainModel.TrainingWindow(final, TrainingYears);
      var y := LabelsOf(window, name);
      var x := Project(window, columns);
      SplitOfFacts(x, y);
      assert |x| == |window|;
    }
  }

  /** The split keeps both sequences in order, the first `int(0.8 * n)` items for training. */
  lemma SplitOfFacts(x: seq<Row>, y: seq<Cell>)
    requires |x| == |y|
    ensures var s := SplitOf(x, y);
      s.trainX + s.testX == x && s.trainY + s.testY == y &&
      |s.trainX| == |s.trainY| == (|x| as real * 0.8).Floor
  {
    TrainModel.ChronologicalSplitFacts(x, TestSize);
    TrainModel.ChronologicalSplitFacts(y, TestSize);
    assert 1.0 - TestSize == 0.8;
  }

  /** A direction's row is about that ticker and direction, and is never a failure row. */
  lemma EvaluateDirectionFacts(ticker: string, features: Frame, direction: string, st: Settings, train: Trainer)
    ensures var r := EvaluateDirection(ticker, features, direction, st, train);
      r.Ok? ==> r.value.ticker == ticker && r.value.direction == direction && r.value.status != Failed
  {
    var p := Prepared(features, direction, st);
    if p.Ok? {
      DecideFacts(ticker, direction, p.value.0, p.value.1, features.columns, train);
    }
  }

  /** The direction loop writes rows for a prefix of the directions, in order, and stops at the first exception. */
  lemma {:induction false} DirectionRowsFacts(dirs: seq<string>, step: string -> Result<LogRow, string>)
    ensures var (rows, stop) := DirectionRows(dirs, step);
      |rows| <= |dirs| &&
      (stop.None? ==> |rows| == |dirs|) &&
      (forall i :: 0 <= i < |rows| ==> step(dirs[i]) == Ok(rows[i])) &&
      (stop.Some? ==> |rows| < |dirs| && step(dirs[|rows|]) == Err(stop.value))
    decreases |dirs|
  {
    if dirs != [] {
      var init := dirs[..|dirs| - 1];
      DirectionRowsFacts(init, step);
      assert forall i :: 0 <= i < |init| ==> init[i] == dirs[i];
    }
  }

  /** Rows that are all about `t`, at least one and at most three, a failure only last, and successes only for "up" or "down". */
  predicate WellFormed(t: string, rows: seq<LogRow>)
  {
    1 <= |rows| <= 3 &&
    (forall i :: 0 <= i < |rows| ==> rows[i].ticker == t) &&
    (forall i :: 0 <= i < |rows| && rows[i].status == Failed ==> i == |rows| - 1 && rows[i].direction == "N/A") &&
    (forall i :: 0 <= i < |rows| && rows[i].status == Success ==> rows[i].direction in Directions)
  }

  /** A direction stage whose rows are about the ticker and direction asked for, and never failure rows. */
  ghost predicate DirectionsSound(p: Pipeline)
  {
    forall t, f, d :: p.direction(t, f, d).Ok? ==>
      p.direction(t, f, d).value.ticker == t && p.direction(t, f, d).value.direction == d &&
      p.direction(t, f, d).value.status != Failed
  }

  lemma StandardSound(st: Settings, train: Trainer)
    ensures DirectionsSound(Standard(st, train))
  {
    forall t, f, d
      ensures var r := Standard(st, train).direction(t, f, d);
        r.Ok? ==> r.value.ticker == t && r.value.direction == d && r.value.status != Failed
    {
      EvaluateDirectionFacts(t, f, d, st, train);
    }
  }

  lemma FeatureRowsFacts(ticker: string, features: Frame, p: Pipeline)
    requires DirectionsSound(p)
    ensures WellFormed(ticker, FeatureRows(ticker, StepOf(ticker, features, p)))
  {
    var step := StepOf(ticker, features, p);
    DirectionRowsFacts(Directions, step);
    var (rows, stop) := DirectionRows(Directions, step);
    forall i | 0 <= i < |rows|
      ensures rows[i].ticker == ticker && rows[i].status != Failed && rows[i].direction in Directions
    {
      assert step(Directions[i]) == Ok(rows[i]);
      assert p.direction(ticker, features, Directions[i]) == Ok(rows[i]);
    }
  }

  /**
   * A ticker whose data cannot be loaded, or whose price table is too short,
   * gets exactly one row, with direction "N/A"; a feature table that cannot
   * be built gives one failure row; in every case the rows are well formed.
   */
  lemma EvaluateTickerFacts(ticker: string, data: Result<Loaded, string>, p: Pipeline)
    requires DirectionsSound(p)
    ensures WellFormed(ticker, EvaluateTicker(ticker, data, p))
    ensures data.Err? ==> EvaluateTicker(ticker, data, p) == [FailedRow(ticker, data.error)]
    ensures data.Ok? && |data.value.main.rows| < MinPriceRows ==>
      EvaluateTicker(ticker, data, p) == [LogRow(ticker, "N/A", Skipped, "Insufficient data", None, map[])]
    ensures data.Ok? && |data.value.main.rows| >= MinPriceRows && p.build(data.value).Err? ==>
      EvaluateTicker(ticker, data, p) == [FailedRow(ticker, p.build(data.value).error)]
  {
    if data.Ok? && |data.value.main.rows| >= MinPriceRows {
      var f := p.build(data.value);
      if f.Ok? {
        FeatureRowsFacts(ticker, f.value, p);
      }
    }
  }

  /** The loop goes on after every failure: the rows are the per-ticker rows, ticker after ticker. */
  lemma {:induction false} RunRowsAppend(a: seq<string>, b: seq<string>, each: string -> seq<LogRow>)
    ensures RunRows(a + b, each) == RunRows(a, each) + RunRows(b, each)
    decreases |b|
  {
    if b == [] {
      assert a + b == a;
    } else {
      var b' := b[..|b| - 1];
      assert (a + b)[..|a + b| - 1] == a + b';
      assert (a + b)[|a + b| - 1] == b[|b| - 1];
      RunRowsAppend(a, b', each);
    }
  }

  /** When each ticker's rows are well formed, every ticker gets a row and every row is about one of the tickers. */
  lemma {:induction false} RunRowsCover(targets: seq<string>, each: string -> seq<LogRow>)
    requires forall t :: WellFormed(t, each(t))
    ensures var rows := RunRows(targets, each);
      (forall t :: t in targets ==> exists i :: 0 <= i < |rows| && rows[i].ticker == t) &&
      (forall i :: 0 <= i < |rows| ==> rows[i].ticker in targets) &&
      SuccessIsUpOrDown(rows)
    decreases |targets|
  {
    if targets != [] {
      var init := targets[..|targets| - 1];
      var t := targets[|targets| - 1];
      RunRowsCover(init, each);
      var a := RunRows(init, each);
      var b := each(t);
      assert WellFormed(t, b);
      var rows := a + b;
      assert RunRows(targets, each) == rows;
      assert targets == init + [t];
      forall u | u in targets
        ensures exists i :: 0 <= i < |rows| && rows[i].ticker == u
      {
        if u == t {
          assert rows[|a|] == b[0];
        } else {
          assert u in init;
          var i :| 0 <= i < |a| && a[i].ticker == u;
          assert rows[i].ticker == u;
        }
      }
      forall i | 0 <= i < |rows|
        ensures rows[i].ticker in targets && (rows[i].status == Success ==> rows[i].direction in Directions)
      {
        if i < |a| {
          assert rows[i] == a[i];
          assert a[i].ticker in init;
        } else {
          assert rows[i] == b[i - |a|];
        }
      }
    }
  }

  /** Every ticker's rows in a run are well formed. */
  lemma TickerStepWellFormed(load: string -> Result<Loaded, string>, p: Pipeline)
    requires DirectionsSound(p)
    ensures forall t :: WellFormed(t, TickerStep(load, p)(t))
  {
    forall t
      ensures WellFormed(t, TickerStep(load, p)(t))
    {
      EvaluateTickerFacts(t, load(t), p);
    }
  }

  /** After a run, a completed ticker is one with both an "up" and a "down" success. */
  lemma RunCompleted(log: seq<LogRow>, targets: seq<string>, load: string -> Result<Loaded, string>, st: Settings, train: Trainer, t: string)
    requires SuccessIsUpOrDown(log)
    ensures var after := log + RunRows(targets, TickerStep(load, Standard(st, train)));
      t in Completed(after) <==> "up" in SuccessDirections(after, t) && "down" in SuccessDirections(after, t)
  {
    var p := Standard(st, train);
    var rows := RunRows(targets, TickerStep(load, p));
    StandardSound(st, train);
    TickerStepWellFormed(load, p);
    RunRowsCover(targets, TickerStep(load, p));
    var after := log + rows;
    forall i | 0 <= i < |after| && after[i].status == Success
      ensures after[i].direction in Directions
    {
      if i >= |log| {
        assert after[i] == rows[i - |log|];
      }
    }
    CompletedIffBoth(after, t);
  }

  // ----------------------------------------------------------- the run

  /** The `performance_log` table, appended to by `save_performance_log`. */
  class PerformanceLog {
    var rows: seq<LogRow>

    constructor(initial: seq<LogRow>)
      ensures rows == initial
    {
      rows := initial;
    }

    method Save(row: LogRow)
      modifies this
      ensures rows == old(rows) + [row]
    {
      rows := rows + [row];
    }

    /** `TRUNCATE TABLE performance_log` of a fresh run. */
    method Clear()
      modifies this
      ensures rows == []
    {
      rows := [];
    }
  }

  /** The direction loop, writing to the log as it goes; a raised exception adds the failure row and ends it. */
  method EvaluateDirections(log: PerformanceLog, ticker: string, step: string -> Result<LogRow, string>)
    modifies log
    ensures log.rows == old(log.rows) + FeatureRows(ticker, step)
  {
    var i := 0;
    while i < |Directions|
      invariant 0 <= i <= |Directions|
      invariant DirectionRows(Directions[..i], step).1.None?
      invariant log.rows == old(log.rows) + DirectionRows(Directions[..i], step).0
    {
      assert Directions[..i + 1][..i] == Directions[..i];
      var r := step(Directions[i]);
      if r.Err? {
        DirectionRowsStops(i + 1, step);
        log.Save(FailedRow(ticker, r.error));
        return;
      }
      log.Save(r.value);
      i := i + 1;
    }
    assert Directions[..i] == Directions;
  }

  /** Once the direction loop has stopped, the later direction adds nothing. */
  lemma DirectionRowsStops(k: nat, step: string -> Result<LogRow, string>)
    requires 1 <= k <= |Directions|
    requires DirectionRows(Directions[..k], step).1.Some?
    ensures DirectionRows(Directions, step) == DirectionRows(Directions[..k], step)
  {
    if k == 1 {
      assert Directions[..2][..1] == Directions[..1];
    }
    assert Directions[..2] == Directions;
  }

  /** The body of the ticker loop. */
  method EvaluateOne(log: PerformanceLog, ticker: string, load: string -> Result<Loaded, string>, p: Pipeline)
    modifies log
    ensures log.rows == old(log.rows) + TickerStep(load, p)(ticker)
  {
    var data := load(ticker);
    if data.Err? {
      log.Save(FailedRow(ticker, data.error));
      return;
    }
    var d := data.value;
    if |d.main.rows| < MinPriceRows {
      log.Save(LogRow(ticker, "N/A", Skipped, "Insufficient data", None, map[]));
      return;
    }
    var features := p.build(d);
    if features.Err? {
      log.Save(FailedRow(ticker, features.error));
      return;
    }
    EvaluateDirections(log, ticker, StepOf(ticker, features.value, p));
  }

  /**
   * The rows fetched only for the evaluation are deleted; every other
   * price row stays.
   */
  function Cleaned(prices: UpdateStockData.Prices, newTickers: seq<string>): (r: UpdateStockData.Prices)
    ensures forall k :: k in r <==> k in prices && k.0 !in newTickers
    ensures forall k :: k in r ==> r[k] == prices[k]
  {
    map k | k in prices && k.0 !in newTickers :: prices[k]
  }

  /** No new tickers, no change. */
  lemma CleanedNothing(prices: UpdateStockData.Prices)
    ensures Cleaned(prices, []) == prices
  {
  }

  /**
   * Cleanup undoes the fetch of the new tickers: when they had no rows
   * before and the fetch changed no other ticker's rows, the cleaned table
   * is the table before the fetch.
   */
  lemma CleanupRestores(before: UpdateStockData.Prices, after: UpdateStockData.Prices, newTickers: seq<string>)
    requires forall k :: k in before ==> k.0 !in newTickers
    requires forall k: UpdateStockData.PriceKey :: k.0 !in newTickers ==> (k in after <==> k in before)
    requires forall k :: k in before ==> after[k] == before[k]
    ensures Cleaned(after, newTickers) == before
  {
    var c := Cleaned(after, newTickers);
    assert c.Keys == before.Keys;
  }

  /**
   * `cleanup_data`: nothing when no ticker was added; otherwise one delete,
   * committed, or, when the database fails, nothing (the error is printed).
   */
  method Cleanup(table: UpdateStockData.PriceTable, newTickers: seq<string>, dbOk: bool)
    modifies table
    ensures table.rows == if newTickers == [] || !dbOk then old(table.rows) else Cleaned(old(table.rows), newTickers)
  {
    if newTickers == [] {
      return;
    }
    if dbOk {
      table.rows := Cleaned(table.rows, newTickers);
    }
  }

  /** The tickers that have rows in the price table. */
  function PriceTickers(prices: UpdateStockData.Prices): (ts: set<string>)
    ensures forall t :: t in ts <==> exists d :: (t, d) in prices
  {
    var ts := set k | k in prices :: k.0;
    forall t, d | (t, d) in prices
      ensures t in ts
    {
      var k := (t, d);
      assert k in prices && k.0 == t;
    }
    forall t | t in ts
      ensures exists d :: (t, d) in prices
    {
      var k :| k in prices && k.0 == t;
      var d := k.1;
      assert k == (t, d);
      assert (t, d) in prices;
    }
    ts
  }

  /** The ticker loop: each ticker in turn, whatever happened to the ones before. */
  method EvaluateAll(log: PerformanceLog, targets: seq<string>, load: string -> Result<Loaded, string>, p: Pipeline)
    modifies log
    ensures log.rows == old(log.rows) + RunRows(targets, TickerStep(load, p))
  {
    var each := TickerStep(load, p);
    var i := 0;
    while i < |targets|
      invariant 0 <= i <= |targets|
      invariant log.rows == old(log.rows) + RunRows(targets[..i], each)
    {
      EvaluateOne(log, targets[i], load, p);
      RunRowsNext(targets, each, i);
      AppendAssoc(old(log.rows), RunRows(targets[..i], each), each(targets[i]));
      i := i + 1;
    }
    assert targets[..i] == targets;
  }

  /** One more ticker adds its rows after those of the tickers before it. */
  lemma RunRowsNext(targets: seq<string>, each: string -> seq<LogRow>, i: int)
    requires 0 <= i < |targets|
    ensures RunRows(targets[..i + 1], each) == RunRows(targets[..i], each) + each(targets[i])
  {
    assert targets[..i + 1][..i] == targets[..i];
  }

  /**
   * `run_evaluation`: an optional fresh start, the remaining tickers
   * evaluated one by one, then the clean-up of the tickers that had no
   * price data before the run. `fetched` is the price table after the
   * update scripts have run, and `load` reads a ticker's data from it.
   */
  method RunEvaluation(log: PerformanceLog, table: UpdateStockData.PriceTable, all: seq<string>, freshRun: bool,
                       fetched: UpdateStockData.Prices, load: string -> Result<Loaded, string>,
                       st: Settings, train: Trainer, dbOk: bool)
    modifies log, table
    ensures var start := if freshRun then [] else old(log.rows);
      log.rows == start + RunRows(Remaining(all, start), TickerStep(load, Standard(st, train)))
    ensures table.rows ==
      var added := NewEvaluationTickers(all, PriceTickers(old(table.rows)));
      if added == [] || !dbOk then fetched else Cleaned(fetched, added)
  {
    if freshRun {
      log.Clear();
    }
    var added := NewEvaluationTickers(all, PriceTickers(table.rows));
    table.rows := fetched;
    var targets := Remaining(all, log.rows);
    EvaluateAll(log, targets, load, Standard(st, train));
    Cleanup(table, added, dbOk);
  }
}
