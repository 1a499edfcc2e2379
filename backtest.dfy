/**
 * script/backtest.py: its copy of the target rule followed by
 * `dropna(subset = [label])`, the train/test split at two dates, and the
 * filter that picks the feature columns.
 */
module Backtest {
  import opened Wrappers
  import opened Text
  import opened Cells
  import opened Frames
  import opened TrainModel
  import StockUtils

  /** `dropna(subset = [c])`: the rows whose cell in column `c` is present, in order. */
  function DropNaIn(f: Frame, c: string): (g: Frame)
    ensures g.columns == f.columns
  {
    Frame(f.columns, Filter(f.rows, (r: Row) => !CellOf(r, c).NaN?))
  }

  /** `create_target(df, prediction_days, threshold, direction)`. */
  function CreateTarget(f: Frame, h: int, theta: real, pct: int, direction: string): Result<(Frame, string), TargetError>
  {
    match CreateClassificationTarget(f, h, theta, pct, direction)
    case Err(e) => Err(e)
    case Ok(r) => Ok((DropNaIn(r.0, r.1), r.1))
  }

  /**
   * The backtest's copy of the target rule gives exactly the training
   * script's table: the label is never missing, so dropping rows with a
   * missing label removes none.
   */
  lemma CreateTargetSameAsTraining(f: Frame, h: int, theta: real, pct: int, direction: string)
    ensures CreateTarget(f, h, theta, pct, direction) == CreateClassificationTarget(f, h, theta, pct, direction)
  {
    CreateClassificationTargetFacts(f, h, theta, pct, direction);
    var r := CreateClassificationTarget(f, h, theta, pct, direction);
    if r.Ok? {
      var g := r.value.0;
      var name := r.value.1;
      var keep := (x: Row) => !CellOf(x, name).NaN?;
      forall i | 0 <= i < |g.rows|
        ensures keep(g.rows[i])
      {
        assert CellOf(g.rows[i], name) == Column(g, name)[i];
        LabelsBinary(ForwardReturn(Column(f, AdjClose), h), theta, direction == "up", i);
      }
      FilterAll(g.rows, keep);
    }
  }

  /**
   * The trailing `h` rows stay in the backtest table: their forward return is
   * missing and their label is 0.
   */
  lemma CreateTargetKeepsTail(f: Frame, h: int, theta: real, pct: int, direction: string, i: int)
    requires h >= 0
    requires CreateTarget(f, h, theta, pct, direction).Ok?
    requires 0 <= i < |f.rows| && i >= |f.rows| - h
    ensures var (g, name) := CreateTarget(f, h, theta, pct, direction).value;
      |g.rows| == |f.rows| && g.rows[i].day == f.rows[i].day &&
      Column(g, ReturnLabel(h))[i].NaN? && Column(g, name)[i] == Num(0.0)
  {
    CreateTargetSameAsTraining(f, h, theta, pct, direction);
    CreateClassificationTargetFacts(f, h, theta, pct, direction);
    var ret := ForwardReturn(Column(f, AdjClose), h);
    var g := CreateTarget(f, h, theta, pct, direction).value.0;
    assert Days(g)[i] == Days(f)[i];
    ForwardReturnTail(Column(f, AdjClose), h, i);
    LabelsBinary(ret, theta, direction == "up", i);
  }

  // -------------------------------------------------------------- the split

  /** Why `run_backtest` stops before training. */
  datatype SplitError = EmptyTable | EmptySplit

  function RowsThrough(rows: seq<Row>, end: int): seq<Row>
  {
    Filter(rows, (r: Row) => r.day <= end)
  }

  /**
   * `df_final.loc[:train_end_date]` and `df_final.loc[test_start_date:]` on
   * the date-sorted table; an empty table, or an empty side, stops the run.
   */
  function DateSplit(f: Frame, trainEnd: int, testStart: int): Result<(Frame, Frame), SplitError>
  {
    if f.rows == [] then Err(EmptyTable)
    else
      var train := Frame(f.columns, RowsThrough(f.rows, trainEnd));
      var test := Frame(f.columns, RowsFrom(f.rows, testStart));
      if train.rows == [] || test.rows == [] then Err(EmptySplit) else Ok((train, test))
  }

  /**
   * The split succeeds exactly when some row is dated on or before the end of
   * training and some row on or after the start of testing; the training
   * rows are exactly the rows up to the end date and the test rows exactly
   * those from the start date, so with the end before the start no row is in both.
   */
  lemma DateSplitMembers(rows: seq<Row>, trainEnd: int, testStart: int, x: Row)
    ensures x in RowsThrough(rows, trainEnd) <==> x in rows && x.day <= trainEnd
    ensures x in RowsFrom(rows, testStart) <==> x in rows && x.day >= testStart
  {
    FilterMember(rows, (r: Row) => r.day <= trainEnd, x);
    FilterMember(rows, (r: Row) => r.day >= testStart, x);
  }

  lemma DateSplitFacts(f: Frame, trainEnd: int, testStart: int)
    ensures var r := DateSplit(f, trainEnd, testStart);
      (r.Ok? <==> (exists i :: 0 <= i < |f.rows| && f.rows[i].day <= trainEnd) &&
                  (exists j :: 0 <= j < |f.rows| && f.rows[j].day >= testStart)) &&
      (r.Ok? ==>
        (forall x :: x in r.value.0.rows <==> x in f.rows && x.day <= trainEnd) &&
        (forall x :: x in r.value.1.rows <==> x in f.rows && x.day >= testStart) &&
        (trainEnd < testStart ==> forall x :: x in r.value.0.rows ==> x !in r.value.1.rows))
  {
    var a := RowsThrough(f.rows, trainEnd);
    var b := RowsFrom(f.rows, testStart);
    forall x
      ensures (x in a <==> x in f.rows && x.day <= trainEnd) && (x in b <==> x in f.rows && x.day >= testStart)
    {
      DateSplitMembers(f.rows, trainEnd, testStart, x);
    }
    assert a != [] <==> exists i :: 0 <= i < |f.rows| && f.rows[i].day <= trainEnd by {
      if a != [] {
        assert a[0] in a;
      }
    }
    assert b != [] <==> exists j :: 0 <= j < |f.rows| && f.rows[j].day >= testStart by {
      if b != [] {
        assert b[0] in b;
      }
    }
  }

  // ------------------------------------------------------- feature columns

  /** The raw price and volume labels the backtest never trains on. */
  const RawColumns: seq<string> :=
    ["open_price", "high_price", "low_price", "close_price", "adj_close_price", "future_adj_close", "volume"]

  /** A column the backtest trains on. */
  predicate IsFeature(c: string, target: string)
  {
    c !in RawColumns && c != target &&
    !EndsWith(c, "_volume") && !EndsWith(c, "_price") && !StartsWith(c, "target")
  }

  /** The feature-column comprehension over the table's columns, in their order. */
  function FeatureColumns(columns: seq<string>, target: string): seq<string>
  {
    Filter(columns, (c: string) => IsFeature(c, target))
  }

  /**
   * A column is a feature exactly when it is one of the table's columns and
   * passes every exclusion; the label and every `target...` column never are;
   * the chosen columns keep the table's order.
   */
  lemma FeatureColumnsFacts(columns: seq<string>, target: string, more: seq<string>)
    ensures forall c :: c in FeatureColumns(columns, target) <==> c in columns && IsFeature(c, target)
    ensures target !in FeatureColumns(columns, target)
    ensures forall c :: c in FeatureColumns(columns, target) ==> !StartsWith(c, "target")
    ensures FeatureColumns(columns + more, target) == FeatureColumns(columns, target) + FeatureColumns(more, target)
  {
    forall c
      ensures c in FeatureColumns(columns, target) <==> c in columns && IsFeature(c, target)
    {
      FilterMember(columns, (x: string) => IsFeature(x, target), c);
    }
    FilterAppend(columns, more, (x: string) => IsFeature(x, target));
  }

  /** A label whose last character is not 'e' ends in neither `_volume` nor `_price`. */
  lemma NotPriceOrVolume(c: string)
    requires c != [] && c[|c| - 1] != 'e'
    ensures !EndsWith(c, "_volume") && !EndsWith(c, "_price")
  {
  }

  /** A label made of one of the two leading letters 'r' or 'S' does not start with "target". */
  lemma NotTargetPrefixed(c: string)
    requires c != [] && c[0] != 't'
    ensures !StartsWith(c, "target")
  {
  }

  lemma ReturnNameIsFeature(n: int, target: string)
    requires target != StockUtils.ReturnName("return_", n)
    ensures IsFeature(StockUtils.ReturnName("return_", n), target)
  {
    var c := StockUtils.ReturnName("return_", n);
    StockUtils.ReturnNameEnd("return_", n);
    assert c[0] == 'r';
    NotPriceOrVolume(c);
    NotTargetPrefixed(c);
  }

  /** A label led by 'S' whose last character is not 'e' is a feature unless it is the target. */
  lemma SLabelIsFeature(c: string, target: string)
    requires c != [] && c[0] == 'S' && c[|c| - 1] != 'e' && c != target
    ensures IsFeature(c, target)
  {
    NotPriceOrVolume(c);
    NotTargetPrefixed(c);
    assert c !in RawColumns by {
      forall k | 0 <= k < |RawColumns| ensures RawColumns[k] != c {
        assert RawColumns[k][0] != 'S';
      }
    }
  }

  lemma SmaNamesAreFeatures(p: int, target: string)
    requires target != StockUtils.SmaName(p) && target != StockUtils.SmaDiffName(p)
    ensures IsFeature(StockUtils.SmaName(p), target) && IsFeature(StockUtils.SmaDiffName(p), target)
  {
    var digits := IntToString(p);
    var last := digits[|digits| - 1];
    assert IsDigit(last) || last == '-';
    var a := StockUtils.SmaName(p);
    var b := StockUtils.SmaDiffName(p);
    assert a == "SMA_" + digits && b == "SMA_diff_ratio_" + digits;
    assert a[|a| - 1] == last && b[|b| - 1] == last;
    SLabelIsFeature(a, target);
    SLabelIsFeature(b, target);
  }

  lemma CalendarLabelIsFeature(c: string, target: string)
    requires c in StockUtils.CalendarLabels && c != target
    ensures IsFeature(c, target)
  {
    if c == "volume_change" {
      assert !EndsWith(c, "_volume") && !EndsWith(c, "_price");
    } else {
      NotPriceOrVolume(c);
    }
    NotTargetPrefixed(c);
  }

  lemma FeatureLabelIsFeature(lags: seq<int>, mas: seq<int>, target: string, c: string)
    requires c in StockUtils.FeatureLabels(lags, mas) && target != c
    requires c in StockUtils.SmaNames(mas) ==> target !in StockUtils.SmaNames(mas)
    ensures IsFeature(c, target)
  {
    if c in StockUtils.ReturnNames("return_", lags) {
      var n :| n in lags && c == StockUtils.ReturnName("return_", n);
      ReturnNameIsFeature(n, target);
    } else if c in StockUtils.SmaNames(mas) {
      var p :| p in mas && (c == StockUtils.SmaName(p) || c == StockUtils.SmaDiffName(p));
      assert StockUtils.SmaName(p) in StockUtils.SmaNames(mas);
      assert StockUtils.SmaDiffName(p) in StockUtils.SmaNames(mas);
      SmaNamesAreFeatures(p, target);
    } else {
      assert c in StockUtils.CalendarLabels;
      CalendarLabelIsFeature(c, target);
    }
  }

  lemma VixPriceNotFeature(target: string)
    ensures !IsFeature("vix_price", target)
  {
    assert "vix_price"[3..] == "_price";
  }

  /**
   * The target's own derived columns (lag returns, both moving-average
   * columns, volume change and calendar parts) are all features for any
   * label that does not collide with them, while `vix_price` is excluded
   * by the `_price` rule.
   */
  lemma DerivedColumnsAreFeatures(lags: seq<int>, mas: seq<int>, target: string)
    requires target !in StockUtils.FeatureLabels(lags, mas)
    ensures forall c :: c in StockUtils.FeatureLabels(lags, mas) ==> IsFeature(c, target)
    ensures !IsFeature("vix_price", target)
  {
    forall c | c in StockUtils.FeatureLabels(lags, mas)
      ensures IsFeature(c, target)
    {
      FeatureLabelIsFeature(lags, mas, target, c);
    }
    VixPriceNotFeature(target);
  }
}
