/**
 * script/train_model.py: the classification target (an H-row forward return
 * of the adjusted close and a 0/1 label by direction and threshold), the
 * version a newly saved model gets, the training window and chronological
 * train/test split of `main`, and the positive-class weight.
 */
module TrainModel {
  import opened Wrappers
  import opened Text
  import opened Calendar
  import opened Cells
  import opened Frames
  import opened Registry

  const AdjClose: string := "adj_close_price"

  /** What `create_classification_target` raises. */
  datatype TargetError = KeyError(column: string) | ValueError(message: string)

  const DirectionMessage: string := "direction must be either 'up' or 'down'"

  // ----------------------------------------------------------------- target

  /** `(price.shift(-h) - price) / price`: the return from each row to the row `h` rows later. */
  function ForwardReturn(prices: seq<Cell>, h: int): (r: seq<Cell>)
    ensures |r| == |prices|
  {
    DivColumns(SubColumns(Shift(prices, -h), prices), prices)
  }

  /** `target_return_{h}d`. */
  function ReturnLabel(h: int): string
  {
    "target_return_" + IntToString(h) + "d"
  }

  /** `target_{h}d_{direction}_{pct}pct`, where `pct` is `int(threshold * 100)`. */
  function TargetName(h: int, direction: string, pct: int): string
  {
    "target_" + IntToString(h) + "d_" + direction + "_" + IntToString(pct) + "pct"
  }

  /** `ret >= theta` for "up", `ret <= -theta` for "down"; a missing return compares false. */
  predicate Hit(ret: Cell, theta: real, up: bool)
  {
    if up then AtLeast(ret, theta) else AtMost(ret, -theta)
  }

  /** `(comparison).astype(int)` over a return column. */
  function Labels(ret: seq<Cell>, theta: real, up: bool): (r: seq<Cell>)
    ensures |r| == |ret|
  {
    seq(|ret|, i requires 0 <= i < |ret| => Indicator(Hit(ret[i], theta, up)))
  }

  /**
   * `create_classification_target(df, horizon, threshold, direction)` on a
   * copy of `df`: the forward-return column, then the label column computed
   * from it; a direction other than "up" or "down" raises after the return
   * has been computed, and a missing `adj_close_price` raises first.
   */
  function CreateClassificationTarget(f: Frame, h: int, theta: real, pct: int, direction: string): Result<(Frame, string), TargetError>
  {
    if AdjClose !in f.columns then Err(KeyError(AdjClose))
    else
      var g := SetColumn(f, ReturnLabel(h), ForwardReturn(Column(f, AdjClose), h));
      var name := TargetName(h, direction, pct);
      if direction == "up" then Ok((SetColumn(g, name, Labels(Column(g, ReturnLabel(h)), theta, true)), name))
      else if direction == "down" then Ok((SetColumn(g, name, Labels(Column(g, ReturnLabel(h)), theta, false)), name))
      else Err(ValueError(DirectionMessage))
  }

  /** The forward return at row `i`: `(p[i+h] - p[i]) / p[i]` when row `i + h` exists, missing otherwise. */
  lemma ForwardReturnAt(prices: seq<Cell>, h: int, i: int)
    requires 0 <= i < |prices|
    ensures ForwardReturn(prices, h)[i] ==
      if 0 <= i + h < |prices| then Div(Sub(prices[i + h], prices[i]), prices[i]) else NaN
  {
  }

  /** On present, non-zero prices the forward return is the exact ratio. */
  lemma ForwardReturnOfPrices(prices: seq<Cell>, h: int, i: int, a: real, b: real)
    requires 0 <= i < |prices| && 0 <= i + h < |prices|
    requires prices[i] == Num(a) && prices[i + h] == Num(b) && a != 0.0
    ensures ForwardReturn(prices, h)[i] == Num((b - a) / a)
  {
    ForwardReturnAt(prices, h, i);
  }

  /** The last `h` rows have no row `h` later, so their forward return is missing. */
  lemma ForwardReturnTail(prices: seq<Cell>, h: int, i: int)
    requires h >= 0 && 0 <= i < |prices| && i >= |prices| - h
    ensures ForwardReturn(prices, h)[i].NaN?
  {
    ForwardReturnAt(prices, h, i);
  }

  /** Labels are 0 or 1, 1 exactly on a hit, and 0 where the return is missing. */
  lemma LabelsBinary(ret: seq<Cell>, theta: real, up: bool, i: int)
    requires 0 <= i < |ret|
    ensures Labels(ret, theta, up)[i] == Num(1.0) || Labels(ret, theta, up)[i] == Num(0.0)
    ensures Labels(ret, theta, up)[i] == Num(1.0) <==> Hit(ret[i], theta, up)
    ensures ret[i].NaN? ==> Labels(ret, theta, up)[i] == Num(0.0)
  {
  }

  /** The "up" label is 1 iff the return is at least the threshold; "down" iff at most its negation. */
  lemma HitOnNumbers(x: real, theta: real)
    ensures Hit(Num(x), theta, true) <==> x >= theta
    ensures Hit(Num(x), theta, false) <==> x <= -theta
  {
  }

  /** The return label and the target label are different names, so the label never overwrites the return. */
  lemma TargetLabelsDistinct(h: int, direction: string, pct: int)
    ensures ReturnLabel(h) != TargetName(h, direction, pct)
    ensures ReturnLabel(h) != AdjClose && TargetName(h, direction, pct) != AdjClose
  {
    var a := ReturnLabel(h);
    var b := TargetName(h, direction, pct);
    assert a[7] == 'r';
    assert b[7] == IntToString(h)[0];
    assert AdjClose[0] == 'a' && a[0] == 't';
  }

  /**
   * What the target step does: it fails with `KeyError` without the
   * adjusted close and with `ValueError` for any other direction; otherwise
   * it adds exactly the return and label columns to a table with the same
   * rows and dates, the return column is the forward return of the adjusted
   * close, the label is the 0/1 indicator of the direction's test on that
   * return, and every other column is unchanged.
   */
  lemma CreateClassificationTargetFacts(f: Frame, h: int, theta: real, pct: int, direction: string)
    ensures var r := CreateClassificationTarget(f, h, theta, pct, direction);
      (r.Ok? <==> AdjClose in f.columns && (direction == "up" || direction == "down")) &&
      (AdjClose !in f.columns ==> r == Err(KeyError(AdjClose))) &&
      (AdjClose in f.columns && direction != "up" && direction != "down" ==> r == Err(ValueError(DirectionMessage))) &&
      (r.Ok? ==>
        var g := r.value.0;
        r.value.1 == TargetName(h, direction, pct) &&
        g.columns == f.columns + {ReturnLabel(h), TargetName(h, direction, pct)} &&
        Days(g) == Days(f) && (Valid(f) ==> Valid(g)) &&
        Column(g, ReturnLabel(h)) == ForwardReturn(Column(f, AdjClose), h) &&
        Column(g, TargetName(h, direction, pct)) == Labels(ForwardReturn(Column(f, AdjClose), h), theta, direction == "up") &&
        forall c :: c != ReturnLabel(h) && c != TargetName(h, direction, pct) ==> Column(g, c) == Column(f, c))
  {
    if AdjClose in f.columns && (direction == "up" || direction == "down") {
      var ret := ForwardReturn(Column(f, AdjClose), h);
      var name := TargetName(h, direction, pct);
      var g := SetColumn(f, ReturnLabel(h), ret);
      TargetLabelsDistinct(h, direction, pct);
      SetColumnFacts(f, ReturnLabel(h), ret);
      SetColumnSets(f, ReturnLabel(h), ret);
      var lab := Labels(ret, theta, direction == "up");
      var out := SetColumn(g, name, lab);
      SetColumnFacts(g, name, lab);
      SetColumnSets(g, name, lab);
      SetColumnOther(g, name, lab, ReturnLabel(h));
      forall c | c != ReturnLabel(h) && c != name
        ensures Column(out, c) == Column(f, c)
      {
        SetColumnOther(g, name, lab, c);
        SetColumnOther(f, ReturnLabel(h), ret, c);
      }
    }
  }

  /** Prices 100 for ten rows, 110 for ten, 95 for ten. */
  function StepPrices(): (p: seq<Cell>)
    ensures |p| == 30
    ensures forall i :: 0 <= i < 10 ==> p[i] == Num(100.0)
    ensures forall i :: 10 <= i < 20 ==> p[i] == Num(110.0)
    ensures forall i :: 20 <= i < 30 ==> p[i] == Num(95.0)
  {
    seq(30, i => if i < 10 then Num(100.0) else if i < 20 then Num(110.0) else Num(95.0))
  }

  /**
   * With a 10-row horizon and a 5% threshold, row 0 (100 to 110, +10%) is an
   * "up" hit and not a "down" hit, and row 10 (110 to 95, about -13.6%) is a
   * "down" hit and not an "up" hit; the label is named `target_10d_up_5pct`.
   */
  lemma StepPricesLabels()
    ensures var ret := ForwardReturn(StepPrices(), 10);
      Labels(ret, 0.05, true)[0] == Num(1.0) && Labels(ret, 0.05, true)[10] == Num(0.0) &&
      Labels(ret, 0.05, false)[0] == Num(0.0) && Labels(ret, 0.05, false)[10] == Num(1.0)
    ensures TargetName(10, "up", 5) == "target_10d_up_5pct"
    ensures TargetName(10, "down", 5) == "target_10d_down_5pct"
  {
    var p := StepPrices();
    ForwardReturnOfPrices(p, 10, 0, 100.0, 110.0);
    ForwardReturnOfPrices(p, 10, 10, 110.0, 95.0);
    assert IntToString(10) == "10" by {
      assert NatToString(10) == NatToString(1) + [DigitChar(0)];
    }
    assert IntToString(5) == "5";
  }

  // ----------------------------------------------------------------- saving

  /** `(MAX(model_version) or 0) + 1` for the (ticker, model name) pair. */
  function NextVersion(table: Table, ticker: string, name: string): int
  {
    match Latest(table, ticker, name)
    case None => 1
    case Some(m) => (if m == 0 then 0 else m) + 1
  }

  /** The new version is above every stored version of the pair, so its key is new. */
  lemma NextVersionFresh(table: Table, ticker: string, name: string)
    ensures forall v :: (ticker, name, v) in table ==> v < NextVersion(table, ticker, name)
    ensures (ticker, name, NextVersion(table, ticker, name)) !in table
  {
  }

  /** The first model of a pair gets version 1, and stored versions that are positive stay positive. */
  lemma NextVersionFirst(table: Table, ticker: string, name: string)
    ensures (forall v :: (ticker, name, v) !in table) ==> NextVersion(table, ticker, name) == 1
    ensures (forall k :: k in table ==> k.2 >= 1) ==> NextVersion(table, ticker, name) >= 1
  {
  }

  /**
   * `save_model_to_db`: read the greatest version, insert the new row and
   * commit, returning the new version; a failed database step (`dbOk` false)
   * returns -1 and leaves the table as it was.
   */
  method SaveModel(store: ModelStore, ticker: string, name: string, rec: ModelRecord, dbOk: bool) returns (v: int)
    modifies store
    ensures dbOk ==> v == NextVersion(old(store.rows), ticker, name) && store.rows == old(store.rows)[(ticker, name, v) := rec]
    ensures !dbOk ==> v == -1 && store.rows == old(store.rows)
  {
    if !dbOk {
      return -1;
    }
    v := NextVersion(store.rows, ticker, name);
    NextVersionFresh(store.rows, ticker, name);
    store.Insert((ticker, name, v), rec);
  }

  /** A save appends: every row stored before is still there, unchanged. */
  lemma SaveKeepsRows(table: Table, ticker: string, name: string, rec: ModelRecord)
    ensures var t := table[(ticker, name, NextVersion(table, ticker, name)) := rec];
      forall k :: k in table ==> k in t && t[k] == table[k]
  {
    NextVersionFresh(table, ticker, name);
  }

  /** After a save the new model is the latest one, so loading without a version returns it. */
  lemma SaveThenSelectLatest(table: Table, ticker: string, name: string, rec: ModelRecord, version: Option<int>)
    requires version.None? || version == Some(0)
    ensures var v := NextVersion(table, ticker, name);
      Latest(table[(ticker, name, v) := rec], ticker, name) == Some(v) &&
      Select(table[(ticker, name, v) := rec], ticker, name, version) == Some((v, rec))
  {
    var v := NextVersion(table, ticker, name);
    var t := table[(ticker, name, v) := rec];
    NextVersionFresh(table, ticker, name);
    assert (ticker, name, v) in t;
    assert forall w :: (ticker, name, w) in t ==> w <= v;
  }

  /** Versions strictly increase: two saves in a row give two consecutive distinct versions. */
  lemma SavesIncrease(table: Table, ticker: string, name: string, r1: ModelRecord)
    ensures var v1 := NextVersion(table, ticker, name);
      NextVersion(table[(ticker, name, v1) := r1], ticker, name) > v1
  {
    var v1 := NextVersion(table, ticker, name);
    var t := table[(ticker, name, v1) := r1];
    NextVersionFresh(t, ticker, name);
    assert (ticker, name, v1) in t;
  }

  // ------------------------------------------------------- window and split

  /** `rows.loc[start:]` for a start day: the rows dated on or after it. */
  function RowsFrom(rows: seq<Row>, start: int): (out: seq<Row>)
    ensures |out| <= |rows|
  {
    Filter(rows, (r: Row) => r.day >= start)
  }

  /** The last date of a non-empty table (`index.max()`). */
  function LatestDay(rows: seq<Row>): (d: int)
    requires rows != []
    ensures exists i :: 0 <= i < |rows| && rows[i].day == d
    ensures forall i :: 0 <= i < |rows| ==> rows[i].day <= d
  {
    if |rows| == 1 then rows[0].day
    else
      var m := LatestDay(rows[1..]);
      assert forall i :: 1 <= i < |rows| ==> rows[i] == rows[1..][i - 1];
      if rows[0].day > m then rows[0].day else m
  }

  /** The training window of `main`: the rows dated at least `years` years before the latest date. */
  function TrainingWindow(rows: seq<Row>, years: int): seq<Row>
  {
    if rows == [] then [] else RowsFrom(rows, MinusYears(LatestDay(rows), years))
  }

  /** A row is in the window exactly when it is dated on or after the cut-off; with a non-negative period the latest row is kept. */
  lemma TrainingWindowMember(rows: seq<Row>, years: int, r: Row)
    requires rows != []
    ensures r in TrainingWindow(rows, years) <==> r in rows && r.day >= MinusYears(LatestDay(rows), years)
    ensures years >= 0 ==> TrainingWindow(rows, years) != []
  {
    var start := MinusYears(LatestDay(rows), years);
    FilterMember(rows, (x: Row) => x.day >= start, r);
    if years >= 0 {
      MinusYearsNotLater(LatestDay(rows), years);
      var i :| 0 <= i < |rows| && rows[i].day == LatestDay(rows);
      FilterMember(rows, (x: Row) => x.day >= start, rows[i]);
    }
  }

  /** Python `int(x)`: truncation toward zero. */
  function Truncate(x: real): int
  {
    if x >= 0.0 then x.Floor else -((-x).Floor)
  }

  /** Where `iloc[:k]` ends on `n` rows: a negative `k` counts from the end. */
  function SliceEnd(k: int, n: nat): (e: nat)
    ensures e <= n
  {
    if k < 0 then (if n + k < 0 then 0 else n + k) else if k > n then n else k
  }

  /** `train_size = int(len(X) * (1 - test_size))`. */
  function TrainSize(n: nat, testSize: real): int
  {
    Truncate(n as real * (1.0 - testSize))
  }

  /** `X.iloc[:train_size]` and `X.iloc[train_size:]`. */
  function ChronologicalSplit<T>(rows: seq<T>, testSize: real): (r: (seq<T>, seq<T>))
  {
    var e := SliceEnd(TrainSize(|rows|, testSize), |rows|);
    (rows[..e], rows[e..])
  }

  /**
   * The two parts are the whole window in order; for a test fraction in
   * [0, 1] the training part has `floor(n * (1 - test_size))` rows.
   */
  lemma ChronologicalSplitFacts<T>(rows: seq<T>, testSize: real)
    ensures var (train, test) := ChronologicalSplit(rows, testSize);
      train + test == rows &&
      (0.0 <= testSize <= 1.0 ==> |train| == (|rows| as real * (1.0 - testSize)).Floor)
  {
    var (train, test) := ChronologicalSplit(rows, testSize);
    assert train + test == rows;
    if 0.0 <= testSize <= 1.0 {
      var x := |rows| as real * (1.0 - testSize);
      ProductBounds(|rows| as real, 1.0 - testSize);
      assert x.Floor <= |rows|;
    }
  }

  lemma ProductBounds(a: real, b: real)
    requires a >= 0.0 && 0.0 <= b <= 1.0
    ensures 0.0 <= a * b <= a
  {
    assert a * b <= a * 1.0;
  }

  /** On dated rows in increasing order, every training row is earlier than every test row. */
  lemma ChronologicalSplitOrdered(rows: seq<Row>, testSize: real)
    requires forall i, j :: 0 <= i < j < |rows| ==> rows[i].day < rows[j].day
    ensures var (train, test) := ChronologicalSplit(rows, testSize);
      forall i, j :: 0 <= i < |train| && 0 <= j < |test| ==> train[i].day < test[j].day
  {
    var e := SliceEnd(TrainSize(|rows|, testSize), |rows|);
    var (train, test) := ChronologicalSplit(rows, testSize);
    forall i, j | 0 <= i < |train| && 0 <= j < |test|
      ensures train[i].day < test[j].day
    {
      assert train[i] == rows[i] && test[j] == rows[e + j];
    }
  }

  // ------------------------------------------------------------ class weight

  /** Number of training labels equal to `v` (`value_counts().get(v, 0)`). */
  function CountLabel(y: seq<Cell>, v: real): (n: nat)
    ensures n <= |y|
  {
    if y == [] then 0 else (if y[0] == Num(v) then 1 else 0) + CountLabel(y[1..], v)
  }

  /** `neg_count / pos_count if pos_count > 0 else 1`. */
  function ScalePosWeight(y: seq<Cell>): (w: real)
    ensures CountLabel(y, 1.0) > 0 ==> w * CountLabel(y, 1.0) as real == CountLabel(y, 0.0) as real
    ensures CountLabel(y, 1.0) == 0 ==> w == 1.0
    ensures w >= 0.0
  {
    var pos := CountLabel(y, 1.0);
    if pos > 0 then CountLabel(y, 0.0) as real / pos as real else 1.0
  }

  /** On 0/1 labels the two counts add up to the number of labels. */
  lemma {:induction false} CountsCover(y: seq<Cell>)
    requires forall i :: 0 <= i < |y| ==> y[i] == Num(0.0) || y[i] == Num(1.0)
    ensures CountLabel(y, 0.0) + CountLabel(y, 1.0) == |y|
  {
    if y != [] {
      CountsCover(y[1..]);
    }
  }
}
