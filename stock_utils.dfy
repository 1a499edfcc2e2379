/**
 * `create_features` of script/stock_utils.py: the target ticker's prices are
 * put on the adjusted-close scale, auxiliary tickers and a macro panel are
 * left-joined onto the target's dates, gaps are forward-filled, lag returns,
 * moving averages, volume change and calendar parts are added, the joined
 * auxiliary columns are dropped, infinities become missing and every row
 * with a missing cell is removed.
 */
module StockUtils {
  import opened Wrappers
  import opened Text
  import opened Calendar
  import opened Cells
  import opened Frames

  /** What `create_features` raises: a missing column, or a rejected window. */
  datatype FeatureError = KeyError(column: string) | ValueError(message: string)

  /** The price columns `load_all_data` selects for every ticker. */
  const LoadedColumns: set<string> := {"open_price", "high_price", "low_price", "adj_close_price", "volume"}

  /** The rename applied to the target (when it is not adjusted) and to every auxiliary frame. */
  const OhlcvRenames: seq<(string, string)> :=
    [("open_price", "open"), ("high_price", "high"), ("low_price", "low"),
     ("adj_close_price", "close"), ("volume", "volume")]

  const VixTicker: string := "^VIX"

  /** `rename(columns = {...})` with the mapping above, one label at a time. */
  function RenameOhlcv(f: Frame): Frame
  {
    var h1 := RenameColumn(f, "open_price", "open");
    var h2 := RenameColumn(h1, "high_price", "high");
    var h3 := RenameColumn(h2, "low_price", "low");
    var h4 := RenameColumn(h3, "adj_close_price", "close");
    RenameColumn(h4, "volume", "volume")
  }

  // ---------------------------------------------------------- normalisation

  /** No cell of `close_price` equals zero (a missing cell is not equal to zero). */
  predicate NoZeroClose(f: Frame)
  {
    forall i :: 0 <= i < |f.rows| ==> CellOf(f.rows[i], "close_price") != Num(0.0)
  }

  /** The condition under which prices are rescaled to the adjusted close. */
  predicate CanAdjust(f: Frame)
  {
    "adj_close_price" in f.columns && "close_price" in f.columns && NoZeroClose(f)
  }

  /** `raw * (adj_close_price / close_price)` for one raw price column. */
  function Scaled(f: Frame, raw: string): (col: seq<Cell>)
    ensures |col| == |f.rows|
  {
    MulColumns(Column(f, raw), DivColumns(Column(f, "adj_close_price"), Column(f, "close_price")))
  }

  /**
   * The first step of `create_features`: with both closes present and no zero
   * close, `open`, `high` and `low` are the raw prices times the adjustment
   * ratio, `close` is the adjusted close and `volume` is reassigned unchanged,
   * each missing raw column raising `KeyError` in that order; otherwise the
   * columns are renamed.
   */
  function Normalise(f: Frame): Result<Frame, FeatureError>
  {
    if !CanAdjust(f) then Ok(RenameOhlcv(f))
    else if "open_price" !in f.columns then Err(KeyError("open_price"))
    else if "high_price" !in f.columns then Err(KeyError("high_price"))
    else if "low_price" !in f.columns then Err(KeyError("low_price"))
    else if "volume" !in f.columns then Err(KeyError("volume"))
    else
      var f1 := SetColumn(f, "open", Scaled(f, "open_price"));
      var f2 := SetColumn(f1, "high", Scaled(f, "high_price"));
      var f3 := SetColumn(f2, "low", Scaled(f, "low_price"));
      var f4 := SetColumn(f3, "close", Column(f, "adj_close_price"));
      Ok(SetColumn(f4, "volume", Column(f, "volume")))
  }

  // ------------------------------------------------------------------ names

  /** `ticker.replace('^', '')`. */
  function SafeName(ticker: string): (s: string)
    ensures '^' !in s
    ensures '^' !in ticker ==> s == ticker
  {
    RemoveChar(ticker, '^')
  }

  /** The label `<prefix><n>d` of a lag-return column. */
  function ReturnName(prefix: string, n: int): string
  {
    prefix + IntToString(n) + "d"
  }

  function AuxReturnPrefix(ticker: string): string
  {
    Lower(SafeName(ticker)) + "_return_"
  }

  function AuxClose(ticker: string): string
  {
    SafeName(ticker) + "_close"
  }

  function SmaName(p: int): string
  {
    "SMA_" + IntToString(p)
  }

  function SmaDiffName(p: int): string
  {
    "SMA_diff_ratio_" + IntToString(p)
  }

  // -------------------------------------------------------- per-column steps

  /** `df[prefix + str(n) + 'd'] = df[src].pct_change(periods = n)`. */
  function AddReturn(g: Frame, src: string, prefix: string, n: int): Result<Frame, FeatureError>
  {
    if src !in g.columns then Err(KeyError(src))
    else Ok(SetColumn(g, ReturnName(prefix, n), PctChange(Column(g, src), n)))
  }

  function ReturnStep(src: string, prefix: string): (Frame, int) -> Result<Frame, FeatureError>
  {
    (g, n) => AddReturn(g, src, prefix, n)
  }

  /**
   * `SMA_p = close.rolling(window = p).mean()` and
   * `SMA_diff_ratio_p = (close - SMA_p) / SMA_p`; a negative window is rejected.
   */
  function AddAverage(g: Frame, p: int): Result<Frame, FeatureError>
  {
    if "close" !in g.columns then Err(KeyError("close"))
    else if p < 0 then Err(ValueError("window must be an integer 0 or greater"))
    else
      var close := Column(g, "close");
      var sma := RollingMean(close, p);
      var g1 := SetColumn(g, SmaName(p), sma);
      Ok(SetColumn(g1, SmaDiffName(p), DivColumns(SubColumns(close, sma), sma)))
  }

  function AverageStep(): (Frame, int) -> Result<Frame, FeatureError>
  {
    (g, p) => AddAverage(g, p)
  }

  /** A calendar part of each row's date, as a number column. */
  function CalendarColumn(g: Frame, part: int -> int): (col: seq<Cell>)
    ensures |col| == |g.rows|
    ensures forall i :: 0 <= i < |g.rows| ==> col[i] == Num(part(g.rows[i].day) as real)
  {
    seq(|g.rows|, i requires 0 <= i < |g.rows| => Num(part(g.rows[i].day) as real))
  }

  /** `volume_change = volume.pct_change()`, then `day_of_week`, `month` and `year`. */
  function AddVolumeAndCalendar(g: Frame): Result<Frame, FeatureError>
  {
    if "volume" !in g.columns then Err(KeyError("volume"))
    else
      var g1 := SetColumn(g, "volume_change", PctChange(Column(g, "volume"), 1));
      var g2 := SetColumn(g1, "day_of_week", CalendarColumn(g1, Weekday));
      var g3 := SetColumn(g2, "month", CalendarColumn(g2, Month));
      Ok(SetColumn(g3, "year", CalendarColumn(g3, Year)))
  }

  // ------------------------------------------------------ auxiliary tickers

  /** The growing feature table and the labels collected for dropping. */
  datatype Acc = Acc(frame: Frame, drop: set<string>)

  /** An auxiliary frame renamed to `open/high/low/close/volume` and prefixed with its safe name. */
  function PreparedAux(ticker: string, ext: Frame): Frame
  {
    AddPrefix(RenameOhlcv(ext), SafeName(ticker) + "_")
  }

  /**
   * One auxiliary ticker: join its prepared columns, then add `vix_price`
   * for exactly `^VIX`, or one lag return of its close per lag otherwise;
   * its prepared labels join the drop list.
   */
  function AuxApply(lags: seq<int>, acc: Acc, x: (string, Frame)): Result<Acc, FeatureError>
  {
    var ticker := x.0;
    var renamed := PreparedAux(ticker, x.1);
    var joined := LeftJoin(acc.frame, renamed);
    var closeCol := AuxClose(ticker);
    var drop := acc.drop + renamed.columns;
    if ticker == VixTicker then
      if closeCol in joined.columns then Ok(Acc(SetColumn(joined, "vix_price", Column(joined, closeCol)), drop))
      else Err(KeyError(closeCol))
    else
      match Fold(joined, lags, ReturnStep(closeCol, AuxReturnPrefix(ticker)))
      case Err(e) => Err(e)
      case Ok(g) => Ok(Acc(g, drop))
  }

  function AuxStep(lags: seq<int>): (Acc, (string, Frame)) -> Result<Acc, FeatureError>
  {
    (acc, x) => AuxApply(lags, acc, x)
  }

  // --------------------------------------------------------------- pipeline

  /** Drop the auxiliary labels, rename `close` back, blank infinities, drop incomplete rows. */
  function Finish(g: Frame, drop: set<string>): Frame
  {
    DropNa(ReplaceInf(RenameColumn(DropColumns(g, drop), "close", "adj_close_price")))
  }

  /** The target's own features: lag returns of `close`, moving averages, volume change and calendar parts. */
  function Derive(g1: Frame, lags: seq<int>, mas: seq<int>): Result<Frame, FeatureError>
  {
    match Fold(g1, lags, ReturnStep("close", "return_"))
    case Err(e) => Err(e)
    case Ok(g2) =>
      match Fold(g2, mas, AverageStep())
      case Err(e) => Err(e)
      case Ok(g3) => AddVolumeAndCalendar(g3)
  }

  /** The feature table before its final clean-up, with the drop list. */
  function Stages(main: Frame, aux: seq<(string, Frame)>, macro: Frame, lags: seq<int>, mas: seq<int>): Result<Acc, FeatureError>
  {
    match Normalise(main)
    case Err(e) => Err(e)
    case Ok(g0) =>
      match Fold(Acc(g0, {}), aux, AuxStep(lags))
      case Err(e) => Err(e)
      case Ok(acc) =>
        var g1 := FFillFrame(LeftJoin(acc.frame, macro));
        match Derive(g1, lags, mas)
        case Err(e) => Err(e)
        case Ok(g4) => Ok(Acc(g4, acc.drop))
  }

  /** `create_features(main, aux, macro)` with the configured lags and moving-average periods. */
  function Features(main: Frame, aux: seq<(string, Frame)>, macro: Frame, lags: seq<int>, mas: seq<int>): Result<Frame, FeatureError>
  {
    match Stages(main, aux, macro, lags, mas)
    case Err(e) => Err(e)
    case Ok(acc) => Ok(Finish(acc.frame, acc.drop))
  }

  // ================================================================ proofs

  // ---------------------------------------------------------------- renames

  /** The label a loaded price column gets from the rename. */
  function OhlcvName(c: string): string
  {
    if c == "open_price" then "open"
    else if c == "high_price" then "high"
    else if c == "low_price" then "low"
    else if c == "adj_close_price" then "close"
    else c
  }

  /** The mapping applied as a list of single renames is the rename above. */
  lemma RenameOhlcvUnfold(f: Frame)
    ensures RenameColumns(f, OhlcvRenames) == RenameOhlcv(f)
  {
    var r := OhlcvRenames;
    assert r[1..][1..][1..][1..][1..] == [];
  }

  /** Renaming twice is renaming once, so a frame renamed in place may be renamed again. */
  lemma RenameOhlcvTwice(f: Frame)
    ensures RenameOhlcv(RenameOhlcv(f)) == RenameOhlcv(f)
  {
    var g := RenameOhlcv(f);
    assert "open_price" !in g.columns && "high_price" !in g.columns;
    assert "low_price" !in g.columns && "adj_close_price" !in g.columns;
    RenameSelf(g, "volume");
  }

  /** The labels after the rename, one by one. */
  lemma RenameOhlcvLabels(f: Frame)
    ensures var g := RenameOhlcv(f);
      ("open" in g.columns <==> "open" in f.columns || "open_price" in f.columns) &&
      ("high" in g.columns <==> "high" in f.columns || "high_price" in f.columns) &&
      ("low" in g.columns <==> "low" in f.columns || "low_price" in f.columns) &&
      ("close" in g.columns <==> "close" in f.columns || "adj_close_price" in f.columns) &&
      ("volume" in g.columns <==> "volume" in f.columns) &&
      "open_price" !in g.columns && "high_price" !in g.columns &&
      "low_price" !in g.columns && "adj_close_price" !in g.columns &&
      forall x :: x in g.columns && x !in {"open", "high", "low", "close", "volume"} ==> x in f.columns
  {
    var h1 := RenameColumn(f, "open_price", "open");
    var h2 := RenameColumn(h1, "high_price", "high");
    var h3 := RenameColumn(h2, "low_price", "low");
    var h4 := RenameColumn(h3, "adj_close_price", "close");
    RenameSelf(h4, "volume");
    assert h4.columns == OhlcvLabels(f.columns);
    OhlcvLabelsFacts(f.columns);
  }

  /** One rename on a set of labels. */
  function RenamedLabel(cols: set<string>, from: string, to: string): set<string>
  {
    if from in cols then cols - {from} + {to} else cols
  }

  /** The labels of a frame after the four renames that change a label. */
  function OhlcvLabels(cols: set<string>): set<string>
  {
    RenamedLabel(RenamedLabel(RenamedLabel(RenamedLabel(cols,
      "open_price", "open"), "high_price", "high"), "low_price", "low"), "adj_close_price", "close")
  }

  /** A label is present after a rename when it is the new label of a present one, or another present label. */
  lemma RenamedLabelIn(cols: set<string>, from: string, to: string, x: string)
    ensures x in RenamedLabel(cols, from, to) <==> (from in cols && x == to) || (x != from && x in cols)
  {
  }

  lemma OhlcvLabelsFacts(cols: set<string>)
    ensures var g := OhlcvLabels(cols);
      ("open" in g <==> "open" in cols || "open_price" in cols) &&
      ("high" in g <==> "high" in cols || "high_price" in cols) &&
      ("low" in g <==> "low" in cols || "low_price" in cols) &&
      ("close" in g <==> "close" in cols || "adj_close_price" in cols) &&
      ("volume" in g <==> "volume" in cols) &&
      "open_price" !in g && "high_price" !in g &&
      "low_price" !in g && "adj_close_price" !in g &&
      forall x :: x in g && x !in {"open", "high", "low", "close", "volume"} ==> x in cols
  {
    var c1 := RenamedLabel(cols, "open_price", "open");
    var c2 := RenamedLabel(c1, "high_price", "high");
    var c3 := RenamedLabel(c2, "low_price", "low");
    forall x ensures x in OhlcvLabels(cols) <==>
      ((x in cols && x !in {"open_price", "high_price", "low_price", "adj_close_price"})
       || (x == "open" && "open_price" in cols) || (x == "high" && "high_price" in cols)
       || (x == "low" && "low_price" in cols) || (x == "close" && "adj_close_price" in cols))
    {
      RenamedLabelIn(cols, "open_price", "open", x);
      RenamedLabelIn(c1, "high_price", "high", x);
      RenamedLabelIn(c2, "low_price", "low", x);
      RenamedLabelIn(c3, "adj_close_price", "close", x);
    }
  }

  /** Label sets related as the rename relates them, for loaded columns. */
  lemma RenamedLabelSet(from: set<string>, to: set<string>)
    requires from <= LoadedColumns
    requires "open" in to <==> "open_price" in from
    requires "high" in to <==> "high_price" in from
    requires "low" in to <==> "low_price" in from
    requires "close" in to <==> "adj_close_price" in from
    requires "volume" in to <==> "volume" in from
    requires forall x :: x in to ==> x in {"open", "high", "low", "close", "volume"} || x in from
    requires "open_price" !in to && "high_price" !in to && "low_price" !in to && "adj_close_price" !in to
    ensures to == set c | c in from :: OhlcvName(c)
  {
    var target := set c | c in from :: OhlcvName(c);
    forall x | x in to
      ensures x in target
    {
      var c := if x == "open" then "open_price" else if x == "high" then "high_price"
        else if x == "low" then "low_price" else if x == "close" then "adj_close_price" else x;
      assert c in from && OhlcvName(c) == x;
    }
    forall x | x in target
      ensures x in to
    {
      var c :| c in from && OhlcvName(c) == x;
    }
  }

  /** The labels after the rename, for a frame of loaded columns. */
  lemma RenameOhlcvColumns(f: Frame)
    requires f.columns <= LoadedColumns
    ensures RenameOhlcv(f).columns == set c | c in f.columns :: OhlcvName(c)
  {
    RenameOhlcvLabels(f);
    RenamedLabelSet(f.columns, RenameOhlcv(f).columns);
  }

  /** The rename keeps a frame rectangular and keeps its dates. */
  lemma RenameOhlcvValid(f: Frame)
    requires Valid(f)
    ensures Valid(RenameOhlcv(f)) && Days(RenameOhlcv(f)) == Days(f)
  {
    RenameOhlcvUnfold(f);
    RenameColumnsValid(f, OhlcvRenames);
  }

  /** Where each loaded column's cells go under the rename. */
  lemma RenameOhlcvCells(f: Frame, c: string)
    requires Valid(f) && f.columns <= LoadedColumns && c in f.columns
    ensures Column(RenameOhlcv(f), OhlcvName(c)) == Column(f, c)
  {
    if c == "open_price" {
      RenameOhlcvOpen(f);
    } else if c == "high_price" {
      RenameOhlcvHigh(f);
    } else if c == "low_price" {
      RenameOhlcvLow(f);
    } else if c == "adj_close_price" {
      RenameOhlcvClose(f);
    } else {
      assert c == "volume";
      RenameOhlcvVolume(f);
    }
  }

  lemma RenameOhlcvOpen(f: Frame)
    requires Valid(f) && "open_price" in f.columns
    ensures Column(RenameOhlcv(f), "open") == Column(f, "open_price")
  {
    var h1 := RenameColumn(f, "open_price", "open");
    var h2 := RenameColumn(h1, "high_price", "high");
    var h3 := RenameColumn(h2, "low_price", "low");
    var h4 := RenameColumn(h3, "adj_close_price", "close");
    RenameSelf(h4, "volume");
    RenameColumnMoved(f, "open_price", "open");
    RenameColumnOther(h1, "high_price", "high", "open");
    RenameColumnOther(h2, "low_price", "low", "open");
    RenameColumnOther(h3, "adj_close_price", "close", "open");
  }

  lemma RenameOhlcvHigh(f: Frame)
    requires Valid(f) && "high_price" in f.columns
    ensures Column(RenameOhlcv(f), "high") == Column(f, "high_price")
  {
    var h1 := RenameColumn(f, "open_price", "open");
    var h2 := RenameColumn(h1, "high_price", "high");
    var h3 := RenameColumn(h2, "low_price", "low");
    var h4 := RenameColumn(h3, "adj_close_price", "close");
    RenameSelf(h4, "volume");
    RenameColumnValid(f, "open_price", "open");
    RenameColumnOther(f, "open_price", "open", "high_price");
    RenameColumnMoved(h1, "high_price", "high");
    RenameColumnOther(h2, "low_price", "low", "high");
    RenameColumnOther(h3, "adj_close_price", "close", "high");
  }

  lemma RenameOhlcvLow(f: Frame)
    requires Valid(f) && "low_price" in f.columns
    ensures Column(RenameOhlcv(f), "low") == Column(f, "low_price")
  {
    var h1 := RenameColumn(f, "open_price", "open");
    var h2 := RenameColumn(h1, "high_price", "high");
    var h3 := RenameColumn(h2, "low_price", "low");
    var h4 := RenameColumn(h3, "adj_close_price", "close");
    RenameSelf(h4, "volume");
    RenameColumnValid(f, "open_price", "open");
    RenameColumnValid(h1, "high_price", "high");
    RenameColumnOther(f, "open_price", "open", "low_price");
    RenameColumnOther(h1, "high_price", "high", "low_price");
    RenameColumnMoved(h2, "low_price", "low");
    RenameColumnOther(h3, "adj_close_price", "close", "low");
  }

  lemma RenameOhlcvClose(f: Frame)
    requires Valid(f) && "adj_close_price" in f.columns
    ensures Column(RenameOhlcv(f), "close") == Column(f, "adj_close_price")
  {
    var h1 := RenameColumn(f, "open_price", "open");
    var h2 := RenameColumn(h1, "high_price", "high");
    var h3 := RenameColumn(h2, "low_price", "low");
    var h4 := RenameColumn(h3, "adj_close_price", "close");
    RenameSelf(h4, "volume");
    RenameColumnValid(f, "open_price", "open");
    RenameColumnValid(h1, "high_price", "high");
    RenameColumnValid(h2, "low_price", "low");
    RenameColumnOther(f, "open_price", "open", "adj_close_price");
    RenameColumnOther(h1, "high_price", "high", "adj_close_price");
    RenameColumnOther(h2, "low_price", "low", "adj_close_price");
    RenameColumnMoved(h3, "adj_close_price", "close");
  }

  lemma RenameOhlcvVolume(f: Frame)
    ensures Column(RenameOhlcv(f), "volume") == Column(f, "volume")
  {
    var h1 := RenameColumn(f, "open_price", "open");
    var h2 := RenameColumn(h1, "high_price", "high");
    var h3 := RenameColumn(h2, "low_price", "low");
    var h4 := RenameColumn(h3, "adj_close_price", "close");
    RenameSelf(h4, "volume");
    RenameColumnOther(f, "open_price", "open", "volume");
    RenameColumnOther(h1, "high_price", "high", "volume");
    RenameColumnOther(h2, "low_price", "low", "volume");
    RenameColumnOther(h3, "adj_close_price", "close", "volume");
  }

  /**
   * On the columns `load_all_data` selects, the rename gives each loaded
   * column its short label and keeps its cells and the dates.
   */
  lemma RenameOhlcvLoaded(f: Frame)
    requires Valid(f) && f.columns <= LoadedColumns
    ensures var g := RenameOhlcv(f);
      Valid(g) && Days(g) == Days(f) &&
      g.columns == (set c | c in f.columns :: OhlcvName(c)) &&
      forall c :: c in f.columns ==> Column(g, OhlcvName(c)) == Column(f, c)
  {
    RenameOhlcvValid(f);
    RenameOhlcvColumns(f);
    forall c | c in f.columns
      ensures Column(RenameOhlcv(f), OhlcvName(c)) == Column(f, c)
    {
      RenameOhlcvCells(f, c);
    }
  }

  // ---------------------------------------------------------- normalisation

  /** The adjustment fails exactly when it must read a raw column the frame lacks. */
  lemma NormaliseErrors(f: Frame)
    ensures Normalise(f).Err? <==>
      CanAdjust(f) && !({"open_price", "high_price", "low_price", "volume"} <= f.columns)
    ensures Normalise(f).Err? ==>
      Normalise(f).error.KeyError? &&
      Normalise(f).error.column in {"open_price", "high_price", "low_price", "volume"} &&
      Normalise(f).error.column !in f.columns
  {
  }

  /** The adjusted frame: same dates, the short labels added, every other column kept. */
  lemma NormaliseAdjustedShape(f: Frame)
    requires Valid(f) && CanAdjust(f) && {"open_price", "high_price", "low_price", "volume"} <= f.columns
    ensures Normalise(f).Ok?
    ensures var g := Normalise(f).value;
      Valid(g) && Days(g) == Days(f) && g.columns == f.columns + {"open", "high", "low", "close"} &&
      Column(g, "close") == Column(f, "adj_close_price") && Column(g, "volume") == Column(f, "volume") &&
      forall c :: c !in {"open", "high", "low", "close"} ==> Column(g, c) == Column(f, c)
  {
    var f1 := SetColumn(f, "open", Scaled(f, "open_price"));
    var f2 := SetColumn(f1, "high", Scaled(f, "high_price"));
    var f3 := SetColumn(f2, "low", Scaled(f, "low_price"));
    var f4 := SetColumn(f3, "close", Column(f, "adj_close_price"));
    var g := SetColumn(f4, "volume", Column(f, "volume"));
    assert Normalise(f) == Ok(g);
    SetColumnFacts(f, "open", Scaled(f, "open_price"));
    SetColumnFacts(f1, "high", Scaled(f, "high_price"));
    SetColumnFacts(f2, "low", Scaled(f, "low_price"));
    SetColumnFacts(f3, "close", Column(f, "adj_close_price"));
    SetColumnFacts(f4, "volume", Column(f, "volume"));
    assert Valid(g) && Days(g) == Days(f);
    assert g.columns == f.columns + {"open", "high", "low", "close"};
    assert Column(g, "close") == Column(f4, "close") == Column(f, "adj_close_price");
    forall c | c !in {"open", "high", "low", "close"} ensures Column(g, c) == Column(f, c) {
      if c != "volume" {
        assert Column(g, c) == Column(f4, c) == Column(f3, c) == Column(f2, c) == Column(f1, c) == Column(f, c);
      }
    }
  }

  /** The three rescaled columns of the adjusted frame. */
  lemma NormaliseAdjustedColumns(f: Frame)
    requires CanAdjust(f) && {"open_price", "high_price", "low_price", "volume"} <= f.columns
    ensures Normalise(f).Ok?
    ensures var g := Normalise(f).value;
      Column(g, "open") == Scaled(f, "open_price") &&
      Column(g, "high") == Scaled(f, "high_price") &&
      Column(g, "low") == Scaled(f, "low_price")
  {
    var f1 := SetColumn(f, "open", Scaled(f, "open_price"));
    var f2 := SetColumn(f1, "high", Scaled(f, "high_price"));
    var f3 := SetColumn(f2, "low", Scaled(f, "low_price"));
    var f4 := SetColumn(f3, "close", Column(f, "adj_close_price"));
    var g := SetColumn(f4, "volume", Column(f, "volume"));
    assert Normalise(f) == Ok(g);
    SetColumnFacts(f, "open", Scaled(f, "open_price"));
    SetColumnFacts(f1, "high", Scaled(f, "high_price"));
    SetColumnFacts(f2, "low", Scaled(f, "low_price"));
    SetColumnFacts(f3, "close", Column(f, "adj_close_price"));
    SetColumnFacts(f4, "volume", Column(f, "volume"));
    assert Column(g, "open") == Column(f4, "open") == Column(f3, "open") == Column(f2, "open") == Column(f1, "open");
    assert Column(g, "high") == Column(f4, "high") == Column(f3, "high") == Column(f2, "high");
    assert Column(g, "low") == Column(f4, "low") == Column(f3, "low");
  }

  /** The adjusted frame's prices: each raw price times `adj_close_price / close_price`. */
  lemma NormaliseAdjustedPrices(f: Frame, i: int)
    requires CanAdjust(f) && {"open_price", "high_price", "low_price", "volume"} <= f.columns
    requires 0 <= i < |f.rows|
    ensures Normalise(f).Ok?
    ensures var g := Normalise(f).value;
      var r := f.rows[i];
      var ratio := Div(CellOf(r, "adj_close_price"), CellOf(r, "close_price"));
      Column(g, "open")[i] == Mul(CellOf(r, "open_price"), ratio) &&
      Column(g, "high")[i] == Mul(CellOf(r, "high_price"), ratio) &&
      Column(g, "low")[i] == Mul(CellOf(r, "low_price"), ratio)
  {
    NormaliseAdjustedColumns(f);
    ScaledAt(f, "open_price", i);
    ScaledAt(f, "high_price", i);
    ScaledAt(f, "low_price", i);
  }

  /** One cell of a rescaled column. */
  lemma ScaledAt(f: Frame, raw: string, i: int)
    requires 0 <= i < |f.rows|
    ensures var r := f.rows[i];
      Scaled(f, raw)[i] == Mul(CellOf(r, raw), Div(CellOf(r, "adj_close_price"), CellOf(r, "close_price")))
  {
  }

  /**
   * The frames `load_all_data` returns have no `close_price`, so nothing is
   * scaled: every loaded column gets its short label and keeps its cells.
   */
  lemma NormaliseLoaded(f: Frame)
    requires Valid(f) && f.columns <= LoadedColumns
    ensures Normalise(f).Ok?
    ensures var g := Normalise(f).value;
      Valid(g) && Days(g) == Days(f) &&
      g.columns == (set c | c in f.columns :: OhlcvName(c)) &&
      forall c :: c in f.columns ==> Column(g, OhlcvName(c)) == Column(f, c)
  {
    assert "close_price" !in LoadedColumns;
    assert !CanAdjust(f);
    RenameOhlcvLoaded(f);
  }

  // ------------------------------------------------------------------ names

  /** Different lags get different return labels. */
  lemma ReturnNameInjective(prefix: string, a: int, b: int)
    requires ReturnName(prefix, a) == ReturnName(prefix, b)
    ensures a == b
  {
    var x := IntToString(a);
    var y := IntToString(b);
    assert |x| == |y|;
    assert x == ReturnName(prefix, a)[|prefix|..|prefix| + |x|];
    assert y == ReturnName(prefix, b)[|prefix|..|prefix| + |y|];
    IntToStringInjective(a, b);
  }

  /** A return label ends in `d`; the close columns it is computed from do not. */
  lemma ReturnNameEnd(prefix: string, n: int)
    ensures var r := ReturnName(prefix, n); |r| > 0 && r[|r| - 1] == 'd'
  {
  }

  /** Different windows get different moving-average labels, and the two kinds never meet. */
  lemma SmaNamesDistinct(p: int, q: int)
    ensures SmaName(p) == SmaName(q) ==> p == q
    ensures SmaDiffName(p) == SmaDiffName(q) ==> p == q
    ensures SmaName(p) != SmaDiffName(q)
    ensures SmaName(p) != "close" && SmaDiffName(p) != "close"
  {
    var x := IntToString(p);
    var y := IntToString(q);
    if SmaName(p) == SmaName(q) {
      assert x == SmaName(p)[4..];
      assert y == SmaName(q)[4..];
      IntToStringInjective(p, q);
    }
    if SmaDiffName(p) == SmaDiffName(q) {
      assert x == SmaDiffName(p)[15..];
      assert y == SmaDiffName(q)[15..];
      IntToStringInjective(p, q);
    }
    assert SmaName(p)[4] == x[0];
    assert SmaDiffName(q)[4] == 'd';
    assert SmaName(p)[0] == 'S' && SmaDiffName(p)[0] == 'S';
  }

  // ------------------------------------------------------------ lag returns

  /** The labels a list of lags adds. */
  function ReturnNames(prefix: string, ns: seq<int>): set<string>
  {
    set n | n in ns :: ReturnName(prefix, n)
  }

  /**
   * `g` is `g0` with one return column per lag: the percentage change of
   * `src` over that many rows, every other column and the dates unchanged.
   */
  ghost predicate ReturnsAdded(g0: Frame, g: Frame, src: string, prefix: string, ns: seq<int>)
  {
    |g.rows| == |g0.rows| && Days(g) == Days(g0) && (Valid(g0) ==> Valid(g)) &&
    g.columns == g0.columns + ReturnNames(prefix, ns) &&
    (forall n :: n in ns ==> Column(g, ReturnName(prefix, n)) == PctChange(Column(g0, src), n)) &&
    (forall c :: c !in ReturnNames(prefix, ns) ==> Column(g, c) == Column(g0, c))
  }

  /** A label whose last character is not `d` is no return label. */
  lemma NotReturnName(src: string, prefix: string, ns: seq<int>)
    requires |src| > 0 && src[|src| - 1] != 'd'
    ensures src !in ReturnNames(prefix, ns)
  {
    forall m | m in ns
      ensures ReturnName(prefix, m) != src
    {
      ReturnNameEnd(prefix, m);
    }
  }

  lemma ReturnNamesSnoc(prefix: string, ns: seq<int>)
    requires ns != []
    ensures ReturnNames(prefix, ns) == ReturnNames(prefix, ns[..|ns| - 1]) + {ReturnName(prefix, ns[|ns| - 1])}
  {
    assert ns == ns[..|ns| - 1] + [ns[|ns| - 1]];
  }

  /** The return columns after one more lag: the new one, and the earlier ones untouched. */
  lemma ReturnColumnsStep(g0: Frame, h: Frame, g: Frame, src: string, prefix: string, ns: seq<int>)
    requires ns != []
    requires forall m :: m in ns[..|ns| - 1] ==> Column(h, ReturnName(prefix, m)) == PctChange(Column(g0, src), m)
    requires Column(g, ReturnName(prefix, ns[|ns| - 1])) == PctChange(Column(g0, src), ns[|ns| - 1])
    requires forall c :: c != ReturnName(prefix, ns[|ns| - 1]) ==> Column(g, c) == Column(h, c)
    ensures forall m :: m in ns ==> Column(g, ReturnName(prefix, m)) == PctChange(Column(g0, src), m)
  {
    var n := ns[|ns| - 1];
    forall m | m in ns
      ensures Column(g, ReturnName(prefix, m)) == PctChange(Column(g0, src), m)
    {
      if ReturnName(prefix, m) == ReturnName(prefix, n) {
        ReturnNameInjective(prefix, m, n);
      } else {
        assert m in ns[..|ns| - 1];
      }
    }
  }

  /** One more lag adds its return column and keeps the others. */
  lemma ReturnStepAdds(g0: Frame, h: Frame, src: string, prefix: string, ns: seq<int>)
    requires ns != [] && ReturnsAdded(g0, h, src, prefix, ns[..|ns| - 1])
    requires src in h.columns && src !in ReturnNames(prefix, ns)
    ensures ReturnsAdded(g0, SetColumn(h, ReturnName(prefix, ns[|ns| - 1]), PctChange(Column(h, src), ns[|ns| - 1])), src, prefix, ns)
  {
    var n := ns[|ns| - 1];
    var name := ReturnName(prefix, n);
    var col := PctChange(Column(h, src), n);
    var g := SetColumn(h, name, col);
    var before := ReturnNames(prefix, ns[..|ns| - 1]);
    SetColumnFacts(h, name, col);
    ReturnNamesSnoc(prefix, ns);
    assert src !in before;
    assert Column(h, src) == Column(g0, src);
    assert Days(g) == Days(h) == Days(g0);
    UnionAssoc(g0.columns, before, {name});
    ReturnColumnsStep(g0, h, g, src, prefix, ns);
    forall c | c !in ReturnNames(prefix, ns)
      ensures Column(g, c) == Column(g0, c)
    {
      assert c != name && c !in before;
    }
    assert |g.rows| == |g0.rows| && (Valid(g0) ==> Valid(g));
    assert ReturnsAdded(g0, g, src, prefix, ns);
  }

  /**
   * The lag loop `for days in lags: df[name] = df[src].pct_change(days)`:
   * it fails with `KeyError(src)` exactly when there is a lag and no `src`.
   */
  lemma {:induction false} ReturnsFold(g0: Frame, src: string, prefix: string, ns: seq<int>)
    requires |src| > 0 && src[|src| - 1] != 'd'
    ensures Fold(g0, ns, ReturnStep(src, prefix)).Ok? <==> (ns == [] || src in g0.columns)
    ensures Fold(g0, ns, ReturnStep(src, prefix)).Err? ==> Fold(g0, ns, ReturnStep(src, prefix)).error == KeyError(src)
    ensures Fold(g0, ns, ReturnStep(src, prefix)).Ok? ==>
      ReturnsAdded(g0, Fold(g0, ns, ReturnStep(src, prefix)).value, src, prefix, ns)
    decreases |ns|
  {
    var step := ReturnStep(src, prefix);
    if ns != [] {
      var ys := ns[..|ns| - 1];
      ReturnsFold(g0, src, prefix, ys);
      var r := Fold(g0, ys, step);
      match r
      case Err(e) =>
      case Ok(h) =>
        NotReturnName(src, prefix, ns);
        NotReturnName(src, prefix, ys);
        if src in h.columns {
          ReturnStepAdds(g0, h, src, prefix, ns);
        }
    }
  }

  // -------------------------------------------------------- moving averages

  /** `(close - sma) / sma`. */
  function DiffRatio(close: seq<Cell>, sma: seq<Cell>): (col: seq<Cell>)
    requires |close| == |sma|
    ensures |col| == |close|
  {
    DivColumns(SubColumns(close, sma), sma)
  }

  /** The labels a list of moving-average windows adds. */
  function SmaNames(ps: seq<int>): set<string>
  {
    (set p | p in ps :: SmaName(p)) + (set p | p in ps :: SmaDiffName(p))
  }

  /**
   * `g` is `g0` with, per window `p`, the rolling mean of `close` over `p`
   * rows and its relative distance from `close`; nothing else changed.
   */
  ghost predicate AveragesAdded(g0: Frame, g: Frame, ps: seq<int>)
  {
    |g.rows| == |g0.rows| && Days(g) == Days(g0) && (Valid(g0) ==> Valid(g)) &&
    g.columns == g0.columns + SmaNames(ps) &&
    (forall p :: p in ps && p >= 0 ==>
      Column(g, SmaName(p)) == RollingMean(Column(g0, "close"), p) &&
      Column(g, SmaDiffName(p)) == DiffRatio(Column(g0, "close"), RollingMean(Column(g0, "close"), p))) &&
    (forall c :: c !in SmaNames(ps) ==> Column(g, c) == Column(g0, c))
  }

  lemma SmaNamesSnoc(ps: seq<int>)
    requires ps != []
    ensures SmaNames(ps) == SmaNames(ps[..|ps| - 1]) + {SmaName(ps[|ps| - 1]), SmaDiffName(ps[|ps| - 1])}
  {
    assert ps == ps[..|ps| - 1] + [ps[|ps| - 1]];
  }

  lemma CloseNotSmaName(ps: seq<int>)
    ensures "close" !in SmaNames(ps)
  {
    forall p | p in ps
      ensures SmaName(p) != "close" && SmaDiffName(p) != "close"
    {
      SmaNamesDistinct(p, p);
    }
  }

  /** The average columns after one more window: the new pair, and the earlier ones untouched. */
  lemma AverageColumnsStep(close: seq<Cell>, h: Frame, g: Frame, ps: seq<int>)
    requires ps != [] && ps[|ps| - 1] >= 0 && |close| == |h.rows|
    requires forall p :: p in ps[..|ps| - 1] && p >= 0 ==>
      Column(h, SmaName(p)) == RollingMean(close, p) &&
      Column(h, SmaDiffName(p)) == DiffRatio(close, RollingMean(close, p))
    requires Column(g, SmaName(ps[|ps| - 1])) == RollingMean(close, ps[|ps| - 1])
    requires Column(g, SmaDiffName(ps[|ps| - 1])) == DiffRatio(close, RollingMean(close, ps[|ps| - 1]))
    requires forall c :: c != SmaName(ps[|ps| - 1]) && c != SmaDiffName(ps[|ps| - 1]) ==> Column(g, c) == Column(h, c)
    ensures forall p :: p in ps && p >= 0 ==>
      Column(g, SmaName(p)) == RollingMean(close, p) &&
      Column(g, SmaDiffName(p)) == DiffRatio(close, RollingMean(close, p))
  {
    var q := ps[|ps| - 1];
    forall p | p in ps && p >= 0
      ensures Column(g, SmaName(p)) == RollingMean(close, p)
      ensures Column(g, SmaDiffName(p)) == DiffRatio(close, RollingMean(close, p))
    {
      SmaNamesDistinct(p, q);
      SmaNamesDistinct(q, p);
      if p != q {
        assert p in ps[..|ps| - 1];
      }
    }
  }

  /** A frame with one more window's pair of columns is `g0` with the averages of every window so far. */
  lemma AveragesAddedStep(g0: Frame, h: Frame, g: Frame, ps: seq<int>)
    requires ps != [] && ps[|ps| - 1] >= 0 && AveragesAdded(g0, h, ps[..|ps| - 1])
    requires |g.rows| == |h.rows| && Days(g) == Days(h) && (Valid(h) ==> Valid(g))
    requires g.columns == h.columns + {SmaName(ps[|ps| - 1]), SmaDiffName(ps[|ps| - 1])}
    requires Column(g, SmaName(ps[|ps| - 1])) == RollingMean(Column(h, "close"), ps[|ps| - 1])
    requires Column(g, SmaDiffName(ps[|ps| - 1])) == DiffRatio(Column(h, "close"), RollingMean(Column(h, "close"), ps[|ps| - 1]))
    requires forall c :: c != SmaName(ps[|ps| - 1]) && c != SmaDiffName(ps[|ps| - 1]) ==> Column(g, c) == Column(h, c)
    ensures AveragesAdded(g0, g, ps)
  {
    SmaNamesSnoc(ps);
    CloseNotSmaName(ps[..|ps| - 1]);
    assert Column(h, "close") == Column(g0, "close");
    AverageColumnsStep(Column(g0, "close"), h, g, ps);
  }

  /** One more window adds its two columns and keeps the others. */
  lemma AverageStepAdds(g0: Frame, h: Frame, ps: seq<int>)
    requires ps != [] && ps[|ps| - 1] >= 0 && AveragesAdded(g0, h, ps[..|ps| - 1])
    requires "close" in h.columns
    ensures AddAverage(h, ps[|ps| - 1]).Ok?
    ensures AveragesAdded(g0, AddAverage(h, ps[|ps| - 1]).value, ps)
  {
    var q := ps[|ps| - 1];
    var close := Column(h, "close");
    var sma := RollingMean(close, q);
    var g1 := SetColumn(h, SmaName(q), sma);
    var g := SetColumn(g1, SmaDiffName(q), DiffRatio(close, sma));
    SetColumnFacts(h, SmaName(q), sma);
    SetColumnFacts(g1, SmaDiffName(q), DiffRatio(close, sma));
    SmaNamesDistinct(q, q);
    assert AddAverage(h, q) == Ok(g);
    AveragesAddedStep(g0, h, g, ps);
  }

  /** One pass of the auxiliary loop: rename the frame in place, prefix it, join it and add its columns. */
  method JoinOne(lags: seq<int>, acc: Acc, ticker: string, df: DataFrame) returns (next: Result<Acc, FeatureError>)
    modifies df
    ensures df.frame == RenameOhlcv(old(df.frame))
    ensures next == AuxApply(lags, acc, (ticker, old(df.frame)))
  {
    df.Rename(OhlcvRenames);
    RenameOhlcvUnfold(old(df.frame));
    var renamed := AddPrefix(df.frame, SafeName(ticker) + "_");
    var joined := LeftJoin(acc.frame, renamed);
    var closeCol := AuxClose(ticker);
    var drop := acc.drop + renamed.columns;
    if ticker == VixTicker {
      if closeCol in joined.columns {
        next := Ok(Acc(SetColumn(joined, "vix_price", Column(joined, closeCol)), drop));
      } else {
        next := Err(KeyError(closeCol));
      }
    } else {
      var g := AddReturns(joined, closeCol, AuxReturnPrefix(ticker), lags);
      if g.Err? {
        next := Err(g.error);
      } else {
        next := Ok(Acc(g.value, drop));
      }
    }
  }

  /**
   * The loop over the moving-average periods: it succeeds exactly when there
   * are no periods, or `close` is present and every period is non-negative;
   * it fails with `KeyError("close")` when `close` is missing and with
   * pandas' window `ValueError` otherwise.
   */
  lemma {:induction false} AveragesFold(g0: Frame, ps: seq<int>)
    ensures Fold(g0, ps, AverageStep()).Ok? <==>
      (ps == [] || ("close" in g0.columns && forall p :: p in ps ==> p >= 0))
    ensures Fold(g0, ps, AverageStep()).Err? ==>
      Fold(g0, ps, AverageStep()).error == (if "close" !in g0.columns then KeyError("close") else ValueError("window must be an integer 0 or greater"))
    ensures Fold(g0, ps, AverageStep()).Ok? ==> AveragesAdded(g0, Fold(g0, ps, AverageStep()).value, ps)
  {
    AveragesFoldShape(g0, ps);
    AveragesFoldAdded(g0, ps);
  }

  /** When the moving-average loop fails or succeeds, with which error, and which labels it leaves. */
  ghost predicate AveragesShape(g0: Frame, ps: seq<int>)
  {
    (Fold(g0, ps, AverageStep()).Ok? <==>
      (ps == [] || ("close" in g0.columns && forall p :: p in ps ==> p >= 0))) &&
    (Fold(g0, ps, AverageStep()).Err? ==>
      Fold(g0, ps, AverageStep()).error == (if "close" !in g0.columns then KeyError("close") else ValueError("window must be an integer 0 or greater"))) &&
    (Fold(g0, ps, AverageStep()).Ok? ==> Fold(g0, ps, AverageStep()).value.columns == g0.columns + SmaNames(ps))
  }

  lemma {:induction false} AveragesFoldShape(g0: Frame, ps: seq<int>)
    ensures AveragesShape(g0, ps)
    decreases |ps|
  {
    if ps != [] {
      AveragesFoldShape(g0, ps[..|ps| - 1]);
      AveragesShapeStep(g0, ps);
    } else {
      assert SmaNames(ps) == {};
      assert Fold(g0, ps, AverageStep()) == Ok(g0);
    }
  }

  /** The shape for all windows but the last gives the shape for all of them. */
  lemma AveragesShapeStep(g0: Frame, ps: seq<int>)
    requires ps != [] && AveragesShape(g0, ps[..|ps| - 1])
    ensures AveragesShape(g0, ps)
  {
    var ys := ps[..|ps| - 1];
    var q := ps[|ps| - 1];
    var r := Fold(g0, ys, AverageStep());
    var out := Fold(g0, ps, AverageStep());
    assert forall p :: p in ps <==> p in ys || p == q;
    if r.Err? {
      assert out == Err(r.error);
      assert ys != [];
    } else {
      var h := r.value;
      assert out == AddAverage(h, q);
      CloseNotSmaName(ys);
      assert h.columns == g0.columns + SmaNames(ys);
      if "close" !in h.columns {
        assert "close" !in g0.columns;
        assert out == Err(KeyError("close"));
      } else if q < 0 {
        assert "close" in g0.columns;
        assert out == Err(ValueError("window must be an integer 0 or greater"));
        assert q in ps;
      } else {
        assert "close" in g0.columns;
        AverageColumns(h, q);
        SmaNamesSnoc(ps);
        UnionAssoc(g0.columns, SmaNames(ys), {SmaName(q), SmaDiffName(q)});
        assert out.value.columns == g0.columns + SmaNames(ps);
        assert forall p :: p in ps ==> p >= 0;
      }
    }
  }

  /** The labels a successful moving average adds. */
  lemma AverageColumns(h: Frame, q: int)
    requires "close" in h.columns && q >= 0
    ensures AddAverage(h, q).Ok? && AddAverage(h, q).value.columns == h.columns + {SmaName(q), SmaDiffName(q)}
  {
  }

  lemma {:induction false} AveragesFoldAdded(g0: Frame, ps: seq<int>)
    ensures Fold(g0, ps, AverageStep()).Ok? ==> AveragesAdded(g0, Fold(g0, ps, AverageStep()).value, ps)
    decreases |ps|
  {
    if ps != [] {
      var ys := ps[..|ps| - 1];
      AveragesFoldAdded(g0, ys);
      AveragesFoldShape(g0, ys);
      var r := Fold(g0, ys, AverageStep());
      if r.Ok? {
        AveragesAddedNext(g0, r.value, ps);
      }
    } else {
      assert Fold(g0, ps, AverageStep()) == Ok(g0);
      assert SmaNames(ps) == {};
    }
  }

  /** One more successful window keeps the added columns as specified. */
  lemma AveragesAddedNext(g0: Frame, h: Frame, ps: seq<int>)
    requires ps != [] && Fold(g0, ps[..|ps| - 1], AverageStep()) == Ok(h)
    requires AveragesAdded(g0, h, ps[..|ps| - 1])
    ensures Fold(g0, ps, AverageStep()) == AddAverage(h, ps[|ps| - 1])
    ensures AddAverage(h, ps[|ps| - 1]).Ok? ==> AveragesAdded(g0, AddAverage(h, ps[|ps| - 1]).value, ps)
  {
    var q := ps[|ps| - 1];
    if "close" in h.columns && q >= 0 {
      AverageStepAdds(g0, h, ps);
    }
  }

  // --------------------------------------------------- volume and calendar

  const CalendarLabels: set<string> := {"volume_change", "day_of_week", "month", "year"}

  /** A calendar column is filled from each row's date, so it only depends on the dates. */
  lemma CalendarColumnDays(f: Frame, g: Frame, part: int -> int)
    requires Days(f) == Days(g)
    ensures CalendarColumn(f, part) == CalendarColumn(g, part)
  {
    assert forall i :: 0 <= i < |f.rows| ==> f.rows[i].day == Days(f)[i];
  }

  /** `g` is `g0` with the volume change and calendar columns added. */
  ghost predicate CalendarAdded(g: Frame, h: Frame)
  {
    |h.rows| == |g.rows| && Days(h) == Days(g) && (Valid(g) ==> Valid(h)) &&
    h.columns == g.columns + CalendarLabels &&
    Column(h, "volume_change") == PctChange(Column(g, "volume"), 1) &&
    Column(h, "day_of_week") == CalendarColumn(g, Weekday) &&
    Column(h, "month") == CalendarColumn(g, Month) &&
    Column(h, "year") == CalendarColumn(g, Year) &&
    (forall c :: c !in CalendarLabels ==> Column(h, c) == Column(g, c))
  }

  lemma CalendarSteps(g: Frame)
    requires "volume" in g.columns
    ensures AddVolumeAndCalendar(g).Ok? && CalendarAdded(g, AddVolumeAndCalendar(g).value)
  {
    CalendarShape(g);
    CalendarCells(g);
  }

  /** The four assignments extend the frame by the calendar labels. */
  lemma CalendarShape(g: Frame)
    requires "volume" in g.columns
    ensures AddVolumeAndCalendar(g).Ok? && Extends(g, AddVolumeAndCalendar(g).value, CalendarLabels)
  {
    var vc := PctChange(Column(g, "volume"), 1);
    var g1 := SetColumn(g, "volume_change", vc);
    var g2 := SetColumn(g1, "day_of_week", CalendarColumn(g1, Weekday));
    var g3 := SetColumn(g2, "month", CalendarColumn(g2, Month));
    var h := SetColumn(g3, "year", CalendarColumn(g3, Year));
    assert AddVolumeAndCalendar(g) == Ok(h);
    var s1: set<string> := {"volume_change"};
    var s2 := s1 + {"day_of_week"};
    var s3 := s2 + {"month"};
    assert {} + {"volume_change"} == s1;
    assert s3 + {"year"} == CalendarLabels;
    ExtendsNothing(g);
    ExtendsSet(g, g, {}, "volume_change", vc);
    ExtendsSet(g, g1, s1, "day_of_week", CalendarColumn(g1, Weekday));
    ExtendsSet(g, g2, s2, "month", CalendarColumn(g2, Month));
    ExtendsSet(g, g3, s3, "year", CalendarColumn(g3, Year));
  }

  /** The volume change and the three calendar parts of the dates, each in its column. */
  lemma CalendarCells(g: Frame)
    requires "volume" in g.columns
    ensures AddVolumeAndCalendar(g).Ok?
    ensures var h := AddVolumeAndCalendar(g).value;
      Column(h, "volume_change") == PctChange(Column(g, "volume"), 1) &&
      Column(h, "day_of_week") == CalendarColumn(g, Weekday) &&
      Column(h, "month") == CalendarColumn(g, Month) &&
      Column(h, "year") == CalendarColumn(g, Year)
  {
    var vc := PctChange(Column(g, "volume"), 1);
    var g1 := SetColumn(g, "volume_change", vc);
    var g2 := SetColumn(g1, "day_of_week", CalendarColumn(g1, Weekday));
    var g3 := SetColumn(g2, "month", CalendarColumn(g2, Month));
    var h := SetColumn(g3, "year", CalendarColumn(g3, Year));
    assert AddVolumeAndCalendar(g) == Ok(h);
    SetColumnFacts(g, "volume_change", vc);
    SetColumnFacts(g1, "day_of_week", CalendarColumn(g1, Weekday));
    SetColumnFacts(g2, "month", CalendarColumn(g2, Month));
    CalendarColumnDays(g1, g, Weekday);
    CalendarColumnDays(g2, g, Month);
    CalendarColumnDays(g3, g, Year);
    SetColumnSets(g, "volume_change", vc);
    SetColumnOther(g1, "day_of_week", CalendarColumn(g1, Weekday), "volume_change");
    SetColumnOther(g2, "month", CalendarColumn(g2, Month), "volume_change");
    SetColumnOther(g3, "year", CalendarColumn(g3, Year), "volume_change");
    SetColumnSets(g1, "day_of_week", CalendarColumn(g1, Weekday));
    SetColumnOther(g2, "month", CalendarColumn(g2, Month), "day_of_week");
    SetColumnOther(g3, "year", CalendarColumn(g3, Year), "day_of_week");
    SetColumnSets(g2, "month", CalendarColumn(g2, Month));
    SetColumnOther(g3, "year", CalendarColumn(g3, Year), "month");
    SetColumnSets(g3, "year", CalendarColumn(g3, Year));
  }

  /**
   * The last feature step fails exactly when `volume` is missing; otherwise
   * it adds the one-row volume change and the weekday (Monday 0), month and
   * year of each row's date, and changes nothing else.
   */
  lemma VolumeAndCalendarFacts(g: Frame)
    ensures AddVolumeAndCalendar(g).Err? <==> "volume" !in g.columns
    ensures AddVolumeAndCalendar(g).Err? ==> AddVolumeAndCalendar(g).error == KeyError("volume")
    ensures AddVolumeAndCalendar(g).Ok? ==>
      var h := AddVolumeAndCalendar(g).value;
      |h.rows| == |g.rows| && Days(h) == Days(g) && (Valid(g) ==> Valid(h)) &&
      h.columns == g.columns + CalendarLabels &&
      Column(h, "volume_change") == PctChange(Column(g, "volume"), 1) &&
      (forall i :: 0 <= i < |g.rows| ==>
        Column(h, "day_of_week")[i] == Num(Weekday(g.rows[i].day) as real) &&
        Column(h, "month")[i] == Num(Month(g.rows[i].day) as real) &&
        Column(h, "year")[i] == Num(Year(g.rows[i].day) as real)) &&
      (forall c :: c !in CalendarLabels ==> Column(h, c) == Column(g, c))
  {
    if "volume" in g.columns {
      CalendarSteps(g);
    }
  }

  // ------------------------------------------------------ auxiliary tickers

  /** The label an auxiliary ticker's loaded column ends up with. */
  function AuxLabel(ticker: string, c: string): string
  {
    SafeName(ticker) + "_" + OhlcvName(c)
  }

  /** The prepared auxiliary frame keeps its dates and rectangularity, for any columns. */
  lemma PreparedAuxValid(ticker: string, ext: Frame)
    requires Valid(ext)
    ensures Valid(PreparedAux(ticker, ext)) && Days(PreparedAux(ticker, ext)) == Days(ext)
  {
    RenameOhlcvValid(ext);
    AddPrefixFacts(RenameOhlcv(ext), SafeName(ticker) + "_");
  }

  /**
   * An auxiliary frame of loaded columns: each column `c` becomes
   * `<safe name>_<short label of c>` with its cells, and there are no others.
   */
  lemma PreparedAuxLoaded(ticker: string, ext: Frame)
    requires Valid(ext) && ext.columns <= LoadedColumns
    ensures var p := PreparedAux(ticker, ext);
      Valid(p) && Days(p) == Days(ext) &&
      p.columns == (set c | c in ext.columns :: AuxLabel(ticker, c)) &&
      forall c :: c in ext.columns ==> Column(p, AuxLabel(ticker, c)) == Column(ext, c)
  {
    var pre := SafeName(ticker) + "_";
    var g := RenameOhlcv(ext);
    RenameOhlcvLoaded(ext);
    AddPrefixFacts(g, pre);
    var p := PreparedAux(ticker, ext);
    forall x | x in p.columns
      ensures x in set c | c in ext.columns :: AuxLabel(ticker, c)
    {
      var y :| y in g.columns && x == pre + y;
      var c :| c in ext.columns && y == OhlcvName(c);
      assert x == AuxLabel(ticker, c);
    }
    forall c | c in ext.columns
      ensures AuxLabel(ticker, c) in p.columns
      ensures Column(p, AuxLabel(ticker, c)) == Column(ext, c)
    {
      assert OhlcvName(c) in g.columns;
      assert AuxLabel(ticker, c) == pre + OhlcvName(c);
    }
  }

  /** The label of an auxiliary close is that of its loaded `adj_close_price`. */
  lemma AuxCloseLabel(ticker: string)
    ensures AuxClose(ticker) == AuxLabel(ticker, "adj_close_price")
  {
    assert "_" + "close" == "_close";
    AppendAssoc(SafeName(ticker), "_", "close");
  }

  /** The prepared close of an auxiliary ticker is its adjusted close. */
  lemma PreparedAuxClose(ticker: string, ext: Frame)
    requires Valid(ext) && ext.columns <= LoadedColumns && "adj_close_price" in ext.columns
    ensures var p := PreparedAux(ticker, ext);
      Valid(p) && Days(p) == Days(ext) &&
      AuxClose(ticker) in p.columns && Column(p, AuxClose(ticker)) == Column(ext, "adj_close_price")
  {
    AuxCloseLabel(ticker);
    PreparedAuxLoaded(ticker, ext);
    assert Column(PreparedAux(ticker, ext), AuxLabel(ticker, "adj_close_price")) == Column(ext, "adj_close_price");
  }

  /**
   * The joined close `<safe name>_close` of a target row is the auxiliary
   * adjusted close of the same date, or missing when the auxiliary ticker
   * has no row that day.
   */
  lemma JoinedAuxClose(left: Frame, ticker: string, ext: Frame, i: int)
    requires Valid(ext) && UniqueDays(ext) && ext.columns <= LoadedColumns && "adj_close_price" in ext.columns
    requires 0 <= i < |left.rows|
    ensures var col := Column(LeftJoin(left, PreparedAux(ticker, ext)), AuxClose(ticker));
      |col| == |left.rows| &&
      (forall j :: 0 <= j < |ext.rows| && ext.rows[j].day == left.rows[i].day ==>
        col[i] == Column(ext, "adj_close_price")[j]) &&
      ((forall j :: 0 <= j < |ext.rows| ==> ext.rows[j].day != left.rows[i].day) ==> col[i] == NaN)
  {
    var p := PreparedAux(ticker, ext);
    PreparedAuxClose(ticker, ext);
    UniqueDaysOfDays(p, ext);
    LeftJoinLength(left, p);
    forall j | 0 <= j < |ext.rows| && ext.rows[j].day == left.rows[i].day
      ensures Column(LeftJoin(left, p), AuxClose(ticker))[i] == Column(ext, "adj_close_price")[j]
    {
      assert p.rows[j].day == Days(p)[j] == Days(ext)[j];
      LeftJoinMatched(left, p, AuxClose(ticker), i, j);
    }
    if forall j :: 0 <= j < |ext.rows| ==> ext.rows[j].day != left.rows[i].day {
      forall j | 0 <= j < |p.rows|
        ensures p.rows[j].day != left.rows[i].day
      {
        assert p.rows[j].day == Days(p)[j] == Days(ext)[j];
      }
      LeftJoinUnmatched(left, p, AuxClose(ticker), i);
    }
  }

  /** A fold of return steps keeps the frame rectangular and its dates, whatever it adds. */
  lemma ReturnsKeepDays(g0: Frame, src: string, prefix: string, ns: seq<int>)
    requires |src| > 0 && src[|src| - 1] != 'd'
    ensures Fold(g0, ns, ReturnStep(src, prefix)).Ok? ==>
      var g := Fold(g0, ns, ReturnStep(src, prefix)).value;
      Days(g) == Days(g0) && (Valid(g0) ==> Valid(g))
  {
    ReturnsFold(g0, src, prefix, ns);
  }

  /**
   * One auxiliary ticker with an adjusted close succeeds: its prepared labels
   * join the drop list, the target's dates are kept, and it adds `vix_price`
   * (the joined close) for `^VIX`, or one lag return of the joined close per
   * lag for any other ticker.
   */
  lemma AuxApplyFacts(lags: seq<int>, acc: Acc, ticker: string, ext: Frame)
    requires Valid(acc.frame) && Valid(ext) && UniqueDays(ext)
    requires ext.columns <= LoadedColumns && "adj_close_price" in ext.columns
    ensures AuxApply(lags, acc, (ticker, ext)).Ok?
    ensures var r := AuxApply(lags, acc, (ticker, ext)).value;
      var p := PreparedAux(ticker, ext);
      var joined := LeftJoin(acc.frame, p);
      r.drop == acc.drop + p.columns &&
      Valid(r.frame) && Days(r.frame) == Days(acc.frame) &&
      (ticker == VixTicker ==>
        r.frame.columns == joined.columns + {"vix_price"} &&
        Column(r.frame, "vix_price") == Column(joined, AuxClose(ticker))) &&
      (ticker != VixTicker ==> ReturnsAdded(joined, r.frame, AuxClose(ticker), AuxReturnPrefix(ticker), lags))
  {
    var p := PreparedAux(ticker, ext);
    PreparedAuxClose(ticker, ext);
    UniqueDaysOfDays(p, ext);
    var joined := LeftJoin(acc.frame, p);
    LeftJoinFacts(acc.frame, p);
    var closeCol := AuxClose(ticker);
    assert closeCol in joined.columns;
    if ticker == VixTicker {
      SetColumnFacts(joined, "vix_price", Column(joined, closeCol));
    } else {
      ReturnsFold(joined, closeCol, AuxReturnPrefix(ticker), lags);
    }
  }

  // ---------------------------------------------------------------- clean-up

  /** The labels left after dropping `drop` and renaming `close` back to `adj_close_price`. */
  function FinalLabels(columns: set<string>, drop: set<string>): set<string>
  {
    var kept := columns - drop;
    if "close" in kept then kept - {"close"} + {"adj_close_price"} else kept
  }

  /**
   * The clean-up: the dropped labels are gone, `close` is back under its
   * loaded name, no cell is missing or infinite, and the rows left are rows
   * of the input dates, in order.
   */
  lemma FinishFacts(g: Frame, drop: set<string>)
    ensures var out := Finish(g, drop);
      out.columns == FinalLabels(g.columns, drop) &&
      (forall i, c :: 0 <= i < |out.rows| && c in out.rows[i].cells ==> out.rows[i].cells[c].Num?) &&
      (forall i :: 0 <= i < |out.rows| ==> exists j :: 0 <= j < |g.rows| && out.rows[i].day == g.rows[j].day) &&
      (Increasing(g) ==> Increasing(out)) &&
      (Valid(g) ==> Valid(out))
  {
    var r := ReplaceInf(RenameColumn(DropColumns(g, drop), "close", "adj_close_price"));
    CleanUpFacts(g, drop, "close", "adj_close_price");
    DropNaFacts(g, r);
    assert Finish(g, drop) == DropNa(r);
  }

  // ------------------------------------------------------------------ dates

  /** The first step keeps the target's dates. */
  lemma NormaliseKeepsDays(f: Frame)
    requires Valid(f)
    ensures Normalise(f).Ok? ==> Valid(Normalise(f).value) && Days(Normalise(f).value) == Days(f)
  {
    if !CanAdjust(f) {
      assert Normalise(f) == Ok(RenameOhlcv(f));
      RenameOhlcvValid(f);
    } else if {"open_price", "high_price", "low_price", "volume"} <= f.columns {
      NormaliseAdjustedDays(f);
    } else {
      assert Normalise(f).Err?;
    }
  }

  lemma NormaliseAdjustedDays(f: Frame)
    requires Valid(f) && CanAdjust(f) && {"open_price", "high_price", "low_price", "volume"} <= f.columns
    ensures Normalise(f).Ok? && Valid(Normalise(f).value) && Days(Normalise(f).value) == Days(f)
  {
    NormaliseAdjustedShape(f);
  }

  /** Joining an auxiliary ticker with a unique date index keeps the target's dates. */
  lemma AuxApplyKeepsDays(lags: seq<int>, acc: Acc, x: (string, Frame))
    requires Valid(acc.frame) && Valid(x.1) && UniqueDays(x.1)
    ensures AuxApply(lags, acc, x).Ok? ==>
      Valid(AuxApply(lags, acc, x).value.frame) && Days(AuxApply(lags, acc, x).value.frame) == Days(acc.frame)
  {
    var p := PreparedAux(x.0, x.1);
    PreparedAuxValid(x.0, x.1);
    UniqueDaysOfDays(p, x.1);
    var joined := LeftJoin(acc.frame, p);
    LeftJoinFacts(acc.frame, p);
    var closeCol := AuxClose(x.0);
    assert closeCol[|closeCol| - 1] == 'e';
    if x.0 == VixTicker {
      if closeCol in joined.columns {
        SetColumnFacts(joined, "vix_price", Column(joined, closeCol));
      }
    } else {
      ReturnsKeepDays(joined, closeCol, AuxReturnPrefix(x.0), lags);
    }
  }

  /** Every auxiliary ticker is a rectangular frame with a unique date index. */
  ghost predicate WellIndexed(aux: seq<(string, Frame)>)
  {
    forall i :: 0 <= i < |aux| ==> Valid(aux[i].1) && UniqueDays(aux[i].1)
  }

  ghost predicate SameDays(days: seq<int>, acc: Acc)
  {
    Valid(acc.frame) && Days(acc.frame) == days
  }

  /** The loop over the auxiliary tickers keeps the target's dates. */
  lemma AuxFoldKeepsDays(g0: Frame, aux: seq<(string, Frame)>, lags: seq<int>)
    requires Valid(g0) && WellIndexed(aux)
    ensures Fold(Acc(g0, {}), aux, AuxStep(lags)).Ok? ==>
      SameDays(Days(g0), Fold(Acc(g0, {}), aux, AuxStep(lags)).value)
  {
    var P := (acc: Acc) => SameDays(Days(g0), acc);
    forall s, i | 0 <= i < |aux| && P(s) && AuxStep(lags)(s, aux[i]).Ok?
      ensures P(AuxStep(lags)(s, aux[i]).value)
    {
      AuxApplyKeepsDays(lags, s, aux[i]);
    }
    FoldInvariant(Acc(g0, {}), aux, AuxStep(lags), P);
  }

  /** The target's own features keep its dates. */
  lemma DeriveKeepsDays(g1: Frame, lags: seq<int>, mas: seq<int>)
    ensures Derive(g1, lags, mas).Ok? ==>
      Days(Derive(g1, lags, mas).value) == Days(g1) && (Valid(g1) ==> Valid(Derive(g1, lags, mas).value))
  {
    ReturnsFold(g1, "close", "return_", lags);
    match Fold(g1, lags, ReturnStep("close", "return_"))
    case Err(_) =>
    case Ok(g2) =>
      AveragesFold(g2, mas);
      match Fold(g2, mas, AverageStep())
      case Err(_) =>
      case Ok(g3) =>
        VolumeAndCalendarFacts(g3);
  }

  /**
   * Both joins keep exactly the target's dates: with a rectangular target
   * and macro panel and auxiliary frames and a macro panel indexed by unique
   * dates, the table before clean-up has one row per target row, same dates.
   */
  lemma StagesKeepDays(main: Frame, aux: seq<(string, Frame)>, macro: Frame, lags: seq<int>, mas: seq<int>)
    requires Valid(main) && Valid(macro) && UniqueDays(macro) && WellIndexed(aux)
    ensures Stages(main, aux, macro, lags, mas).Ok? ==>
      SameDays(Days(main), Stages(main, aux, macro, lags, mas).value)
  {
    NormaliseKeepsDays(main);
    match Normalise(main)
    case Err(_) =>
    case Ok(g0) =>
      AuxFoldKeepsDays(g0, aux, lags);
      match Fold(Acc(g0, {}), aux, AuxStep(lags))
      case Err(_) =>
      case Ok(acc) =>
        LeftJoinFacts(acc.frame, macro);
        var g1 := FFillFrame(LeftJoin(acc.frame, macro));
        FFillFrameFacts(LeftJoin(acc.frame, macro));
        DeriveKeepsDays(g1, lags, mas);
  }

  // ---------------------------------------------------------------- results

  /** Every prepared auxiliary label, in ticker order. */
  function AuxLabels(aux: seq<(string, Frame)>): set<string>
    decreases |aux|
  {
    if aux == [] then {}
    else AuxLabels(aux[..|aux| - 1]) + PreparedAux(aux[|aux| - 1].0, aux[|aux| - 1].1).columns
  }

  /** The drop list the auxiliary loop collects is every prepared auxiliary label. */
  lemma {:induction false} AuxFoldDrops(g0: Frame, aux: seq<(string, Frame)>, lags: seq<int>)
    ensures Fold(Acc(g0, {}), aux, AuxStep(lags)).Ok? ==>
      Fold(Acc(g0, {}), aux, AuxStep(lags)).value.drop == AuxLabels(aux)
    decreases |aux|
  {
    if aux != [] {
      var ys := aux[..|aux| - 1];
      AuxFoldDrops(g0, ys, lags);
      var r := Fold(Acc(g0, {}), ys, AuxStep(lags));
      if r.Ok? {
        AuxApplyDrop(lags, r.value, aux[|aux| - 1]);
      }
    }
  }

  /** A successful auxiliary step adds the prepared labels to the drop list. */
  lemma AuxApplyDrop(lags: seq<int>, acc: Acc, x: (string, Frame))
    ensures AuxApply(lags, acc, x).Ok? ==> AuxApply(lags, acc, x).value.drop == acc.drop + PreparedAux(x.0, x.1).columns
  {
  }

  /** A label of the `i`-th prepared auxiliary frame is one of all the prepared labels. */
  lemma {:induction false} AuxLabelsHave(aux: seq<(string, Frame)>, i: int, c: string)
    requires 0 <= i < |aux| && c in PreparedAux(aux[i].0, aux[i].1).columns
    ensures c in AuxLabels(aux)
    decreases |aux|
  {
    if i < |aux| - 1 {
      var ys := aux[..|aux| - 1];
      assert ys[i] == aux[i];
      AuxLabelsHave(ys, i, c);
    }
  }

  /** The table before clean-up carries every prepared auxiliary label as its drop list. */
  lemma StagesDrop(main: Frame, aux: seq<(string, Frame)>, macro: Frame, lags: seq<int>, mas: seq<int>)
    ensures Stages(main, aux, macro, lags, mas).Ok? ==> Stages(main, aux, macro, lags, mas).value.drop == AuxLabels(aux)
  {
    match Normalise(main)
    case Err(_) =>
    case Ok(g0) =>
      AuxFoldDrops(g0, aux, lags);
  }

  /** The clean-up removes every prepared auxiliary label but `adj_close_price`. */
  lemma FinishDropsAux(g: Frame, aux: seq<(string, Frame)>)
    ensures forall i, c :: 0 <= i < |aux| && c in PreparedAux(aux[i].0, aux[i].1).columns && c != "adj_close_price" ==>
      c !in Finish(g, AuxLabels(aux)).columns
  {
    forall i, c | 0 <= i < |aux| && c in PreparedAux(aux[i].0, aux[i].1).columns && c != "adj_close_price"
      ensures c !in Finish(g, AuxLabels(aux)).columns
    {
      AuxLabelsHave(aux, i, c);
    }
  }

  /**
   * What `create_features` returns: no cell is missing or infinite; `close`
   * is gone (renamed back to `adj_close_price`); and every prepared
   * auxiliary label is dropped.
   */
  lemma FeaturesClean(main: Frame, aux: seq<(string, Frame)>, macro: Frame, lags: seq<int>, mas: seq<int>)
    ensures var r := Features(main, aux, macro, lags, mas);
      r.Ok? ==>
        (forall i, c :: 0 <= i < |r.value.rows| && c in r.value.rows[i].cells ==> r.value.rows[i].cells[c].Num?) &&
        "close" !in r.value.columns &&
        (forall i, c :: 0 <= i < |aux| && c in PreparedAux(aux[i].0, aux[i].1).columns && c != "adj_close_price" ==>
          c !in r.value.columns)
  {
    var st := Stages(main, aux, macro, lags, mas);
    if st.Ok? {
      var acc := st.value;
      assert Features(main, aux, macro, lags, mas) == Ok(Finish(acc.frame, acc.drop));
      FinishFacts(acc.frame, acc.drop);
      StagesDrop(main, aux, macro, lags, mas);
      FinishDropsAux(acc.frame, aux);
    }
  }

  /**
   * For a rectangular target and macro panel and uniquely indexed auxiliary
   * frames and macro panel, the rows returned are rows of the target's
   * dates, in increasing order when the target's are.
   */
  lemma FeaturesDates(main: Frame, aux: seq<(string, Frame)>, macro: Frame, lags: seq<int>, mas: seq<int>)
    requires Valid(main) && Valid(macro) && UniqueDays(macro) && WellIndexed(aux)
    ensures var r := Features(main, aux, macro, lags, mas);
      r.Ok? ==>
        Valid(r.value) &&
        (forall i :: 0 <= i < |r.value.rows| ==> exists j :: 0 <= j < |main.rows| && r.value.rows[i].day == main.rows[j].day) &&
        (Increasing(main) ==> Increasing(r.value))
  {
    var st := Stages(main, aux, macro, lags, mas);
    if st.Ok? {
      StagesKeepDays(main, aux, macro, lags, mas);
      FinishDates(main, st.value.frame, st.value.drop);
    }
  }

  /** The clean-up of a frame with the dates of `main` keeps it valid and keeps only dates of `main`, in order. */
  lemma FinishDates(main: Frame, g: Frame, drop: set<string>)
    requires Valid(g) && Days(g) == Days(main)
    ensures var out := Finish(g, drop);
      Valid(out) &&
      (forall i :: 0 <= i < |out.rows| ==> exists j :: 0 <= j < |main.rows| && out.rows[i].day == main.rows[j].day) &&
      (Increasing(main) ==> Increasing(out))
  {
    FinishFacts(g, drop);
    DaysFromMain(main, g, Finish(g, drop));
  }

  /** Rows whose dates come, in order, from a frame with the dates of `main` have dates of `main`, in order. */
  lemma DaysFromMain(main: Frame, g: Frame, out: Frame)
    requires Days(g) == Days(main)
    requires forall i :: 0 <= i < |out.rows| ==> exists j :: 0 <= j < |g.rows| && out.rows[i].day == g.rows[j].day
    requires Increasing(g) ==> Increasing(out)
    ensures forall i :: 0 <= i < |out.rows| ==> exists j :: 0 <= j < |main.rows| && out.rows[i].day == main.rows[j].day
    ensures Increasing(main) ==> Increasing(out)
  {
    forall i | 0 <= i < |out.rows|
      ensures exists j :: 0 <= j < |main.rows| && out.rows[i].day == main.rows[j].day
    {
      var j :| 0 <= j < |g.rows| && out.rows[i].day == g.rows[j].day;
      assert g.rows[j].day == Days(g)[j] == Days(main)[j];
    }
    if Increasing(main) {
      assert forall a :: 0 <= a < |g.rows| ==> g.rows[a].day == Days(g)[a] == Days(main)[a];
    }
  }

  // --------------------------------------------------- the production path

  /** A frame as `load_all_data` returns it: rectangular, loaded columns only, with an adjusted close. */
  ghost predicate Loaded(f: Frame)
  {
    Valid(f) && f.columns <= LoadedColumns && "adj_close_price" in f.columns
  }

  ghost predicate LoadedAux(aux: seq<(string, Frame)>)
  {
    forall i :: 0 <= i < |aux| ==> Loaded(aux[i].1)
  }

  /** The features one auxiliary ticker contributes. */
  function AuxAdded(x: (string, Frame), lags: seq<int>): set<string>
  {
    if x.0 == VixTicker then {"vix_price"} else ReturnNames(AuxReturnPrefix(x.0), lags)
  }

  /** A loaded auxiliary ticker always succeeds and only adds labels, among them its features. */
  lemma AuxApplyGrows(lags: seq<int>, acc: Acc, x: (string, Frame))
    requires Loaded(x.1)
    ensures AuxApply(lags, acc, x).Ok?
    ensures acc.frame.columns + AuxAdded(x, lags) <= AuxApply(lags, acc, x).value.frame.columns
  {
    var p := PreparedAux(x.0, x.1);
    PreparedAuxClose(x.0, x.1);
    var joined := LeftJoin(acc.frame, p);
    var closeCol := AuxClose(x.0);
    assert closeCol in joined.columns;
    assert closeCol[|closeCol| - 1] == 'e';
    if x.0 != VixTicker {
      ReturnsFold(joined, closeCol, AuxReturnPrefix(x.0), lags);
    }
  }

  /** The auxiliary loop over loaded frames succeeds and keeps every label and feature it adds. */
  lemma {:induction false} AuxFoldGrows(g0: Frame, aux: seq<(string, Frame)>, lags: seq<int>)
    requires LoadedAux(aux)
    ensures Fold(Acc(g0, {}), aux, AuxStep(lags)).Ok?
    ensures var g := Fold(Acc(g0, {}), aux, AuxStep(lags)).value.frame;
      g0.columns <= g.columns && forall i :: 0 <= i < |aux| ==> AuxAdded(aux[i], lags) <= g.columns
    decreases |aux|
  {
    if aux != [] {
      var ys := aux[..|aux| - 1];
      var x := aux[|aux| - 1];
      assert forall i :: 0 <= i < |ys| ==> ys[i] == aux[i];
      assert LoadedAux(ys);
      AuxFoldGrows(g0, ys, lags);
      var r := Fold(Acc(g0, {}), ys, AuxStep(lags));
      var acc := r.value;
      AuxApplyGrows(lags, acc, x);
      assert Fold(Acc(g0, {}), aux, AuxStep(lags)) == AuxApply(lags, acc, x);
      AddedCombine(aux, lags, acc.frame.columns, AuxApply(lags, acc, x).value.frame.columns);
    }
  }

  lemma AddedCombine(aux: seq<(string, Frame)>, lags: seq<int>, before: set<string>, after: set<string>)
    requires aux != []
    requires forall i :: 0 <= i < |aux| - 1 ==> AuxAdded(aux[i], lags) <= before
    requires before + AuxAdded(aux[|aux| - 1], lags) <= after
    ensures forall i :: 0 <= i < |aux| ==> AuxAdded(aux[i], lags) <= after
  {
    forall i | 0 <= i < |aux| ensures AuxAdded(aux[i], lags) <= after {
      var a := AuxAdded(aux[i], lags);
      if i < |aux| - 1 {
        SubsetTrans(a, before, before + AuxAdded(aux[|aux| - 1], lags), after);
      } else {
        SubsetTrans(a, a, before + a, after);
      }
    }
  }

  lemma SubsetTrans(a: set<string>, b: set<string>, c: set<string>, d: set<string>)
    requires a <= b && b <= c && c <= d
    ensures a <= d
  {
  }

  /** The last two characters of a short price label. */
  predicate PriceEnding(x: string)
  {
    |x| >= 2 &&
    var a := x[|x| - 2];
    var b := x[|x| - 1];
    (a == 'e' && b == 'n') || (a == 'g' && b == 'h') || (a == 'o' && b == 'w') || (b == 'e' && (a == 's' || a == 'm'))
  }

  /** What every loaded auxiliary label looks like: an underscore, and a price label at the end. */
  predicate AuxEnding(x: string)
  {
    '_' in x && PriceEnding(x)
  }

  lemma AuxLabelEnds(t: string, c: string)
    requires c in LoadedColumns
    ensures AuxEnding(AuxLabel(t, c))
  {
    var x := AuxLabel(t, c);
    var e := OhlcvName(c);
    assert x == SafeName(t) + "_" + e;
    assert x[|SafeName(t)|] == '_';
    assert x[|x| - 1] == e[|e| - 1] && x[|x| - 2] == e[|e| - 2];
  }

  lemma PreparedLabelsEnd(t: string, ext: Frame)
    requires Loaded(ext)
    ensures forall x :: x in PreparedAux(t, ext).columns ==> AuxEnding(x)
  {
    PreparedAuxLoaded(t, ext);
    forall c | c in ext.columns
      ensures AuxEnding(AuxLabel(t, c))
    {
      AuxLabelEnds(t, c);
    }
  }

  lemma {:induction false} AuxLabelsEnd(aux: seq<(string, Frame)>)
    requires LoadedAux(aux)
    ensures forall x :: x in AuxLabels(aux) ==> AuxEnding(x)
    decreases |aux|
  {
    if aux != [] {
      var ys := aux[..|aux| - 1];
      assert LoadedAux(ys) by {
        assert forall i :: 0 <= i < |ys| ==> ys[i] == aux[i];
      }
      AuxLabelsEnd(ys);
      PreparedLabelsEnd(aux[|aux| - 1].0, aux[|aux| - 1].1);
    }
  }

  /** A label ending in a character no price label ends in is not an auxiliary label. */
  lemma NotAuxEnding(x: string)
    requires |x| > 0 && x[|x| - 1] !in {'n', 'h', 'w', 'e'}
    ensures !AuxEnding(x)
  {
  }

  lemma ReturnNameNotAux(prefix: string, n: int)
    ensures !AuxEnding(ReturnName(prefix, n)) && ReturnName(prefix, n) != "close"
  {
    ReturnNameEnd(prefix, n);
    NotAuxEnding(ReturnName(prefix, n));
  }

  lemma SmaNamesNotAux(p: int)
    ensures !AuxEnding(SmaName(p)) && !AuxEnding(SmaDiffName(p))
  {
    var d := IntToString(p);
    assert SmaName(p)[|SmaName(p)| - 1] == d[|d| - 1];
    assert SmaDiffName(p)[|SmaDiffName(p)| - 1] == d[|d| - 1];
    NotAuxEnding(SmaName(p));
    NotAuxEnding(SmaDiffName(p));
  }

  lemma FixedLabelsNotAux()
    ensures forall x :: x in CalendarLabels ==> !AuxEnding(x) && x != "close"
    ensures !AuxEnding("volume") && !AuxEnding("adj_close_price") && !AuxEnding("vix_price")
  {
    assert !PriceEnding("volume_change") && !PriceEnding("day_of_week") && !PriceEnding("year");
    assert !PriceEnding("month") && !PriceEnding("adj_close_price") && !PriceEnding("vix_price");
    assert "volume"[0] != '_' && "volume"[1] != '_' && "volume"[2] != '_';
    assert "volume"[3] != '_' && "volume"[4] != '_' && "volume"[5] != '_';
  }

  /** The feature labels the target gets. */
  function FeatureLabels(lags: seq<int>, mas: seq<int>): set<string>
  {
    ReturnNames("return_", lags) + SmaNames(mas) + CalendarLabels
  }

  /** No feature label is an auxiliary label or `close`. */
  lemma FeatureLabelsNotAux(lags: seq<int>, mas: seq<int>)
    ensures forall x :: x in FeatureLabels(lags, mas) ==> !AuxEnding(x) && x != "close"
    ensures !AuxEnding("volume") && !AuxEnding("adj_close_price")
  {
    FixedLabelsNotAux();
    forall n | n in lags
      ensures !AuxEnding(ReturnName("return_", n)) && ReturnName("return_", n) != "close"
    {
      ReturnNameNotAux("return_", n);
    }
    forall p | p in mas
      ensures !AuxEnding(SmaName(p)) && !AuxEnding(SmaDiffName(p))
    {
      SmaNamesNotAux(p);
    }
    CloseNotSmaName(mas);
  }

  /** No auxiliary feature label is an auxiliary price label or `close`. */
  lemma AuxAddedNotAux(x: (string, Frame), lags: seq<int>)
    ensures forall y :: y in AuxAdded(x, lags) ==> !AuxEnding(y) && y != "close"
  {
    FixedLabelsNotAux();
    forall y | y in AuxAdded(x, lags)
      ensures !AuxEnding(y) && y != "close"
    {
      if x.0 != VixTicker {
        var n :| n in lags && y == ReturnName(AuxReturnPrefix(x.0), n);
        ReturnNameNotAux(AuxReturnPrefix(x.0), n);
      }
    }
  }

  /** Everything the target gets before clean-up: the features, `close`, `volume` and the auxiliary features. */
  ghost predicate HasFeatures(g: Frame, aux: seq<(string, Frame)>, lags: seq<int>, mas: seq<int>)
  {
    FeatureLabels(lags, mas) + {"close", "volume"} <= g.columns &&
    forall i :: 0 <= i < |aux| ==> AuxAdded(aux[i], lags) <= g.columns
  }

  /**
   * With `close` and `volume` present, the target's own features fail only
   * for a negative window, with pandas' `ValueError`, and otherwise are all
   * added, nothing removed.
   */
  lemma DeriveOnClose(g1: Frame, lags: seq<int>, mas: seq<int>)
    requires "close" in g1.columns && "volume" in g1.columns
    ensures Derive(g1, lags, mas).Ok? <==> (forall p :: p in mas ==> p >= 0)
    ensures Derive(g1, lags, mas).Err? ==> Derive(g1, lags, mas).error == ValueError("window must be an integer 0 or greater")
    ensures Derive(g1, lags, mas).Ok? ==> g1.columns + FeatureLabels(lags, mas) <= Derive(g1, lags, mas).value.columns
  {
    ReturnsFold(g1, "close", "return_", lags);
    var g2 := Fold(g1, lags, ReturnStep("close", "return_")).value;
    AveragesFold(g2, mas);
    var r3 := Fold(g2, mas, AverageStep());
    if r3.Ok? {
      VolumeAndCalendarFacts(r3.value);
    }
  }

  /**
   * On loaded frames the stages fail only for a negative moving-average
   * window, with pandas' `ValueError`; otherwise every feature is there.
   */
  lemma StagesOnLoaded(main: Frame, aux: seq<(string, Frame)>, macro: Frame, lags: seq<int>, mas: seq<int>)
    requires Loaded(main) && "volume" in main.columns && LoadedAux(aux)
    ensures Stages(main, aux, macro, lags, mas).Ok? <==> (forall p :: p in mas ==> p >= 0)
    ensures Stages(main, aux, macro, lags, mas).Err? ==>
      Stages(main, aux, macro, lags, mas).error == ValueError("window must be an integer 0 or greater")
    ensures Stages(main, aux, macro, lags, mas).Ok? ==>
      HasFeatures(Stages(main, aux, macro, lags, mas).value.frame, aux, lags, mas)
  {
    NormaliseLoaded(main);
    var g0 := Normalise(main).value;
    assert OhlcvName("adj_close_price") == "close" && OhlcvName("volume") == "volume";
    assert "close" in g0.columns && "volume" in g0.columns;
    AuxFoldGrows(g0, aux, lags);
    var acc := Fold(Acc(g0, {}), aux, AuxStep(lags)).value;
    var g1 := FFillFrame(LeftJoin(acc.frame, macro));
    assert "close" in g1.columns && "volume" in g1.columns;
    DeriveOnClose(g1, lags, mas);
  }

  /**
   * The production path of `create_features`: on frames as `load_all_data`
   * returns them it fails only for a negative window, and otherwise returns
   * every lag return, moving average, volume and calendar feature, the
   * auxiliary features (`vix_price`, or an auxiliary return per lag),
   * `volume` and `adj_close_price`.
   */
  lemma FeaturesOnLoaded(main: Frame, aux: seq<(string, Frame)>, macro: Frame, lags: seq<int>, mas: seq<int>)
    requires Loaded(main) && "volume" in main.columns && LoadedAux(aux)
    ensures Features(main, aux, macro, lags, mas).Ok? <==> (forall p :: p in mas ==> p >= 0)
    ensures Features(main, aux, macro, lags, mas).Err? ==>
      Features(main, aux, macro, lags, mas).error == ValueError("window must be an integer 0 or greater")
    ensures Features(main, aux, macro, lags, mas).Ok? ==>
      var out := Features(main, aux, macro, lags, mas).value;
      FeatureLabels(lags, mas) + {"volume", "adj_close_price"} <= out.columns &&
      forall i :: 0 <= i < |aux| ==> AuxAdded(aux[i], lags) <= out.columns
  {
    StagesOnLoaded(main, aux, macro, lags, mas);
    var st := Stages(main, aux, macro, lags, mas);
    if st.Ok? {
      StagesDrop(main, aux, macro, lags, mas);
      FeaturesNotDropped(aux, lags, mas);
      forall i | 0 <= i < |aux|
        ensures forall x :: x in AuxAdded(aux[i], lags) ==> x !in AuxLabels(aux) && x != "close"
      {
        AuxFeaturesNotDropped(aux, lags, i);
      }
      FinishKeeps(st.value.frame, aux, lags, mas);
    }
  }

  /** The target's features and `volume` survive the clean-up, with `close` back as `adj_close_price`. */
  lemma FinishKeepsLabels(columns: set<string>, drop: set<string>, features: set<string>)
    requires features + {"close", "volume"} <= columns
    requires forall x :: x in features + {"volume", "close"} ==> x !in drop
    requires "close" !in features + {"volume"}
    ensures features + {"volume", "adj_close_price"} <= FinalLabels(columns, drop)
  {
    FinishKeepsSet(columns, drop, features + {"volume"});
  }

  /** Every auxiliary feature survives the clean-up. */
  lemma FinishKeepsAux(columns: set<string>, drop: set<string>, aux: seq<(string, Frame)>, lags: seq<int>)
    requires "close" in columns && "close" !in drop
    requires forall i :: 0 <= i < |aux| ==> AuxAdded(aux[i], lags) <= columns
    requires forall i :: 0 <= i < |aux| ==> forall x :: x in AuxAdded(aux[i], lags) ==> x !in drop && x != "close"
    ensures forall i :: 0 <= i < |aux| ==> AuxAdded(aux[i], lags) <= FinalLabels(columns, drop)
  {
    forall i | 0 <= i < |aux| ensures AuxAdded(aux[i], lags) <= FinalLabels(columns, drop) {
      FinishKeepsSet(columns, drop, AuxAdded(aux[i], lags));
    }
  }

  /** Labels present, kept and other than `close` survive the clean-up, and so does a kept `close` as `adj_close_price`. */
  lemma FinishKeepsSet(columns: set<string>, drop: set<string>, want: set<string>)
    requires want <= columns && "close" in columns && "close" !in drop
    requires forall x :: x in want ==> x !in drop && x != "close"
    ensures want + {"adj_close_price"} <= FinalLabels(columns, drop)
  {
    forall x | x in want + {"adj_close_price"} ensures x in FinalLabels(columns, drop) {
      FinalLabelsMember(columns, drop, x);
    }
  }

  /** The labels after the clean-up: every kept label but `close`, and `adj_close_price` for a kept `close`. */
  lemma FinalLabelsMember(columns: set<string>, drop: set<string>, x: string)
    ensures x in FinalLabels(columns, drop) <==>
      (x in columns && x !in drop && x != "close") || (x == "adj_close_price" && "close" in columns && "close" !in drop)
  {
  }

  /** Labels of which none looks like an auxiliary label are not among them. */
  lemma NoneDropped(want: set<string>, aux: seq<(string, Frame)>)
    requires LoadedAux(aux)
    requires forall x :: x in want ==> !AuxEnding(x)
    ensures forall x :: x in want ==> x !in AuxLabels(aux)
  {
    AuxLabelsEnd(aux);
  }

  /** No feature label, nor `close` or `volume`, is a loaded auxiliary label. */
  lemma FeaturesNotDropped(aux: seq<(string, Frame)>, lags: seq<int>, mas: seq<int>)
    requires LoadedAux(aux)
    ensures forall x :: x in FeatureLabels(lags, mas) + {"volume", "close"} ==> x !in AuxLabels(aux)
  {
    FeatureLabelsNotAux(lags, mas);
    CloseNotAux();
    NoneDropped(FeatureLabels(lags, mas) + {"volume", "close"}, aux);
  }

  /** No auxiliary feature label is a loaded auxiliary label. */
  lemma AuxFeaturesNotDropped(aux: seq<(string, Frame)>, lags: seq<int>, i: int)
    requires LoadedAux(aux) && 0 <= i < |aux|
    ensures forall x :: x in AuxAdded(aux[i], lags) ==> x !in AuxLabels(aux) && x != "close"
  {
    AuxAddedNotAux(aux[i], lags);
    NoneDropped(AuxAdded(aux[i], lags), aux);
  }

  lemma CloseNotAux()
    ensures !AuxEnding("close")
  {
    assert '_' !in "close";
  }

  /** The clean-up keeps every feature, as no feature label is dropped. */
  lemma FinishKeeps(g: Frame, aux: seq<(string, Frame)>, lags: seq<int>, mas: seq<int>)
    requires HasFeatures(g, aux, lags, mas)
    requires forall x :: x in FeatureLabels(lags, mas) + {"volume", "close"} ==> x !in AuxLabels(aux)
    requires forall i :: 0 <= i < |aux| ==> forall x :: x in AuxAdded(aux[i], lags) ==> x !in AuxLabels(aux) && x != "close"
    ensures var out := Finish(g, AuxLabels(aux));
      FeatureLabels(lags, mas) + {"volume", "adj_close_price"} <= out.columns &&
      forall i :: 0 <= i < |aux| ==> AuxAdded(aux[i], lags) <= out.columns
  {
    var drop := AuxLabels(aux);
    var cols := FinalLabels(g.columns, drop);
    FeatureLabelsNotClose(lags, mas);
    assert "close" in g.columns && "close" !in drop;
    FinishKeepsLabels(g.columns, drop, FeatureLabels(lags, mas));
    FinishKeepsAux(g.columns, drop, aux, lags);
    assert Finish(g, drop).columns == cols;
  }

  lemma FeatureLabelsNotClose(lags: seq<int>, mas: seq<int>)
    ensures "close" !in FeatureLabels(lags, mas) + {"volume"}
  {
    FeatureLabelsNotAux(lags, mas);
  }

  // ============================================================ the program

  /** The `for n in FEATURE_LAG_DAYS` loop: one lag-return column per lag, stopping at a missing source. */
  method AddReturns(g0: Frame, src: string, prefix: string, lags: seq<int>) returns (r: Result<Frame, FeatureError>)
    ensures r == Fold(g0, lags, ReturnStep(src, prefix))
  {
    var g := g0;
    var i := 0;
    while i < |lags|
      invariant 0 <= i <= |lags|
      invariant Fold(g0, lags[..i], ReturnStep(src, prefix)) == Ok(g)
    {
      FoldNext(g0, lags, ReturnStep(src, prefix), i);
      if src !in g.columns {
        FoldErrorSticks(g0, lags, ReturnStep(src, prefix), i + 1);
        return Err(KeyError(src));
      }
      g := SetColumn(g, ReturnName(prefix, lags[i]), PctChange(Column(g, src), lags[i]));
      i := i + 1;
    }
    assert lags[..i] == lags;
    r := Ok(g);
  }

  /** The `for p in MA_PERIODS` loop: `SMA_p` and `SMA_diff_ratio_p` per period. */
  method AddAverages(g0: Frame, mas: seq<int>) returns (r: Result<Frame, FeatureError>)
    ensures r == Fold(g0, mas, AverageStep())
  {
    var g := g0;
    var i := 0;
    while i < |mas|
      invariant 0 <= i <= |mas|
      invariant Fold(g0, mas[..i], AverageStep()) == Ok(g)
    {
      FoldNext(g0, mas, AverageStep(), i);
      var p := mas[i];
      if "close" !in g.columns {
        FoldErrorSticks(g0, mas, AverageStep(), i + 1);
        return Err(KeyError("close"));
      }
      if p < 0 {
        FoldErrorSticks(g0, mas, AverageStep(), i + 1);
        return Err(ValueError("window must be an integer 0 or greater"));
      }
      var close := Column(g, "close");
      var sma := RollingMean(close, p);
      g := SetColumn(g, SmaName(p), sma);
      g := SetColumn(g, SmaDiffName(p), DivColumns(SubColumns(close, sma), sma));
      i := i + 1;
    }
    assert mas[..i] == mas;
    r := Ok(g);
  }

  /** The auxiliary tickers with the tables their frames hold now. */
  function AuxValues(aux: seq<(string, DataFrame)>): (vals: seq<(string, Frame)>)
    reads set i | 0 <= i < |aux| :: aux[i].1
    ensures |vals| == |aux|
    ensures forall i :: 0 <= i < |aux| ==> vals[i] == (aux[i].0, aux[i].1.frame)
  {
    seq(|aux|, i reads set i | 0 <= i < |aux| :: aux[i].1 requires 0 <= i < |aux| => (aux[i].0, aux[i].1.frame))
  }

  /** Distinct tickers hold distinct frame objects, as the dictionary `load_all_data` builds does. */
  predicate DistinctFrames(aux: seq<(string, DataFrame)>)
  {
    forall i, j :: 0 <= i < j < |aux| ==> aux[i].1 != aux[j].1
  }

  /**
   * The loop over the auxiliary tickers: each frame is renamed in place before
   * it is prefixed and joined, so every frame the loop reached (through a
   * failing one) ends up renamed and the rest are untouched.
   */
  method JoinAux(g0: Frame, aux: seq<(string, DataFrame)>, lags: seq<int>) returns (r: Result<Acc, FeatureError>)
    requires DistinctFrames(aux)
    modifies set i | 0 <= i < |aux| :: aux[i].1
    ensures r == Fold(Acc(g0, {}), old(AuxValues(aux)), AuxStep(lags))
    ensures forall j :: 0 <= j < |aux| ==>
      aux[j].1.frame == if j < Reached(Acc(g0, {}), old(AuxValues(aux)), AuxStep(lags))
        then RenameOhlcv(old(aux[j].1.frame)) else old(aux[j].1.frame)
  {
    ghost var vals := AuxValues(aux);
    ghost var step := AuxStep(lags);
    var acc := Acc(g0, {});
    var i := 0;
    while i < |aux|
      invariant 0 <= i <= |aux|
      invariant Fold(Acc(g0, {}), vals[..i], step) == Ok(acc)
      invariant forall j :: 0 <= j < |aux| ==>
        aux[j].1.frame == if j < i then RenameOhlcv(vals[j].1) else vals[j].1
    {
      FoldNext(Acc(g0, {}), vals, step, i);
      label Before:
      var next := JoinOne(lags, acc, aux[i].0, aux[i].1);
      forall j | 0 <= j < |aux|
        ensures aux[j].1.frame == if j < i + 1 then RenameOhlcv(vals[j].1) else vals[j].1
      {
        if j != i {
          assert aux[j].1 != aux[i].1;
          assert aux[j].1.frame == old@Before(aux[j].1.frame);
        }
      }
      if next.Err? {
        ReachedFailure(Acc(g0, {}), vals, step, i);
        FoldErrorSticks(Acc(g0, {}), vals, step, i + 1);
        return next;
      }
      acc := next.value;
      i := i + 1;
    }
    assert vals[..i] == vals;
    ReachedAll(Acc(g0, {}), vals, step);
    r := Ok(acc);
  }

  /**
   * `create_features(df, external_dfs, macro_df)`: the target table is a value
   * (the source works on a copy), the auxiliary frames are renamed in place.
   */
  method CreateFeatures(main: Frame, aux: seq<(string, DataFrame)>, macro: Frame, lags: seq<int>, mas: seq<int>)
    returns (r: Result<Frame, FeatureError>)
    requires DistinctFrames(aux)
    modifies set i | 0 <= i < |aux| :: aux[i].1
    ensures r == Features(main, old(AuxValues(aux)), macro, lags, mas)
    ensures forall j :: 0 <= j < |aux| ==>
      aux[j].1.frame ==
        if Normalise(main).Ok? && j < Reached(Acc(Normalise(main).value, {}), old(AuxValues(aux)), AuxStep(lags))
        then RenameOhlcv(old(aux[j].1.frame)) else old(aux[j].1.frame)
  {
    var n := Normalise(main);
    if n.Err? {
      return Err(n.error);
    }
    var ja := JoinAux(n.value, aux, lags);
    if ja.Err? {
      return Err(ja.error);
    }
    var acc := ja.value;
    var g1 := FillForward(LeftJoin(acc.frame, macro));
    var g2 := AddReturns(g1, "close", "return_", lags);
    if g2.Err? {
      return Err(g2.error);
    }
    var g3 := AddAverages(g2.value, mas);
    if g3.Err? {
      return Err(g3.error);
    }
    var g4 := AddVolumeAndCalendar(g3.value);
    if g4.Err? {
      return Err(g4.error);
    }
    var out := DropIncomplete(ReplaceInf(RenameColumn(DropColumns(g4.value, acc.drop), "close", "adj_close_price")));
    r := Ok(out);
  }
}
