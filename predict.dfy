/**
 * script/predict.py: which stored model a prediction loads, the model name,
 * the feature tickers read from the watch list, the renaming of new-style
 * Bollinger-band labels back to the names a model was trained with, the
 * selection of the last feature row, and the date the prediction is for.
 */
module Predict {
  import opened Wrappers
  import opened Text
  import opened Calendar
  import opened Cells
  import opened Frames
  import opened Registry
  import TrainModel

  // ------------------------------------------------------------ model names

  /** `LGBM_{h}d_{direction}_{pct}pct`. */
  function ModelName(h: int, direction: string, pct: int): string
  {
    "LGBM_" + IntToString(h) + "d_" + direction + "_" + IntToString(pct) + "pct"
  }

  /** A model is named after its training label, with `target` replaced by `LGBM`. */
  lemma ModelNameOfTarget(h: int, direction: string, pct: int)
    ensures ModelName(h, direction, pct) == "LGBM" + TrainModel.TargetName(h, direction, pct)[6..]
  {
    var hs := IntToString(h);
    var ps := IntToString(pct);
    var rest := "_" + hs + "d_" + direction + "_" + ps + "pct";
    assert "LGBM_" == "LGBM" + "_" && "target_" == "target" + "_";
    AppendAssoc("LGBM", "_", hs);
    AppendAssoc("target", "_", hs);
    Reassoc6("LGBM", "_" + hs, "d_", direction, "_", ps, "pct");
    Reassoc6("target", "_" + hs, "d_", direction, "_", ps, "pct");
    var t := TrainModel.TargetName(h, direction, pct);
    assert t == "target" + rest;
    assert t[6..] == rest;
  }

  /** Different settings of horizon and percent give different model names for one direction. */
  lemma ModelNameInjective(h1: int, h2: int, direction: string, p1: int, p2: int)
    requires ModelName(h1, direction, p1) == ModelName(h2, direction, p2)
    ensures h1 == h2 && p1 == p2
  {
    var a := IntToString(h1);
    var b := IntToString(h2);
    var u1 := "LGBM_" + a;
    var u2 := "LGBM_" + b;
    NoLetterD(a);
    NoLetterD(b);
    assert 'd' !in "LGBM_";
    ModelNameAtD(h1, direction, p1);
    ModelNameAtD(h2, direction, p2);
    SplitAfterPiece(u1, 'd', ModelTail(direction, p1));
    SplitAfterPiece(u2, 'd', ModelTail(direction, p2));
    assert u1 == Split(ModelName(h1, direction, p1), 'd')[0] == u2;
    assert a == u1[5..] == u2[5..] == b;
    IntToStringInjective(h1, h2);
    PercentOfModelName(h1, direction, p1, p2);
  }

  /** Two names that differ only in the percent differ in its spelling. */
  lemma PercentOfModelName(h: int, direction: string, p1: int, p2: int)
    requires ModelName(h, direction, p1) == ModelName(h, direction, p2)
    ensures p1 == p2
  {
    var pre := "LGBM_" + IntToString(h) + "d_" + direction + "_";
    var x := IntToString(p1);
    var y := IntToString(p2);
    var n := ModelName(h, direction, p1);
    assert n == pre + x + "pct" == pre + y + "pct";
    assert |x| == |y|;
    assert x == n[|pre|..|pre| + |x|] == y;
    IntToStringInjective(p1, p2);
  }

  /** What follows the `d` of the horizon in a model name. */
  function ModelTail(direction: string, pct: int): string
  {
    "_" + direction + "_" + IntToString(pct) + "pct"
  }

  /** A model name cut at the `d` that ends its horizon. */
  lemma ModelNameAtD(h: int, direction: string, pct: int)
    ensures ModelName(h, direction, pct) == "LGBM_" + IntToString(h) + ['d'] + ModelTail(direction, pct)
  {
    var u := "LGBM_" + IntToString(h);
    var ps := IntToString(pct);
    assert "d_" == ['d'] + "_";
    Reassoc5(u, "d_", direction, "_", ps, "pct");
    Reassoc5(['d'], "_", direction, "_", ps, "pct");
    AppendAssoc(u, ['d'], ModelTail(direction, pct));
  }

  /** A printed integer holds no 'd'. */
  lemma NoLetterD(digits: string)
    requires forall k :: 0 <= k < |digits| ==> IsDigit(digits[k]) || digits[k] == '-'
    ensures 'd' !in digits
  {
    forall k | 0 <= k < |digits| ensures digits[k] != 'd' {
      assert IsDigit(digits[k]) || digits[k] == '-';
    }
  }

  // -------------------------------------------------------------- selection

  /** What `load_model_from_db` returns when a row is found. */
  datatype Loaded = Loaded(model: seq<bv8>, scaler: seq<bv8>, features: seq<string>, version: int)

  /**
   * `load_model_from_db(ticker, model_name, version)`: a truthy version picks
   * that exact row, otherwise the greatest version; no row gives `None`.
   * `ok` says whether the connection, the query and the unpickling of the
   * row succeed; any exception among them also gives `None`.
   */
  function LoadModel(table: Table, ticker: string, name: string, version: Option<int>, ok: bool): (r: Option<Loaded>)
    ensures !ok ==> r.None?
    ensures r.Some? ==>
      (ticker, name, r.value.version) in table &&
      r.value.features == table[(ticker, name, r.value.version)].features &&
      r.value.model == table[(ticker, name, r.value.version)].model &&
      r.value.scaler == table[(ticker, name, r.value.version)].scaler
    ensures ok && version.Some? && version.value != 0 ==>
      (r.Some? <==> (ticker, name, version.value) in table) && (r.Some? ==> r.value.version == version.value)
    ensures ok && !(version.Some? && version.value != 0) ==>
      (r.Some? <==> exists v :: (ticker, name, v) in table) &&
      (r.Some? ==> forall v :: (ticker, name, v) in table ==> v <= r.value.version)
  {
    if !ok then None
    else
      match Select(table, ticker, name, version)
      case None => None
      case Some((v, rec)) => Some(Loaded(rec.model, rec.scaler, rec.features, v))
  }

  /** Version 0 behaves as no version: both load the latest model. */
  lemma VersionZeroIsLatest(table: Table, ticker: string, name: string, ok: bool)
    ensures LoadModel(table, ticker, name, Some(0), ok) == LoadModel(table, ticker, name, None, ok)
  {
  }

  /** The stored `features` string of the watch list, split on commas; missing or empty gives none. */
  function FeatureTickers(stored: Option<string>): (r: seq<string>)
    ensures r == [] <==> stored.None? || stored.value == ""
    ensures stored.Some? && stored.value != "" ==>
      |r| == Count(stored.value, ',') + 1 && Join(r, ",") == stored.value
  {
    if stored.None? || stored.value == "" then [] else JoinOfSplit(stored.value, ','); Split(stored.value, ',')
  }

  /** Writing the tickers joined by commas and reading them back gives the same tickers. */
  lemma FeatureTickersRoundTrip(tickers: seq<string>)
    requires |tickers| >= 1 && Join(tickers, ",") != ""
    requires forall i :: 0 <= i < |tickers| ==> ',' !in tickers[i]
    ensures FeatureTickers(Some(Join(tickers, ","))) == tickers
  {
    SplitOfJoin(tickers, ',');
  }

  // ------------------------------------------------- Bollinger-band labels

  /** An old-style band label: `BBL_`, `BBM_`, `BBU_`, `BBB_` or `BBP_` first and `_2.0` last. */
  predicate IsOldBand(e: string)
  {
    (StartsWith(e, "BBL_") || StartsWith(e, "BBM_") || StartsWith(e, "BBU_") ||
     StartsWith(e, "BBB_") || StartsWith(e, "BBP_")) && EndsWith(e, "_2.0")
  }

  function NewBand(e: string): string
  {
    e + "_2.0"
  }

  /** Whether the loop renames for expected feature `e` on table `f`. */
  predicate Renames(f: Frame, e: string)
  {
    IsOldBand(e) && NewBand(e) in f.columns && e !in f.columns
  }

  /** One pass of the loop: `<e>_2.0` becomes `e` when the first exists and the second does not. */
  function BandStep(f: Frame, e: string): Frame
  {
    if Renames(f, e) then RenameColumn(f, NewBand(e), e) else f
  }

  /** The loop over the model's expected features. */
  function RenameBands(f: Frame, expected: seq<string>): (g: Frame)
    ensures |g.rows| == |f.rows|
    decreases |expected|
  {
    if expected == [] then f else BandStep(RenameBands(f, expected[..|expected| - 1]), expected[|expected| - 1])
  }

  /** The renaming loop on the copy of the last feature row. */
  method AlignBands(f: Frame, expected: seq<string>) returns (g: Frame)
    ensures g == RenameBands(f, expected)
  {
    g := f;
    var i := 0;
    while i < |expected|
      invariant 0 <= i <= |expected|
      invariant g == RenameBands(f, expected[..i])
    {
      assert expected[..i + 1][..i] == expected[..i];
      var e := expected[i];
      if IsOldBand(e) && NewBand(e) in g.columns && e !in g.columns {
        g := RenameColumn(g, NewBand(e), e);
      }
      i := i + 1;
    }
    assert expected[..i] == expected;
  }

  /** Every label the loop may remove: the new-style name of an expected band. */
  function Sources(expected: seq<string>): set<string>
  {
    set e | e in expected :: NewBand(e)
  }

  /** What one pass changes: only `<e>_2.0` moves to `e`, and only when it renames. */
  lemma BandStepFacts(f: Frame, e: string)
    requires Valid(f)
    ensures var g := BandStep(f, e);
      Valid(g) && Days(g) == Days(f) &&
      (Renames(f, e) ==> g.columns == f.columns - {NewBand(e)} + {e} && Column(g, e) == Column(f, NewBand(e))) &&
      (!Renames(f, e) ==> g == f) &&
      forall c :: c != e && c != NewBand(e) ==> Column(g, c) == Column(f, c)
  {
    if Renames(f, e) {
      RenameColumnFacts(f, NewBand(e), e);
    }
  }

  /**
   * After the loop the table has the same rows and dates; every column that
   * is not the new-style name of an expected band is still there with the
   * same cells, and every label present is either an original one or an
   * expected feature.
   */
  lemma {:induction false} RenameBandsFacts(f: Frame, expected: seq<string>)
    requires Valid(f)
    ensures var g := RenameBands(f, expected);
      Valid(g) && Days(g) == Days(f) &&
      (forall c :: c in f.columns && c !in Sources(expected) ==> c in g.columns && Column(g, c) == Column(f, c)) &&
      (forall c :: c in g.columns ==> c in f.columns || c in expected)
    decreases |expected|
  {
    if expected != [] {
      var init := expected[..|expected| - 1];
      var e := expected[|expected| - 1];
      RenameBandsFacts(f, init);
      var h := RenameBands(f, init);
      BandStepFacts(h, e);
      assert Sources(init) <= Sources(expected);
      assert NewBand(e) in Sources(expected);
      forall c | c in h.columns
        ensures c in f.columns || c in expected
      {
        assert c in f.columns || c in init;
      }
    }
  }

  // ------------------------------------------------------ the input row

  /** Why the prediction row cannot be built: no feature rows, or expected features missing. */
  datatype RowError = NoRows | MissingFeatures(names: set<string>)

  /** `iloc[[-1]]`: the one-row table of the last row. */
  function LastRow(f: Frame): Frame
    requires f.rows != []
  {
    Frame(f.columns, [f.rows[|f.rows| - 1]])
  }

  /**
   * The cells the model is applied to: the last row after the band renames,
   * in the model's feature order; an empty feature table raises before the
   * renaming, and missing features make the prediction `None`.
   */
  function PredictionRow(all: Frame, expected: seq<string>): Result<seq<Cell>, RowError>
  {
    if all.rows == [] then Err(NoRows)
    else
      var g := RenameBands(LastRow(all), expected);
      var missing := set e | e in expected && e !in g.columns;
      if missing != {} then Err(MissingFeatures(missing))
      else Ok(seq(|expected|, i requires 0 <= i < |expected| => CellOf(g.rows[0], expected[i])))
  }

  /**
   * On a rectangular feature table the row is built exactly when every
   * expected feature is present after the renames; it holds one cell per
   * expected feature, and a feature the table already had under its own
   * name (not a new-style band name) keeps the last row's cell.
   */
  lemma PredictionRowFacts(all: Frame, expected: seq<string>)
    requires Valid(all) && all.rows != []
    ensures var r := PredictionRow(all, expected);
      var g := RenameBands(LastRow(all), expected);
      (r.Ok? <==> forall e :: e in expected ==> e in g.columns) &&
      (r.Ok? ==>
        |r.value| == |expected| &&
        forall i :: 0 <= i < |expected| && expected[i] in all.columns && expected[i] !in Sources(expected) ==>
          r.value[i] == CellOf(all.rows[|all.rows| - 1], expected[i]))
  {
    var last := LastRow(all);
    assert Valid(last);
    RenameBandsFacts(last, expected);
    var g := RenameBands(last, expected);
    var r := PredictionRow(all, expected);
    if r.Ok? {
      var missing := set e | e in expected && e !in g.columns;
      assert missing == {};
      forall e | e in expected
        ensures e in g.columns
      {
        assert e !in missing;
      }
      forall i | 0 <= i < |expected| && expected[i] in all.columns && expected[i] !in Sources(expected)
        ensures r.value[i] == CellOf(all.rows[|all.rows| - 1], expected[i])
      {
        assert Column(g, expected[i]) == Column(last, expected[i]);
        assert Column(g, expected[i])[0] == CellOf(g.rows[0], expected[i]);
      }
    } else {
      var missing := set e | e in expected && e !in g.columns;
      assert missing != {};
      var e :| e in missing;
      assert e in expected && e !in g.columns;
    }
  }

  // --------------------------------------------------------- target date

  /** `last_date + BusinessDay(n = horizon)`. */
  function TargetDate(last: int, h: int): int
  {
    AddBusinessDays(last, h)
  }

  /**
   * For a positive horizon the prediction is for the `h`-th Monday-to-Friday
   * day after the last feature date: a business day, strictly later.
   */
  lemma TargetDateFacts(last: int, h: int)
    requires h >= 1
    ensures TargetDate(last, h) == NthBusinessDayAfter(last, h)
    ensures IsBusinessDay(TargetDate(last, h)) && TargetDate(last, h) > last
  {
    AddBusinessDaysCorrect(last, h);
  }
}
