/**
 * script/diagnose_model.py: the model row an evaluation loads, the direction
 * read back from a model name, the evaluation window (complete rows dated
 * after the model was created), the class rule applied to a probability,
 * and the grouped listing of stored models.
 */
module Diagnose {
  import opened Wrappers
  import opened Text
  import opened Frames
  import opened Registry
  import Predict

  // -------------------------------------------------------------- direction

  /** `"up" if "up" in name else "down" if "down" in name else "不明"`. */
  function DirectionOf(name: string): string
  {
    if Contains(name, "up") then "up" else if Contains(name, "down") then "down" else "不明"
  }

  lemma NoLetterU(s: string)
    requires forall k :: 0 <= k < |s| ==> IsDigit(s[k]) || s[k] == '-'
    ensures 'u' !in s
  {
  }

  lemma NoLetterO(s: string)
    requires forall k :: 0 <= k < |s| ==> IsDigit(s[k]) || s[k] == '-'
    ensures 'o' !in s
  {
  }

  /**
   * The direction read back from a model name is the direction the name was
   * built with: no digit, sign or other letter of `LGBM_{h}d_down_{p}pct`
   * spells `up`.
   */
  lemma DirectionOfModelName(h: int, p: int)
    ensures DirectionOf(Predict.ModelName(h, "up", p)) == "up"
    ensures DirectionOf(Predict.ModelName(h, "down", p)) == "down"
  {
    var a := IntToString(h);
    var b := IntToString(p);
    assert Predict.ModelName(h, "up", p) == ("LGBM_" + a + "d_") + "up" + ("_" + b + "pct");
    ContainsInMiddle("LGBM_" + a + "d_", "up", "_" + b + "pct");
    var s := Predict.ModelName(h, "down", p);
    assert s == ("LGBM_" + a + "d_") + "down" + ("_" + b + "pct");
    ContainsInMiddle("LGBM_" + a + "d_", "down", "_" + b + "pct");
    NoLetterU(a);
    NoLetterU(b);
    assert s == "LGBM_" + a + "d_down_" + b + "pct";
    assert 'u' !in s;
    NotContainsWithoutHead(s, "up");
  }

  /** A name with neither a `u` nor an `o`, such as `LGBM_10d_flat_3pct`, reads as unknown. */
  lemma UnknownWithoutLetters(name: string)
    requires 'u' !in name && 'o' !in name
    ensures DirectionOf(name) == "不明"
  {
    NotContainsWithout(name, "up", 0);
    NotContainsWithout(name, "down", 1);
  }

  /**
   * A model name built with some other direction, one with neither a `u`
   * nor an `o` (such as "flat"), reads as unknown for every horizon and
   * percent: the `d` of the horizon never starts a `down`.
   */
  lemma OtherDirectionUnknown(h: int, direction: string, p: int)
    requires 'u' !in direction && 'o' !in direction
    ensures DirectionOf(Predict.ModelName(h, direction, p)) == "不明"
  {
    var a := IntToString(h);
    var b := IntToString(p);
    var s := Predict.ModelName(h, direction, p);
    NoLetterU(a);
    NoLetterU(b);
    NoLetterO(a);
    NoLetterO(b);
    assert s == "LGBM_" + a + "d_" + direction + "_" + b + "pct";
    UnknownWithoutLetters(s);
  }

  // -------------------------------------------------------------- selection

  /** What `load_model_for_evaluation` returns when a row is found. */
  datatype Evaluated = Evaluated(
    model: seq<bv8>, scaler: seq<bv8>, features: seq<string>,
    metrics: string, hyperparameters: string, created: int)

  /**
   * `load_model_for_evaluation(ticker, model_name, version)`: the same
   * selection as the prediction script, returning the row's metadata.
   * When the connection, the query or the unpickling fails (`ok` false),
   * the exception is caught and nothing is returned.
   */
  function LoadModelForEvaluation(table: Table, ticker: string, name: string, version: Option<int>, ok: bool): (r: Option<Evaluated>)
    ensures !ok ==> r.None?
    ensures ok && version.Some? && version.value != 0 ==>
      (r.Some? <==> (ticker, name, version.value) in table) &&
      (r.Some? ==> r.value.created == table[(ticker, name, version.value)].created)
    ensures ok && !(version.Some? && version.value != 0) ==>
      (r.Some? <==> exists v :: (ticker, name, v) in table)
  {
    if !ok then None
    else
      match Select(table, ticker, name, version)
      case None => None
      case Some((_, rec)) => Some(Evaluated(rec.model, rec.scaler, rec.features, rec.metrics, rec.hyperparameters, rec.created))
  }

  /**
   * Evaluation and prediction load the same stored row for the same
   * request: both find one or neither does, with the same model, scaler
   * and feature list, and the evaluation's metadata is that row's.
   */
  lemma SameRowAsPrediction(table: Table, ticker: string, name: string, version: Option<int>, ok: bool)
    ensures var e := LoadModelForEvaluation(table, ticker, name, version, ok);
      var p := Predict.LoadModel(table, ticker, name, version, ok);
      (e.Some? <==> p.Some?) &&
      (e.Some? ==>
        var rec := table[(ticker, name, p.value.version)];
        e.value.model == p.value.model && e.value.scaler == p.value.scaler &&
        e.value.features == p.value.features &&
        e.value.created == rec.created && e.value.metrics == rec.metrics)
  {
  }

  // ----------------------------------------------------- evaluation window

  /** Seconds in one day: a row's date is midnight of its day. */
  const DaySeconds := 86400

  /** The row's date is strictly later than the creation time (seconds since the epoch). */
  predicate After(r: Row, created: int)
  {
    r.day * DaySeconds > created
  }

  /** `targets_df[targets_df.index > creation_ts].dropna()`. */
  function EvaluationRows(rows: seq<Row>, created: int): seq<Row>
  {
    CompleteRows(Filter(rows, (r: Row) => After(r, created)))
  }

  lemma {:induction false} CompleteRowsFilter(rows: seq<Row>)
    ensures CompleteRows(rows) == Filter(rows, Complete)
  {
    if rows != [] {
      CompleteRowsFilter(rows[1..]);
    }
  }

  /**
   * A row is evaluated exactly when it is one of the table's rows, dated
   * strictly after the creation time, and has no missing cell; the
   * evaluated rows keep the table's order.
   */
  lemma EvaluationRowsMember(rows: seq<Row>, created: int, x: Row)
    ensures x in EvaluationRows(rows, created) <==> x in rows && After(x, created) && Complete(x)
  {
    var after := Filter(rows, (r: Row) => After(r, created));
    CompleteRowsFilter(after);
    FilterMember(after, Complete, x);
    FilterMember(rows, (r: Row) => After(r, created), x);
  }

  /** A model created at or after the last row's midnight has nothing to be evaluated on. */
  lemma NothingAfterLastRow(rows: seq<Row>, created: int)
    requires forall i :: 0 <= i < |rows| ==> rows[i].day * DaySeconds <= created
    ensures EvaluationRows(rows, created) == []
  {
    var out := EvaluationRows(rows, created);
    if out != [] {
      EvaluationRowsMember(rows, created, out[0]);
      assert false;
    }
  }

  /** Why an evaluation stops: no new rows, or too few to split. */
  datatype EvalError = NoNewData | TooFewRows(count: nat)

  /** `evaluate_model_performance`: an empty evaluation set returns `None`. */
  function EvaluationSet(rows: seq<Row>, created: int): (r: Result<seq<Row>, EvalError>)
    ensures r.Ok? <==> exists x :: x in rows && After(x, created) && Complete(x)
    ensures r.Ok? ==> r.value == EvaluationRows(rows, created) && r.value != []
  {
    var out := EvaluationRows(rows, created);
    if out == [] then
      forall x | x in rows && After(x, created) && Complete(x)
        ensures false
      {
        EvaluationRowsMember(rows, created, x);
      }
      Err(NoNewData)
    else
      EvaluationRowsMember(rows, created, out[0]);
      Ok(out)
  }

  /** `backtest_model_performance`: at least `2 * n_splits` evaluation rows are needed. */
  function BacktestSet(rows: seq<Row>, created: int, splits: int): (r: Result<seq<Row>, EvalError>)
    ensures r.Ok? <==> |EvaluationRows(rows, created)| >= 2 * splits
    ensures r.Err? ==> r.error == TooFewRows(|EvaluationRows(rows, created)|)
    ensures r.Ok? ==> forall x :: x in r.value ==> x in rows && After(x, created) && Complete(x)
  {
    var out := EvaluationRows(rows, created);
    if |out| < 2 * splits then Err(TooFewRows(|out|))
    else
      forall x | x in out
        ensures x in rows && After(x, created) && Complete(x)
      {
        EvaluationRowsMember(rows, created, x);
      }
      Ok(out)
  }

  // ------------------------------------------------------------- the class

  /** `(y_pred_proba > 0.5).astype(int)`. */
  function PredictedClass(p: real): (c: int)
    ensures c == 0 || c == 1
    ensures c == 1 <==> p > 0.5
  {
    if p > 0.5 then 1 else 0
  }

  /** The class rule is monotone in the probability, and an even chance gives class 0. */
  lemma PredictedClassMonotone(p: real, q: real)
    requires p <= q
    ensures PredictedClass(p) <= PredictedClass(q)
    ensures PredictedClass(0.5) == 0
  {
  }

  // ---------------------------------------------------------- the listing

  /** One row of the listing query: key, notes and creation time (none when not stored). */
  datatype Listed = Listed(ticker: string, name: string, version: int, notes: string, created: Option<int>)

  /** The lines `list_models` prints, without the formatting. */
  datatype Line =
    | NotFound(filter: Option<string>)
    | Title(filter: Option<string>)
    | TickerHeader(ticker: string)
    | NameHeader(name: string)
    | VersionLine(version: int, created: Option<int>)
    | DirectionLine(direction: string)
    | NotesLine(notes: string)
    | Rule

  /** Whether ticker argument restricts the query (`if ticker:`). */
  predicate Filters(ticker: Option<string>)
  {
    ticker.Some? && ticker.value != ""
  }

  /** The query's `WHERE ticker_symbol = ?`, applied to the ordered result. */
  function Selected(rows: seq<Listed>, ticker: Option<string>): (ms: seq<Listed>)
    ensures forall m :: m in ms <==> m in rows && (Filters(ticker) ==> m.ticker == ticker.value)
  {
    var t := if ticker.Some? then ticker.value else "";
    var ms := if Filters(ticker) then Filter(rows, (m: Listed) => m.ticker == t) else rows;
    forall m
      ensures m in ms <==> m in rows && (Filters(ticker) ==> m.ticker == ticker.value)
    {
      FilterMember(rows, (x: Listed) => x.ticker == t, m);
    }
    ms
  }

  /** A new ticker begins at entry `i`. */
  predicate NewTicker(ms: seq<Listed>, i: int)
    requires 0 <= i < |ms|
  {
    i == 0 || ms[i - 1].ticker != ms[i].ticker
  }

  /** A new model name begins at entry `i` (the name tracker is reset at a new ticker). */
  predicate NewName(ms: seq<Listed>, i: int)
    requires 0 <= i < |ms|
  {
    NewTicker(ms, i) || ms[i - 1].name != ms[i].name
  }

  /** The ticker header printed before entry `i`, if any. */
  function TickerPart(ms: seq<Listed>, i: int): seq<Line>
    requires 0 <= i < |ms|
  {
    if NewTicker(ms, i) then [TickerHeader(ms[i].ticker)] else []
  }

  /** The model-name header printed before entry `i`, if any. */
  function NamePart(ms: seq<Listed>, i: int): seq<Line>
    requires 0 <= i < |ms|
  {
    if NewName(ms, i) then [NameHeader(ms[i].name)] else []
  }

  /** The version and direction lines of an entry. */
  function BodyPart(m: Listed): seq<Line>
  {
    [VersionLine(m.version, m.created), DirectionLine(DirectionOf(m.name))]
  }

  /** The notes line of an entry, printed only when it has notes. */
  function NotesPart(m: Listed): seq<Line>
  {
    if m.notes != "" then [NotesLine(m.notes)] else []
  }

  /** The lines printed for entry `i`. */
  function EntryLines(ms: seq<Listed>, i: int): seq<Line>
    requires 0 <= i < |ms|
  {
    TickerPart(ms, i) + NamePart(ms, i) + BodyPart(ms[i]) + NotesPart(ms[i]) + [Rule]
  }

  /** The lines for the first `n` entries. */
  function Entries(ms: seq<Listed>, n: int): seq<Line>
    requires 0 <= n <= |ms|
  {
    if n == 0 then [] else Entries(ms, n - 1) + EntryLines(ms, n - 1)
  }

  /** Everything `list_models` prints for one query. */
  function Listing(rows: seq<Listed>, ticker: Option<string>): seq<Line>
  {
    var ms := Selected(rows, ticker);
    if ms == [] then [NotFound(ticker)] else [Title(ticker)] + Entries(ms, |ms|)
  }

  /**
   * The body of the printing loop for entry `i`: a ticker header when the
   * ticker changes (which also resets the name tracker), a name header when
   * the name changes, the version and direction lines, the notes when there
   * are some, and the rule; then the trackers hold this entry's ticker and name.
   */
  method EntryOutput(ms: seq<Listed>, i: int, currentTicker: Option<string>, currentName: Option<string>)
    returns (lines: seq<Line>, nextTicker: Option<string>, nextName: Option<string>)
    requires 0 <= i < |ms|
    requires i == 0 ==> currentTicker.None? && currentName.None?
    requires i > 0 ==> currentTicker == Some(ms[i - 1].ticker) && currentName == Some(ms[i - 1].name)
    ensures lines == EntryLines(ms, i)
    ensures nextTicker == Some(ms[i].ticker) && nextName == Some(ms[i].name)
  {
    var m := ms[i];
    nextTicker, nextName := currentTicker, currentName;
    lines := [];
    if nextTicker != Some(m.ticker) {
      lines := lines + [TickerHeader(m.ticker)];
      nextTicker := Some(m.ticker);
      nextName := None;
    }
    assert lines == TickerPart(ms, i);
    ghost var header := lines;
    if nextName != Some(m.name) {
      lines := lines + [NameHeader(m.name)];
      nextName := Some(m.name);
    }
    assert lines == header + NamePart(ms, i);
    lines := lines + [VersionLine(m.version, m.created), DirectionLine(DirectionOf(m.name))];
    if m.notes != "" {
      lines := lines + [NotesLine(m.notes)];
    }
    lines := lines + [Rule];
  }

  /** `list_models(ticker)` over the rows of the ordered query. */
  method ListModels(rows: seq<Listed>, ticker: Option<string>) returns (out: seq<Line>)
    ensures out == Listing(rows, ticker)
  {
    var ms := Selected(rows, ticker);
    if ms == [] {
      return [NotFound(ticker)];
    }
    out := [Title(ticker)];
    var currentTicker: Option<string> := None;
    var currentName: Option<string> := None;
    var i := 0;
    while i < |ms|
      invariant 0 <= i <= |ms|
      invariant out == [Title(ticker)] + Entries(ms, i)
      invariant i == 0 ==> currentTicker.None? && currentName.None?
      invariant i > 0 ==> currentTicker == Some(ms[i - 1].ticker) && currentName == Some(ms[i - 1].name)
    {
      var lines;
      lines, currentTicker, currentName := EntryOutput(ms, i, currentTicker, currentName);
      assert Entries(ms, i + 1) == Entries(ms, i) + lines;
      AppendAssoc([Title(ticker)], Entries(ms, i), lines);
      out := out + lines;
      i := i + 1;
    }
  }

  // ------------------------------------------------ what the listing shows

  function Tickers(ms: seq<Listed>): (ts: seq<string>)
    ensures |ts| == |ms| && forall i :: 0 <= i < |ms| ==> ts[i] == ms[i].ticker
  {
    seq(|ms|, i requires 0 <= i < |ms| => ms[i].ticker)
  }

  /** The sequence with each run of equal neighbours collapsed to one element. */
  function Runs(xs: seq<string>): seq<string>
  {
    if |xs| == 0 then []
    else Runs(xs[..|xs| - 1]) + (if |xs| == 1 || xs[|xs| - 2] != xs[|xs| - 1] then [xs[|xs| - 1]] else [])
  }

  /** Equal elements stand next to each other, as in a list ordered by that element. */
  predicate Grouped(xs: seq<string>)
  {
    forall i, j, k :: 0 <= i < j < k < |xs| && xs[i] == xs[k] ==> xs[j] == xs[i]
  }

  /** Every element of a list ordered by `LexLe` sits with its equals. */
  lemma SortedIsGrouped(xs: seq<string>)
    requires forall i, j :: 0 <= i < j < |xs| ==> LexLe(xs[i], xs[j])
    ensures Grouped(xs)
  {
    forall i, j, k | 0 <= i < j < k < |xs| && xs[i] == xs[k]
      ensures xs[j] == xs[i]
    {
      LexLeAntisymmetric(xs[i], xs[j]);
    }
  }

  predicate IsHeader(l: Line)
  {
    l.TickerHeader?
  }

  predicate IsVersion(l: Line)
  {
    l.VersionLine?
  }

  function Headers(lines: seq<Line>): seq<Line>
  {
    Filter(lines, IsHeader)
  }

  function AsHeaders(ts: seq<string>): (ls: seq<Line>)
    ensures |ls| == |ts| && forall k :: 0 <= k < |ts| ==> ls[k] == TickerHeader(ts[k])
  {
    seq(|ts|, k requires 0 <= k < |ts| => TickerHeader(ts[k]))
  }

  /** Filtering an entry's lines filters its parts one by one. */
  lemma FilterEntry(ms: seq<Listed>, i: int, keep: Line -> bool)
    requires 0 <= i < |ms|
    ensures Filter(EntryLines(ms, i), keep) ==
      Filter(TickerPart(ms, i), keep) + Filter(NamePart(ms, i), keep) + Filter(BodyPart(ms[i]), keep)
      + Filter(NotesPart(ms[i]), keep) + Filter([Rule], keep)
  {
    var a := TickerPart(ms, i);
    var b := NamePart(ms, i);
    var c := BodyPart(ms[i]);
    var d := NotesPart(ms[i]);
    FilterAppend(a + b + c + d, [Rule], keep);
    FilterAppend(a + b + c, d, keep);
    FilterAppend(a + b, c, keep);
    FilterAppend(a, b, keep);
  }

  lemma FilterPair(x: Line, y: Line, keep: Line -> bool)
    ensures Filter([x, y], keep) == (if keep(x) then [x] else []) + (if keep(y) then [y] else [])
  {
    assert [x, y][1..] == [y];
    assert [x, y][1..][1..] == [];
  }

  lemma EntryHeaders(ms: seq<Listed>, i: int)
    requires 0 <= i < |ms|
    ensures Filter(EntryLines(ms, i), IsHeader) == TickerPart(ms, i)
  {
    var m := ms[i];
    FilterEntry(ms, i, IsHeader);
    FilterPair(VersionLine(m.version, m.created), DirectionLine(DirectionOf(m.name)), IsHeader);
    assert [Rule][1..] == [];
    if NewTicker(ms, i) { assert [TickerHeader(m.ticker)][1..] == []; }
    if NewName(ms, i) { assert [NameHeader(m.name)][1..] == []; }
    if m.notes != "" { assert [NotesLine(m.notes)][1..] == []; }
  }

  /** The versions of an entry's lines are its one version line. */
  lemma EntryVersions(ms: seq<Listed>, i: int)
    requires 0 <= i < |ms|
    ensures Filter(EntryLines(ms, i), IsVersion) == [VersionLine(ms[i].version, ms[i].created)]
  {
    var m := ms[i];
    FilterEntry(ms, i, IsVersion);
    FilterPair(VersionLine(m.version, m.created), DirectionLine(DirectionOf(m.name)), IsVersion);
    assert [Rule][1..] == [];
    if NewTicker(ms, i) { assert [TickerHeader(m.ticker)][1..] == []; }
    if NewName(ms, i) { assert [NameHeader(m.name)][1..] == []; }
    if m.notes != "" { assert [NotesLine(m.notes)][1..] == []; }
  }

  lemma AsHeadersAppend(a: seq<string>, b: seq<string>)
    ensures AsHeaders(a + b) == AsHeaders(a) + AsHeaders(b)
  {
  }

  /** Extending the entries by one extends the runs of their tickers by that entry's ticker when it is new. */
  lemma RunsStep(ms: seq<Listed>, n: int)
    requires 0 < n <= |ms|
    ensures Runs(Tickers(ms)[..n]) ==
      Runs(Tickers(ms)[..n - 1]) + if NewTicker(ms, n - 1) then [ms[n - 1].ticker] else []
  {
    var ts := Tickers(ms)[..n];
    assert ts[..n - 1] == Tickers(ms)[..n - 1];
    assert ts[n - 1] == ms[n - 1].ticker;
    assert n > 1 ==> ts[n - 2] == ms[n - 2].ticker;
  }

  /**
   * A ticker header is printed exactly where the ticker changes: the
   * headers, in order, are the tickers with each run collapsed.
   */
  lemma {:induction false} HeadersAreRuns(ms: seq<Listed>, n: int)
    requires 0 <= n <= |ms|
    ensures Headers(Entries(ms, n)) == AsHeaders(Runs(Tickers(ms)[..n]))
  {
    if n > 0 {
      HeadersAreRuns(ms, n - 1);
      HeadersRunsStep(ms, n);
    } else {
      assert Tickers(ms)[..0] == [];
      assert AsHeaders([]) == [];
    }
  }

  lemma HeadersRunsStep(ms: seq<Listed>, n: int)
    requires 0 < n <= |ms|
    requires Headers(Entries(ms, n - 1)) == AsHeaders(Runs(Tickers(ms)[..n - 1]))
    ensures Headers(Entries(ms, n)) == AsHeaders(Runs(Tickers(ms)[..n]))
  {
    var extra := if NewTicker(ms, n - 1) then [ms[n - 1].ticker] else [];
    HeadersStep(ms, n);
    assert TickerPart(ms, n - 1) == AsHeaders(extra);
    RunsStep(ms, n);
    HeadersGlue(Headers(Entries(ms, n)), Headers(Entries(ms, n - 1)), TickerPart(ms, n - 1),
      Runs(Tickers(ms)[..n - 1]), extra, Runs(Tickers(ms)[..n]));
  }

  lemma HeadersGlue(h: seq<Line>, before: seq<Line>, part: seq<Line>, r: seq<string>, extra: seq<string>, rn: seq<string>)
    requires h == before + part && before == AsHeaders(r) && part == AsHeaders(extra) && rn == r + extra
    ensures h == AsHeaders(rn)
  {
    AsHeadersAppend(r, extra);
  }

  /** One more entry adds its ticker header, if any, to the headers so far. */
  lemma HeadersStep(ms: seq<Listed>, n: int)
    requires 0 < n <= |ms|
    ensures Headers(Entries(ms, n)) == Headers(Entries(ms, n - 1)) + TickerPart(ms, n - 1)
  {
    EntryHeaders(ms, n - 1);
    FilterAppend(Entries(ms, n - 1), EntryLines(ms, n - 1), IsHeader);
  }

  lemma {:induction false} RunsMember(xs: seq<string>, x: string)
    ensures x in Runs(xs) <==> x in xs
  {
    if |xs| > 0 {
      var init := xs[..|xs| - 1];
      RunsMember(init, x);
      assert xs == init + [xs[|xs| - 1]];
      if x in init && |xs| > 1 && x == xs[|xs| - 1] && xs[|xs| - 2] == xs[|xs| - 1] {
        assert xs[|xs| - 2] in init;
      }
    }
  }

  predicate Distinct(r: seq<string>)
  {
    forall i, j :: 0 <= i < j < |r| ==> r[i] != r[j]
  }

  lemma DistinctSnoc(r: seq<string>, x: string)
    requires Distinct(r) && x !in r
    ensures Distinct(r + [x])
  {
  }

  /** In a grouped list every element appears once among the runs. */
  lemma {:induction false} RunsDistinct(xs: seq<string>)
    requires Grouped(xs)
    ensures Distinct(Runs(xs))
  {
    if |xs| > 0 {
      var n := |xs|;
      var init := xs[..n - 1];
      assert Grouped(init);
      RunsDistinct(init);
      RunsDistinctStep(xs);
    }
  }

  lemma RunsDistinctStep(xs: seq<string>)
    requires |xs| > 0 && Grouped(xs) && Distinct(Runs(xs[..|xs| - 1]))
    ensures Distinct(Runs(xs))
  {
    var n := |xs|;
    var init := xs[..n - 1];
    if n == 1 || xs[n - 2] != xs[n - 1] {
      assert Runs(xs) == Runs(init) + [xs[n - 1]];
      GroupedNewLast(xs);
      RunsMember(init, xs[n - 1]);
      DistinctSnoc(Runs(init), xs[n - 1]);
    } else {
      assert Runs(xs) == Runs(init) + [];
    }
  }

  /** In a grouped list, an element unequal to its predecessor does not occur earlier. */
  lemma GroupedNewLast(xs: seq<string>)
    requires |xs| > 0 && Grouped(xs)
    requires |xs| == 1 || xs[|xs| - 2] != xs[|xs| - 1]
    ensures xs[|xs| - 1] !in xs[..|xs| - 1]
  {
    var n := |xs|;
    var init := xs[..n - 1];
    forall m | 0 <= m < n - 1
      ensures init[m] != xs[n - 1]
    {
      assert init[m] == xs[m];
      if m < n - 2 {
        assert xs[n - 2] != xs[n - 1];
      }
    }
  }

  /** Headers of an ordered run of entries: distinct, one per ticker. */
  lemma HeadersOfSorted(ms: seq<Listed>)
    requires forall i, j :: 0 <= i < j < |ms| ==> LexLe(ms[i].ticker, ms[j].ticker)
    ensures var hs := Headers(Entries(ms, |ms|));
      (forall i, j :: 0 <= i < j < |hs| ==> hs[i] != hs[j]) &&
      (forall t :: TickerHeader(t) in hs <==> t in Tickers(ms))
  {
    var ts := Tickers(ms);
    assert ts[..|ms|] == ts;
    HeadersAreRuns(ms, |ms|);
    SortedIsGrouped(ts);
    RunsDistinct(ts);
    var r := Runs(ts);
    var hs := Headers(Entries(ms, |ms|));
    assert hs == AsHeaders(r);
    forall t
      ensures TickerHeader(t) in hs <==> t in ts
    {
      RunsMember(ts, t);
      if TickerHeader(t) in hs {
        var k :| 0 <= k < |hs| && hs[k] == TickerHeader(t);
        assert r[k] == t;
      }
      if t in ts {
        var k :| 0 <= k < |r| && r[k] == t;
        assert hs[k] == TickerHeader(t);
      }
    }
  }

  lemma InTickers(ms: seq<Listed>, t: string)
    ensures t in Tickers(ms) <==> exists m :: m in ms && m.ticker == t
  {
    var ts := Tickers(ms);
    if t in ts {
      var k :| 0 <= k < |ts| && ts[k] == t;
      assert ms[k] in ms;
    }
    if exists m :: m in ms && m.ticker == t {
      var m :| m in ms && m.ticker == t;
      var k :| 0 <= k < |ms| && ms[k] == m;
      assert ts[k] == t;
    }
  }

  /**
   * For rows ordered by ticker, as the query orders them, the listing
   * prints one header for each listed ticker and no other header.
   */
  lemma OneHeaderPerTicker(rows: seq<Listed>, ticker: Option<string>)
    requires var ms := Selected(rows, ticker);
      forall i, j :: 0 <= i < j < |ms| ==> LexLe(ms[i].ticker, ms[j].ticker)
    ensures var ms := Selected(rows, ticker);
      var hs := Headers(Entries(ms, |ms|));
      (forall i, j :: 0 <= i < j < |hs| ==> hs[i] != hs[j]) &&
      (forall t :: TickerHeader(t) in hs <==> exists m :: m in ms && m.ticker == t)
  {
    var ms := Selected(rows, ticker);
    HeadersOfSorted(ms);
    forall t
      ensures t in Tickers(ms) <==> exists m :: m in ms && m.ticker == t
    {
      InTickers(ms, t);
    }
  }

  /** `vs` holds the version lines of the first `n` entries, in order. */
  predicate ListsVersions(vs: seq<Line>, ms: seq<Listed>, n: int)
  {
    0 <= n <= |ms| && |vs| == n && forall i :: 0 <= i < n ==> vs[i] == VersionLine(ms[i].version, ms[i].created)
  }

  /** Every listed entry gets its version line, in query order. */
  lemma {:induction false} VersionLines(ms: seq<Listed>, n: int)
    requires 0 <= n <= |ms|
    ensures ListsVersions(Filter(Entries(ms, n), IsVersion), ms, n)
  {
    if n > 0 {
      VersionLines(ms, n - 1);
      VersionLinesNext(ms, n);
    } else {
      assert Filter(Entries(ms, 0), IsVersion) == [];
    }
  }

  lemma VersionLinesNext(ms: seq<Listed>, n: int)
    requires 0 < n <= |ms|
    requires ListsVersions(Filter(Entries(ms, n - 1), IsVersion), ms, n - 1)
    ensures ListsVersions(Filter(Entries(ms, n), IsVersion), ms, n)
  {
    VersionLinesStep(ms, n);
    VersionsStep(Filter(Entries(ms, n - 1), IsVersion), ms, n);
  }

  lemma VersionLinesStep(ms: seq<Listed>, n: int)
    requires 0 < n <= |ms|
    ensures Filter(Entries(ms, n), IsVersion) ==
      Filter(Entries(ms, n - 1), IsVersion) + [VersionLine(ms[n - 1].version, ms[n - 1].created)]
  {
    EntryVersions(ms, n - 1);
    FilterAppend(Entries(ms, n - 1), EntryLines(ms, n - 1), IsVersion);
  }

  lemma VersionsStep(pv: seq<Line>, ms: seq<Listed>, n: int)
    requires 0 < n <= |ms| && ListsVersions(pv, ms, n - 1)
    ensures ListsVersions(pv + [VersionLine(ms[n - 1].version, ms[n - 1].created)], ms, n)
  {
  }
}
