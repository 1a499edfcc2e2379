/**
 * The macro-indicator loader: `--indicators ID:name` arguments become an
 * ordered map from FRED series id to stored name (the four default series
 * otherwise), the fetched observations are resampled to calendar days with a
 * forward fill, and every non-missing daily value is upserted on
 * (series name, date) inside one transaction.
 *
 * A Python dict is modelled as its distinct keys in insertion order together
 * with a map: re-binding a key keeps its position and replaces its value.
 * The fetch from FRED is a parameter (the frame whose columns are the ids).
 */
module UpdateEconomicData {
  import opened Wrappers
  import opened Text
  import opened Cells
  import opened Frames

  type Assoc = seq<(string, string)>

  /**
   * A Python dict from FRED id to stored name: its keys in insertion order,
   * and the mapping.
   */
  datatype Dict = Dict(order: seq<string>, names: map<string, string>)

  /** Keys appear once in the order, and exactly the mapped keys appear. */
  predicate DictValid(d: Dict)
  {
    (forall i, j :: 0 <= i < j < |d.order| ==> d.order[i] != d.order[j])
    && (forall k :: k in d.names ==> k in d.order)
    && (forall i :: 0 <= i < |d.order| ==> d.order[i] in d.names)
  }

  /** `d[k] = v`: an existing key keeps its place, a new key goes last. */
  function Bind(d: Dict, k: string, v: string): (r: Dict)
    ensures DictValid(d) ==> DictValid(r)
    ensures r.names.Keys == d.names.Keys + {k} && r.names[k] == v
  {
    if k in d.names then Dict(d.order, d.names[k := v])
    else Dict(d.order + [k], d.names[k := v])
  }

  /** The (id, name) pairs in iteration order. */
  function Entries(d: Dict): (es: Assoc)
    requires DictValid(d)
    ensures |es| == |d.order|
    ensures forall i :: 0 <= i < |es| ==> es[i].0 == d.order[i] && es[i].0 in d.names && es[i].1 == d.names[es[i].0]
  {
    seq(|d.order|, i requires 0 <= i < |d.order| => (d.order[i], d.names[d.order[i]]))
  }

  /** The text before the first `c` (all of `s` when there is none). */
  function Before(s: string, c: char): (r: string)
    ensures c !in r
    ensures c !in s ==> r == s
  {
    if s == [] || s[0] == c then [] else [s[0]] + Before(s[1..], c)
  }

  /** The text after the first `c`. */
  function After(s: string, c: char): string
  {
    if s == [] then [] else if s[0] == c then s[1..] else After(s[1..], c)
  }

  /** `s.split(c)` is the text before the first `c`, then the split of the text after it. */
  lemma {:induction false} SplitFirst(s: string, c: char)
    ensures Split(s, c)[0] == Before(s, c)
    ensures c in s ==> Split(s, c)[1..] == Split(After(s, c), c)
  {
    if s != [] {
      SplitFirst(s[1..], c);
      if s[0] != c {
        assert s[1..] == s[1..];
        assert c in s ==> c in s[1..];
      }
    }
  }

  /**
   * `(item.split(':')[0], item.split(':')[1])`; None where the second raises
   * IndexError, which is exactly when the item has no colon.
   */
  function ParseItem(item: string): (r: Option<(string, string)>)
    ensures r.Some? <==> ':' in item
    ensures r.Some? ==> ':' !in r.value.0 && ':' !in r.value.1
  {
    if ':' !in item then None else Some((Before(item, ':'), Before(After(item, ':'), ':')))
  }

  /** The parse is the first two pieces of Python's split on ':'. */
  lemma ParseItemIsSplit(item: string)
    requires ':' in item
    ensures |Split(item, ':')| >= 2
    ensures ParseItem(item) == Some((Split(item, ':')[0], Split(item, ':')[1]))
  {
    SplitFirst(item, ':');
    SplitFirst(After(item, ':'), ':');
    assert Split(item, ':')[1] == Split(item, ':')[1..][0];
  }

  /** Cutting at the first `c` of `x + [c] + rest` gives back `x` and `rest`. */
  lemma {:induction false} CutAtFirst(x: string, c: char, rest: string)
    requires c !in x
    ensures Before(x + [c] + rest, c) == x
    ensures After(x + [c] + rest, c) == rest
  {
    if x == [] {
      assert x + [c] + rest == [c] + rest;
    } else {
      CutAtFirst(x[1..], c, rest);
      assert (x + [c] + rest)[1..] == x[1..] + [c] + rest;
      assert [x[0]] + x[1..] == x;
    }
  }

  /** Text after a second colon is ignored. */
  lemma SecondColonIgnored(id: string, name: string, tail: string)
    requires ':' !in id && ':' !in name
    ensures ParseItem(id + ":" + name + ":" + tail) == Some((id, name))
  {
    assert id + ":" + name + ":" + tail == id + [':'] + (name + [':'] + tail);
    CutAtFirst(id, ':', name + [':'] + tail);
    CutAtFirst(name, ':', tail);
  }

  /** An item with exactly one colon is split at it. */
  lemma OneColon(id: string, name: string)
    requires ':' !in id && ':' !in name
    ensures ParseItem(id + ":" + name) == Some((id, name))
  {
    assert id + ":" + name == id + [':'] + name;
    CutAtFirst(id, ':', name);
  }

  /** The dict comprehension of line 85: later items re-bind earlier ids; any malformed item aborts. */
  function ParseIndicators(items: seq<string>): Option<Dict>
    decreases |items|
  {
    if items == [] then Some(Dict([], map[]))
    else
      match ParseIndicators(items[..|items| - 1])
      case None => None
      case Some(d) =>
        match ParseItem(items[|items| - 1])
        case None => None
        case Some(p) => Some(Bind(d, p.0, p.1))
  }

  /** The id and name of a well-formed item. */
  function IdOf(item: string): string
    requires ':' in item
  {
    Before(item, ':')
  }

  function NameOf(item: string): string
    requires ':' in item
  {
    Before(After(item, ':'), ':')
  }

  predicate AllColons(items: seq<string>)
  {
    forall i :: 0 <= i < |items| ==> ':' in items[i]
  }

  /** All items have a colon exactly when all but the last do and the last does. */
  lemma AllColonsSnoc(items: seq<string>)
    requires items != []
    ensures AllColons(items) <==> AllColons(items[..|items| - 1]) && ':' in items[|items| - 1]
  {
    var init := items[..|items| - 1];
    assert forall i :: 0 <= i < |init| ==> init[i] == items[i];
  }

  /** One more item: the parse so far, re-bound with the item's pair. */
  lemma ParseSnoc(items: seq<string>)
    requires items != []
    ensures var init := items[..|items| - 1]; var last := items[|items| - 1];
      ParseIndicators(items) ==
        if ParseIndicators(init).None? || ':' !in last then None
        else Some(Bind(ParseIndicators(init).value, ParseItem(last).value.0, ParseItem(last).value.1))
  {
  }

  /** Parsing succeeds exactly when every item has a colon, and yields a well-formed dict. */
  lemma {:induction false} ParseSucceeds(items: seq<string>)
    ensures ParseIndicators(items).Some? <==> AllColons(items)
    ensures ParseIndicators(items).Some? ==> DictValid(ParseIndicators(items).value)
    decreases |items|
  {
    if items != [] {
      var n := |items| - 1;
      ParseSucceeds(items[..n]);
      AllColonsSnoc(items);
      ParseSnoc(items);
    }
  }

  predicate HasId(items: seq<string>, k: string)
    requires AllColons(items)
  {
    exists i :: 0 <= i < |items| && IdOf(items[i]) == k
  }

  /** Some item has id `k` exactly when one before the last does, or the last does. */
  lemma HasIdSnoc(items: seq<string>, k: string)
    requires items != [] && AllColons(items) && AllColons(items[..|items| - 1])
    ensures HasId(items, k) <==> HasId(items[..|items| - 1], k) || IdOf(items[|items| - 1]) == k
  {
    var n := |items| - 1;
    var init := items[..n];
    if HasId(init, k) {
      var i :| 0 <= i < |init| && IdOf(init[i]) == k;
      assert init[i] == items[i];
    }
    if HasId(items, k) && IdOf(items[n]) != k {
      var i :| 0 <= i < |items| && IdOf(items[i]) == k;
      assert i < n && init[i] == items[i];
    }
  }

  /** The ids of the parsed dict are those of the items. */
  lemma {:induction false} ParseKeys(items: seq<string>, k: string)
    requires AllColons(items)
    ensures ParseIndicators(items).Some?
    ensures k in ParseIndicators(items).value.names <==> exists i :: 0 <= i < |items| && IdOf(items[i]) == k
    decreases |items|
  {
    ParseSucceeds(items);
    if items != [] {
      var n := |items| - 1;
      var init := items[..n];
      AllColonsSnoc(items);
      ParseKeys(init, k);
      ParseSnoc(items);
      HasIdSnoc(items, k);
      var d0 := ParseIndicators(init).value;
      var p := ParseItem(items[n]).value;
      assert ParseIndicators(items).value.names.Keys == d0.names.Keys + {p.0};
      assert p.0 == IdOf(items[n]);
      assert (k in d0.names) == HasId(init, k);
    }
  }

  /** The id-to-name bindings of well-formed items, later items re-binding earlier ids. */
  function NamesOf(items: seq<string>): map<string, string>
    requires AllColons(items)
    decreases |items|
  {
    if items == [] then map[]
    else
      var n := |items| - 1;
      assert AllColons(items[..n]) by { AllColonsSnoc(items); }
      NamesOf(items[..n])[IdOf(items[n]) := NameOf(items[n])]
  }

  /** A successful parse binds exactly `NamesOf`. */
  lemma {:induction false} ParseNames(items: seq<string>)
    requires AllColons(items)
    ensures ParseIndicators(items).Some? && ParseIndicators(items).value.names == NamesOf(items)
    decreases |items|
  {
    ParseSucceeds(items);
    if items != [] {
      AllColonsSnoc(items);
      ParseNames(items[..|items| - 1]);
      ParseSnoc(items);
    }
  }

  lemma {:induction false} NamesLastWins(items: seq<string>, i: int)
    requires AllColons(items) && 0 <= i < |items|
    requires forall j :: i < j < |items| ==> IdOf(items[j]) != IdOf(items[i])
    ensures IdOf(items[i]) in NamesOf(items) && NamesOf(items)[IdOf(items[i])] == NameOf(items[i])
    decreases |items|
  {
    var n := |items| - 1;
    if i < n {
      var init := items[..n];
      AllColonsSnoc(items);
      assert init[i] == items[i];
      forall j | i < j < n ensures IdOf(init[j]) != IdOf(init[i]) {
        assert init[j] == items[j];
      }
      NamesLastWins(init, i);
    }
  }

  /** Each id maps to the name of its last occurrence: a later duplicate wins. */
  lemma ParseLastWins(items: seq<string>, i: int)
    requires AllColons(items) && 0 <= i < |items|
    requires forall j :: i < j < |items| ==> IdOf(items[j]) != IdOf(items[i])
    ensures ParseIndicators(items).Some?
    ensures var d := ParseIndicators(items).value;
      IdOf(items[i]) in d.names && d.names[IdOf(items[i])] == NameOf(items[i])
  {
    ParseNames(items);
    NamesLastWins(items, i);
  }

  /** An item without a colon makes the whole argument list fail, so no update runs. */
  lemma MalformedItemAborts(items: seq<string>, i: int)
    requires 0 <= i < |items| && ':' !in items[i]
    ensures ParseIndicators(items) == None
  {
    ParseSucceeds(items);
  }

  /** Two items for one id: the id appears once, with the later name. */
  lemma LaterDuplicateWins(id: string, first: string, second: string)
    requires ':' !in id && ':' !in first && ':' !in second
    ensures ParseIndicators([id + ":" + first, id + ":" + second]) == Some(Dict([id], map[id := second]))
  {
    OneColon(id, first);
    OneColon(id, second);
    ParseTwo(id + ":" + first, id + ":" + second);
    var one := Bind(Dict([], map[]), id, first);
    assert one == Dict([id], map[id := first]);
    assert Bind(one, id, second) == Dict([id], map[id := first][id := second]);
    assert map[id := first][id := second] == map[id := second];
  }

  /** Two well-formed items: the empty dict bound with the first pair, then with the second. */
  lemma ParseTwo(a: string, b: string)
    requires ParseItem(a).Some? && ParseItem(b).Some?
    ensures ParseIndicators([a, b]) == Some(Bind(Bind(Dict([], map[]), ParseItem(a).value.0, ParseItem(a).value.1),
                                                ParseItem(b).value.0, ParseItem(b).value.1))
  {
    var items := [a, b];
    assert items[..1] == [a] && items[..1][..0] == [];
    assert ParseIndicators([a]) == Some(Bind(Dict([], map[]), ParseItem(a).value.0, ParseItem(a).value.1));
  }

  /** The series loaded when no `--indicators` are given, in this order. */
  const DefaultSeries: Dict := Dict(
    ["CPIAUCSL", "UNRATE", "FEDFUNDS", "DGS10"],
    map["CPIAUCSL" := "cpi", "UNRATE" := "unemployment_rate",
        "FEDFUNDS" := "fed_funds_rate", "DGS10" := "10y_treasury_yield"])

  /** The series to load: the defaults for an empty argument list, otherwise the parsed items. */
  function SelectSeries(indicators: seq<string>): (r: Option<Dict>)
    ensures indicators == [] ==> r == Some(DefaultSeries)
    ensures indicators != [] ==> r == ParseIndicators(indicators)
  {
    if indicators == [] then Some(DefaultSeries) else ParseIndicators(indicators)
  }

  /** The defaults are four distinct series, each loaded under its stored name, in this order. */
  lemma DefaultSeriesFacts()
    ensures DictValid(DefaultSeries)
    ensures Entries(DefaultSeries) == [
      ("CPIAUCSL", "cpi"), ("UNRATE", "unemployment_rate"),
      ("FEDFUNDS", "fed_funds_rate"), ("DGS10", "10y_treasury_yield")]
  {
  }

  // ---------------------------------------------------------------------------
  // Daily resampling with a forward fill
  // ---------------------------------------------------------------------------

  /** The position of the last row dated on or before `d`. */
  function LastAtOrBefore(rows: seq<Row>, d: int): (k: int)
    requires rows != [] && rows[0].day <= d
    ensures 0 <= k < |rows| && rows[k].day <= d
    ensures forall j :: k < j < |rows| ==> rows[j].day > d
  {
    var n := |rows| - 1;
    if rows[n].day <= d || n == 0 then n else LastAtOrBefore(rows[..n], d)
  }

  /** Number of calendar days from the first to the last row, both included. */
  function DaySpan(rows: seq<Row>): nat
  {
    if rows == [] || rows[|rows| - 1].day < rows[0].day then 0
    else rows[|rows| - 1].day - rows[0].day + 1
  }

  /**
   * `resample('D').ffill()`: one row per calendar day from the first date to
   * the last, holding the whole row of the latest observation on or before
   * that day (a missing value in that row stays missing).
   */
  function Daily(f: Frame): Frame
  {
    if f.rows == [] then f
    else
      var first := f.rows[0].day;
      Frame(f.columns, seq(DaySpan(f.rows), k requires 0 <= k < DaySpan(f.rows)
        => Row(first + k, f.rows[LastAtOrBefore(f.rows, first + k)].cells)))
  }

  /** On a sorted index, the daily frame has one row per day from the first date to the last, in order. */
  lemma DailyDays(f: Frame)
    requires Increasing(f) && f.rows != []
    ensures |Daily(f).rows| == f.rows[|f.rows| - 1].day - f.rows[0].day + 1
    ensures Daily(f).columns == f.columns
    ensures forall k :: 0 <= k < |Daily(f).rows| ==> Daily(f).rows[k].day == f.rows[0].day + k
    ensures Increasing(Daily(f))
  {
    var n := |f.rows| - 1;
    if n > 0 { assert f.rows[0].day < f.rows[n].day; }
  }

  /** Day `k` carries the row of the latest observation on or before it, never a later one. */
  lemma DailyLatest(f: Frame, k: int)
    requires f.rows != [] && 0 <= k < |Daily(f).rows|
    ensures var g := Daily(f);
      exists i :: 0 <= i < |f.rows| && f.rows[i].day <= g.rows[k].day && g.rows[k].cells == f.rows[i].cells
        && (forall j :: i < j < |f.rows| ==> f.rows[j].day > g.rows[k].day)
  {
    var i := LastAtOrBefore(f.rows, f.rows[0].day + k);
    assert Daily(f).rows[k].cells == f.rows[i].cells;
  }

  /** An observed date keeps its own row, missing values included. */
  lemma DailyKeepsObserved(f: Frame, i: int)
    requires Increasing(f) && 0 <= i < |f.rows|
    ensures 0 <= f.rows[i].day - f.rows[0].day < |Daily(f).rows|
    ensures Daily(f).rows[f.rows[i].day - f.rows[0].day].cells == f.rows[i].cells
  {
    var n := |f.rows| - 1;
    if i > 0 { assert f.rows[0].day < f.rows[i].day; }
    if i < n { assert f.rows[i].day < f.rows[n].day; }
    var k := LastAtOrBefore(f.rows, f.rows[i].day);
  }

  // ---------------------------------------------------------------------------
  // Storage
  // ---------------------------------------------------------------------------

  /** A row of `macro_economic_indicators` is keyed by (series name, date). */
  type IndicatorKey = (string, int)

  type Item = (IndicatorKey, Cell)

  /** `series.dropna().items()` for the column of `series.0`, keyed by the stored name `series.1`. */
  function ItemsOf(series: (string, string), rows: seq<Row>): seq<Item>
    decreases |rows|
  {
    if rows == [] then []
    else
      var last := rows[|rows| - 1];
      var v := CellOf(last, series.0);
      ItemsOf(series, rows[..|rows| - 1]) + (if v == NaN then [] else [((series.1, last.day), v)])
  }

  /** All items, series by series in the order of the mapping. */
  function Items(series: Assoc, rows: seq<Row>): seq<Item>
    decreases |series|
  {
    if series == [] then []
    else Items(series[..|series| - 1], rows) + ItemsOf(series[|series| - 1], rows)
  }

  /** Upserting the items in order: a later item for the same key overwrites an earlier one. */
  function StoreAll(table: map<IndicatorKey, Cell>, items: seq<Item>): map<IndicatorKey, Cell>
    decreases |items|
  {
    if items == [] then table
    else
      var last := items[|items| - 1];
      StoreAll(table, items[..|items| - 1])[last.0 := last.1]
  }

  /** Some row of the frame has the item's day and value in column `series.0`. */
  predicate ObservedIn(series: (string, string), rows: seq<Row>, x: Item)
  {
    exists j :: 0 <= j < |rows| && rows[j].day == x.0.1 && CellOf(rows[j], series.0) == x.1
  }

  lemma ObservedInSnoc(series: (string, string), rows: seq<Row>, x: Item)
    requires rows != []
    ensures var n := |rows| - 1;
      ObservedIn(series, rows, x) <==>
        ObservedIn(series, rows[..n], x) || (rows[n].day == x.0.1 && CellOf(rows[n], series.0) == x.1)
  {
    var n := |rows| - 1;
    if ObservedIn(series, rows, x) {
      var j :| 0 <= j < |rows| && rows[j].day == x.0.1 && CellOf(rows[j], series.0) == x.1;
      if j < n { assert rows[..n][j] == rows[j]; }
    }
    if ObservedIn(series, rows[..n], x) {
      var j :| 0 <= j < n && rows[..n][j].day == x.0.1 && CellOf(rows[..n][j], series.0) == x.1;
      assert rows[..n][j] == rows[j];
    }
  }

  /** The items of one series are exactly its non-missing values, under its stored name. */
  lemma {:induction false} ItemsOfMember(series: (string, string), rows: seq<Row>, x: Item)
    ensures x in ItemsOf(series, rows) <==>
      x.0.0 == series.1 && x.1 != NaN && ObservedIn(series, rows, x)
    decreases |rows|
  {
    if rows != [] {
      var n := |rows| - 1;
      ItemsOfMember(series, rows[..n], x);
      ObservedInSnoc(series, rows, x);
    }
  }

  /** Positions whose value in column `id` is present. */
  function Present(id: string, rows: seq<Row>): set<int>
  {
    set j | 0 <= j < |rows| && CellOf(rows[j], id) != NaN
  }

  lemma PresentSnoc(id: string, rows: seq<Row>)
    requires rows != []
    ensures var n := |rows| - 1;
      Present(id, rows) == Present(id, rows[..n]) + (if CellOf(rows[n], id) != NaN then {n} else {})
      && n !in Present(id, rows[..n])
  {
    var n := |rows| - 1;
    var extra: set<int> := if CellOf(rows[n], id) != NaN then {n} else {};
    forall j | j in Present(id, rows) ensures j in Present(id, rows[..n]) + extra {
      if j < n { assert rows[..n][j] == rows[j]; }
    }
    forall j | j in Present(id, rows[..n]) ensures j in Present(id, rows) {
      assert rows[..n][j] == rows[j];
    }
  }

  /** One item is written, and counted, per non-missing value. */
  lemma {:induction false} ItemsOfCount(series: (string, string), rows: seq<Row>)
    ensures |ItemsOf(series, rows)| == |Present(series.0, rows)|
    decreases |rows|
  {
    if rows != [] {
      var n := |rows| - 1;
      ItemsOfCount(series, rows[..n]);
      PresentSnoc(series.0, rows);
    }
  }

  /** Some series of the mapping has `x` among its items. */
  predicate InSomeSeries(series: Assoc, rows: seq<Row>, x: Item)
  {
    exists s :: 0 <= s < |series| && x in ItemsOf(series[s], rows)
  }

  lemma InSomeSeriesSnoc(series: Assoc, rows: seq<Row>, x: Item)
    requires series != []
    ensures var n := |series| - 1;
      InSomeSeries(series, rows, x) <==> InSomeSeries(series[..n], rows, x) || x in ItemsOf(series[n], rows)
  {
    var n := |series| - 1;
    if InSomeSeries(series, rows, x) {
      var s :| 0 <= s < |series| && x in ItemsOf(series[s], rows);
      if s < n { assert series[..n][s] == series[s]; }
    }
    if InSomeSeries(series[..n], rows, x) {
      var s :| 0 <= s < n && x in ItemsOf(series[..n][s], rows);
      assert series[..n][s] == series[s];
    }
  }

  lemma {:induction false} ItemsMember(series: Assoc, rows: seq<Row>, x: Item)
    ensures x in Items(series, rows) <==> InSomeSeries(series, rows, x)
    decreases |series|
  {
    if series != [] {
      var n := |series| - 1;
      ItemsMember(series[..n], rows, x);
      InSomeSeriesSnoc(series, rows, x);
    }
  }

  /** An upsert adds exactly the items' keys to the table. */
  lemma {:induction false} StoreAllKeys(table: map<IndicatorKey, Cell>, items: seq<Item>, k: IndicatorKey)
    ensures k in StoreAll(table, items) <==> k in table || exists i :: 0 <= i < |items| && items[i].0 == k
    decreases |items|
  {
    if items != [] {
      var n := |items| - 1;
      var init := items[..n];
      StoreAllKeys(table, init, k);
      assert StoreAll(table, items) == StoreAll(table, init)[items[n].0 := items[n].1];
      if k in StoreAll(table, init) && k !in table {
        var i :| 0 <= i < |init| && init[i].0 == k;
        assert items[i] == init[i];
      } else if k != items[n].0 && k !in table {
        forall i | 0 <= i < |items| ensures items[i].0 != k {
          if i < n { assert items[i] == init[i]; }
        }
      }
    }
  }

  /** Rows whose key no item carries are left as they were. */
  lemma {:induction false} StoreAllKeeps(table: map<IndicatorKey, Cell>, items: seq<Item>, k: IndicatorKey)
    requires k in table && forall i :: 0 <= i < |items| ==> items[i].0 != k
    ensures k in StoreAll(table, items) && StoreAll(table, items)[k] == table[k]
    decreases |items|
  {
    if items != [] {
      var n := |items| - 1;
      var init := items[..n];
      assert forall i :: 0 <= i < |init| ==> init[i] == items[i];
      StoreAllKeeps(table, init, k);
    }
  }

  /** The last item for a key decides the stored value. */
  lemma {:induction false} StoreAllLastWins(table: map<IndicatorKey, Cell>, items: seq<Item>, i: int)
    requires 0 <= i < |items| && forall j :: i < j < |items| ==> items[j].0 != items[i].0
    ensures items[i].0 in StoreAll(table, items) && StoreAll(table, items)[items[i].0] == items[i].1
    decreases |items|
  {
    var n := |items| - 1;
    if i < n {
      var init := items[..n];
      assert forall j :: 0 <= j < |init| ==> init[j] == items[j];
      StoreAllLastWins(table, init, i);
    }
  }

  /** Distinct stored names and a unique date index give every item its own key. */
  lemma ItemsKeysDistinct(series: Assoc, rows: seq<Row>)
    requires forall s, t :: 0 <= s < t < |series| ==> series[s].1 != series[t].1
    requires UniqueDays(Frame({}, rows))
    ensures forall x, y :: x in Items(series, rows) && y in Items(series, rows) && x.0 == y.0 ==> x == y
  {
    forall x, y | x in Items(series, rows) && y in Items(series, rows) && x.0 == y.0 ensures x == y {
      ItemsMember(series, rows, x);
      ItemsMember(series, rows, y);
      var s :| 0 <= s < |series| && x in ItemsOf(series[s], rows);
      var t :| 0 <= t < |series| && y in ItemsOf(series[t], rows);
      ItemsOfMember(series[s], rows, x);
      ItemsOfMember(series[t], rows, y);
      assert s == t;
      var i :| 0 <= i < |rows| && rows[i].day == x.0.1 && CellOf(rows[i], series[s].0) == x.1;
      var j :| 0 <= j < |rows| && rows[j].day == y.0.1 && CellOf(rows[j], series[t].0) == y.1;
      assert Frame({}, rows).rows[i] == rows[i] && Frame({}, rows).rows[j] == rows[j];
      assert i == j;
    }
  }

  /** Storing pairwise key-distinct items leaves each item's value under its key. */
  lemma StoredDistinct(table: map<IndicatorKey, Cell>, items: seq<Item>)
    requires forall x, y :: x in items && y in items && x.0 == y.0 ==> x == y
    ensures forall x :: x in items ==> x.0 in StoreAll(table, items) && StoreAll(table, items)[x.0] == x.1
  {
    forall x | x in items ensures x.0 in StoreAll(table, items) && StoreAll(table, items)[x.0] == x.1 {
      var i :| 0 <= i < |items| && items[i] == x;
      var j := LastWithKey(items, x.0, i);
      assert items[j] in items;
      StoreAllLastWins(table, items, j);
    }
  }

  /** The last position holding key `k`, at or after a known one. */
  function LastWithKey(items: seq<Item>, k: IndicatorKey, i: int): (j: int)
    requires 0 <= i < |items| && items[i].0 == k
    ensures i <= j < |items| && items[j].0 == k
    ensures forall q :: j < q < |items| ==> items[q].0 != k
    decreases |items| - i
  {
    if exists q :: i < q < |items| && items[q].0 == k then
      var q :| i < q < |items| && items[q].0 == k;
      LastWithKey(items, k, q)
    else i
  }

  /** Upserting two batches one after the other is upserting their concatenation. */
  lemma {:induction false} StoreAllAppend(table: map<IndicatorKey, Cell>, a: seq<Item>, b: seq<Item>)
    ensures StoreAll(table, a + b) == StoreAll(StoreAll(table, a), b)
    decreases |b|
  {
    if b == [] {
      assert a + b == a;
    } else {
      var n := |b| - 1;
      assert (a + b)[..|a + b| - 1] == a + b[..n];
      StoreAllAppend(table, a, b[..n]);
    }
  }

  lemma ItemsOfSnoc(series: (string, string), rows: seq<Row>, j: int)
    requires 0 <= j < |rows|
    ensures ItemsOf(series, rows[..j + 1]) == ItemsOf(series, rows[..j])
      + (if CellOf(rows[j], series.0) == NaN then [] else [((series.1, rows[j].day), CellOf(rows[j], series.0))])
  {
    assert rows[..j + 1][..j] == rows[..j];
  }

  lemma StoreAllSnoc(table: map<IndicatorKey, Cell>, items: seq<Item>, x: Item)
    ensures StoreAll(table, items + [x]) == StoreAll(table, items)[x.0 := x.1]
  {
    assert (items + [x])[..|items|] == items;
  }

  /**
   * The inner loop of lines 43-54 for one series: each non-missing value of
   * its column is upserted under (stored name, day) and counted.
   */
  method StageSeries(staged0: map<IndicatorKey, Cell>, series: (string, string), rows: seq<Row>)
    returns (staged: map<IndicatorKey, Cell>, added: nat)
    ensures staged == StoreAll(staged0, ItemsOf(series, rows))
    ensures added == |Present(series.0, rows)|
  {
    staged := staged0;
    added := 0;
    var j := 0;
    while j < |rows|
      invariant 0 <= j <= |rows|
      invariant staged == StoreAll(staged0, ItemsOf(series, rows[..j]))
      invariant added == |ItemsOf(series, rows[..j])|
    {
      ghost var done := ItemsOf(series, rows[..j]);
      var v := CellOf(rows[j], series.0);
      ItemsOfSnoc(series, rows, j);
      if v != NaN {
        var item := ((series.1, rows[j].day), v);
        StoreAllSnoc(staged0, done, item);
        staged := staged[item.0 := item.1];
        added := added + 1;
      } else {
        assert done + [] == done;
      }
      j := j + 1;
    }
    assert rows[..j] == rows;
    ItemsOfCount(series, rows);
  }

  lemma ItemsSnoc(series: Assoc, rows: seq<Row>, s: int)
    requires 0 <= s < |series|
    ensures Items(series[..s + 1], rows) == Items(series[..s], rows) + ItemsOf(series[s], rows)
  {
    assert series[..s + 1][..s] == series[..s];
  }

  /** The outer loop of lines 42-56: the series' items upserted in order, and their count. */
  method StageAll(table: map<IndicatorKey, Cell>, series: Assoc, rows: seq<Row>)
    returns (staged: map<IndicatorKey, Cell>, count: nat)
    ensures staged == StoreAll(table, Items(series, rows))
    ensures count == |Items(series, rows)|
  {
    staged := table;
    count := 0;
    var s := 0;
    while s < |series|
      invariant 0 <= s <= |series|
      invariant staged == StoreAll(table, Items(series[..s], rows))
      invariant count == |Items(series[..s], rows)|
    {
      ghost var done := Items(series[..s], rows);
      var added;
      staged, added := StageSeries(staged, series[s], rows);
      ItemsOfCount(series[s], rows);
      StoreAllAppend(table, done, ItemsOf(series[s], rows));
      ItemsSnoc(series, rows, s);
      count := count + added;
      s := s + 1;
    }
    assert series[..s] == series;
  }

  /**
   * The `macro_economic_indicators` table as a map from (series name, date)
   * to value; `updated_at` timestamps are not modelled.
   */
  class IndicatorTable {
    var values: map<IndicatorKey, Cell>

    constructor(initial: map<IndicatorKey, Cell>)
      ensures values == initial
    {
      values := initial;
    }

    /**
     * The loop of lines 42-58 over the daily frame: each non-missing value is
     * upserted in a transaction and counted; the transaction is committed
     * when no error occurs (`dbOk`) and rolled back otherwise. Without a
     * connection nothing happens.
     */
    method Upsert(series: Assoc, daily: Frame, connected: bool, dbOk: bool) returns (count: nat)
      modifies this
      ensures !connected || !dbOk ==> values == old(values)
      ensures connected && dbOk ==> values == StoreAll(old(values), Items(series, daily.rows))
      ensures connected ==> count == |Items(series, daily.rows)|
    {
      count := 0;
      if !connected {
        return;
      }
      var staged;
      staged, count := StageAll(values, series, daily.rows);
      if dbOk {
        values := staged;
      }
    }
  }

  /**
   * After a committed run on a daily frame with a unique index and distinct
   * stored names, every non-missing value of series `s` on day `d` is stored
   * under (name, d).
   */
  lemma UpsertStoresValues(table: map<IndicatorKey, Cell>, series: Assoc, rows: seq<Row>, s: int, j: int)
    requires forall p, q :: 0 <= p < q < |series| ==> series[p].1 != series[q].1
    requires UniqueDays(Frame({}, rows))
    requires 0 <= s < |series| && 0 <= j < |rows| && CellOf(rows[j], series[s].0) != NaN
    ensures var t := StoreAll(table, Items(series, rows)); var k := (series[s].1, rows[j].day);
      k in t && t[k] == CellOf(rows[j], series[s].0)
  {
    var x := ((series[s].1, rows[j].day), CellOf(rows[j], series[s].0));
    ItemsOfMember(series[s], rows, x);
    ItemsMember(series, rows, x);
    ItemsKeysDistinct(series, rows);
    StoredDistinct(table, Items(series, rows));
  }

  /** A stored key that is the (name, day) of no non-missing value keeps its value. */
  lemma UpsertKeepsOthers(table: map<IndicatorKey, Cell>, series: Assoc, rows: seq<Row>, k: IndicatorKey)
    requires k in table
    requires forall s, j :: 0 <= s < |series| && 0 <= j < |rows| && CellOf(rows[j], series[s].0) != NaN ==>
      (series[s].1, rows[j].day) != k
    ensures var t := StoreAll(table, Items(series, rows)); k in t && t[k] == table[k]
  {
    var items := Items(series, rows);
    forall i | 0 <= i < |items|
      ensures items[i].0 != k
    {
      var x := items[i];
      ItemsMember(series, rows, x);
      var s :| 0 <= s < |series| && x in ItemsOf(series[s], rows);
      ItemsOfMember(series[s], rows, x);
      var j :| 0 <= j < |rows| && rows[j].day == x.0.1 && CellOf(rows[j], series[s].0) == x.1;
      assert (series[s].1, rows[j].day) == x.0;
    }
    StoreAllKeeps(table, items, k);
  }

  /** The series list of a run is a well-formed dict whenever it exists. */
  lemma SelectSeriesValid(indicators: seq<string>)
    requires SelectSeries(indicators).Some?
    ensures DictValid(SelectSeries(indicators).value)
  {
    if indicators != [] {
      ParseSucceeds(indicators);
    }
  }

  /**
   * `main` followed by `update_economic_data`: malformed arguments stop the
   * run with no update and no count; otherwise the fetched frame (columns are
   * FRED ids) is resampled to days and its values are upserted under the
   * mapped names.
   */
  method UpdateFromArguments(table: IndicatorTable, indicators: seq<string>, fetched: Frame, connected: bool, dbOk: bool)
    returns (count: Option<nat>)
    modifies table
    ensures SelectSeries(indicators).None? ==> table.values == old(table.values) && count == None
    ensures SelectSeries(indicators).Some? ==>
      var d := SelectSeries(indicators).value;
      DictValid(d)
      && (connected && dbOk ==> table.values == StoreAll(old(table.values), Items(Entries(d), Daily(fetched).rows)))
      && (!connected || !dbOk ==> table.values == old(table.values))
      && (connected ==> count == Some(|Items(Entries(d), Daily(fetched).rows)|))
  {
    var selected := SelectSeries(indicators);
    if selected.None? {
      count := None;
      return;
    }
    SelectSeriesValid(indicators);
    var n := table.Upsert(Entries(selected.value), Daily(fetched), connected, dbOk);
    count := Some(n);
  }
}
