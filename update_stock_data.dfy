/**
 * script/update_stock_data.py: the quality check on a downloaded price
 * history, the fetch window, the (ticker, date) upsert into the daily price
 * table with rollback, the insert-or-ignore of the ticker list into
 * `stock_info`, and the per-ticker update loop of `main`.
 */
module UpdateStockData {
  import opened Wrappers
  import opened Cells
  import Registry

  // ---------------------------------------------------------------- quality

  /** `abs()` of a cell. */
  function AbsCell(a: Cell): Cell
  {
    match a
    case NaN => NaN
    case Num(x) => Num(if x < 0.0 then -x else x)
    case Inf(_) => Inf(false)
  }

  predicate IsPresent(c: Cell)
  {
    !c.NaN?
  }

  /** `adj_close.dropna()`. */
  function Present(adj: seq<Cell>): seq<Cell>
  {
    Filter(adj, IsPresent)
  }

  /** A move of more than half: `daily_return > 0.5` on the absolute change. */
  predicate Abnormal(changes: seq<Cell>, k: int)
    requires 0 <= k < |changes|
  {
    Above(AbsCell(changes[k]), 0.5)
  }

  /** What `validate_data_quality` decides and the warnings it prints. */
  datatype Validation = Validation(valid: bool, missingWarning: bool, abnormal: seq<int>)

  /** The positions (in the present closes) of the abnormal moves of `pct_change().abs()`, in order. */
  function AbnormalMoves(changes: seq<Cell>, n: nat): (ks: seq<int>)
    requires n <= |changes|
    ensures forall k :: k in ks <==> 0 <= k < n && Abnormal(changes, k)
  {
    if n == 0 then [] else AbnormalMoves(changes, n - 1) + (if Abnormal(changes, n - 1) then [n - 1] else [])
  }

  /** `validate_data_quality(df, ticker)` on the `Adj Close` column. */
  function ValidateDataQuality(adj: seq<Cell>): (v: Validation)
    ensures v.valid <==> adj == [] || exists i :: 0 <= i < |adj| && !adj[i].NaN?
    ensures v.missingWarning <==> exists i :: 0 <= i < |adj| && adj[i].NaN?
    ensures |Present(adj)| < 2 ==> v.abnormal == []
  {
    var missing := exists i :: 0 <= i < |adj| && adj[i].NaN?;
    var allMissing := forall i :: 0 <= i < |adj| ==> adj[i].NaN?;
    var valid := !(missing && allMissing);
    var p := Present(adj);
    Validation(valid, missing, if |p| > 1 then AbnormalMoves(PctChange(p, 1), |p|) else [])
  }

  lemma PresentEmpty(adj: seq<Cell>)
    ensures Present(adj) == [] <==> forall i :: 0 <= i < |adj| ==> adj[i].NaN?
  {
    forall i | 0 <= i < |adj|
      ensures !adj[i].NaN? ==> Present(adj) != []
    {
      FilterMember(adj, IsPresent, adj[i]);
    }
    if Present(adj) != [] {
      FilterMember(adj, IsPresent, Present(adj)[0]);
    }
  }

  /**
   * Validity depends only on whether some close is present: prices that
   * differ only in their present values (however far they jump) get the
   * same verdict, and an empty download is valid.
   */
  lemma ValidityIgnoresJumps(a: seq<Cell>, b: seq<Cell>)
    requires |a| == |b| && forall i :: 0 <= i < |a| ==> (a[i].NaN? <==> b[i].NaN?)
    ensures ValidateDataQuality(a).valid == ValidateDataQuality(b).valid
    ensures ValidateDataQuality([]).valid
  {
  }

  /** Invalid data is exactly data whose closes are all missing after `dropna`, while the input was not empty. */
  lemma InvalidIffNothingPresent(adj: seq<Cell>)
    ensures !ValidateDataQuality(adj).valid <==> adj != [] && Present(adj) == []
  {
    PresentEmpty(adj);
  }

  // ------------------------------------------------------------ fetch window

  const LookbackDays := 7
  const HistoryDays := 365 * 10

  /** `(start, end)` of the download: from a week before the stored last date, or ten years back; up to tomorrow. */
  function FetchWindow(last: Option<int>, today: int): (r: (int, int))
    ensures last.Some? ==> r.0 == last.value - LookbackDays
    ensures last.None? ==> r.0 == today - 3650
    ensures r.1 == today + 1
  {
    if last.Some? then (last.value - LookbackDays, today + 1) else (today - HistoryDays, today + 1)
  }

  /**
   * With history stored, the download re-covers the last week stored and
   * every day since, through today (the end is exclusive), and nothing
   * earlier.
   */
  lemma FetchWindowCovers(last: int, today: int, d: int)
    ensures var (s, e) := FetchWindow(Some(last), today); (s <= d < e <==> last - 7 <= d <= today)
  {
  }

  /** Without history, the download covers the ten years up to and including today, and nothing earlier. */
  lemma FetchWindowNoHistory(today: int, d: int)
    ensures var (s, e) := FetchWindow(None, today); (s <= d < e <==> today - 3650 <= d <= today)
  {
  }

  // ------------------------------------------------------------ price table

  /** The stored columns of one `daily_stock_prices` row. */
  datatype Bar = Bar(open: Cell, high: Cell, low: Cell, close: Cell, adj: Cell, volume: Cell)

  /** `(ticker_symbol, trade_date)`. */
  type PriceKey = (string, int)

  type Prices = map<PriceKey, Bar>

  /** One downloaded row. */
  datatype Quote = Quote(day: int, bar: Bar)

  /** The rows `insert_or_update_daily_prices` sends for one ticker's download. */
  function BatchOf(ticker: string, qs: seq<Quote>): (b: seq<(PriceKey, Bar)>)
    ensures |b| == |qs| && forall i :: 0 <= i < |qs| ==> b[i] == ((ticker, qs[i].day), qs[i].bar)
  {
    seq(|qs|, i requires 0 <= i < |qs| => ((ticker, qs[i].day), qs[i].bar))
  }

  /** The table after `INSERT ... ON CONFLICT (ticker_symbol, trade_date) DO UPDATE` of each row in turn. */
  function Upserted(rows: Prices, batch: seq<(PriceKey, Bar)>): Prices
  {
    if batch == [] then rows
    else
      var n := |batch| - 1;
      Upserted(rows, batch[..n])[batch[n].0 := batch[n].1]
  }

  /** Entry `i` is the last row of the batch with its key. */
  predicate LastFor(batch: seq<(PriceKey, Bar)>, i: int)
    requires 0 <= i < |batch|
  {
    forall j :: i < j < |batch| ==> batch[j].0 != batch[i].0
  }

  /**
   * After the upsert a key is stored exactly when it was stored or sent;
   * a sent key holds the bar of its last row in the batch, overwriting what
   * was stored; every other key keeps its bar.
   */
  lemma {:induction false} UpsertedFacts(rows: Prices, batch: seq<(PriceKey, Bar)>, k: PriceKey)
    ensures var u := Upserted(rows, batch);
      (k in u <==> k in rows || exists i :: 0 <= i < |batch| && batch[i].0 == k) &&
      ((forall i :: 0 <= i < |batch| ==> batch[i].0 != k) && k in rows ==> u[k] == rows[k]) &&
      (forall i :: 0 <= i < |batch| && batch[i].0 == k && LastFor(batch, i) ==> u[k] == batch[i].1)
  {
    UpsertedKeys(rows, batch, k);
    if (forall i :: 0 <= i < |batch| ==> batch[i].0 != k) && k in rows {
      UpsertedUntouched(rows, batch, k);
    }
    forall i | 0 <= i < |batch| && batch[i].0 == k && LastFor(batch, i)
      ensures Upserted(rows, batch)[k] == batch[i].1
    {
      UpsertedLastWins(rows, batch, i);
    }
  }

  /** A key is stored after the upsert exactly when it was stored or sent. */
  lemma {:induction false} UpsertedKeys(rows: Prices, batch: seq<(PriceKey, Bar)>, k: PriceKey)
    ensures k in Upserted(rows, batch) <==> k in rows || exists i :: 0 <= i < |batch| && batch[i].0 == k
  {
    if batch != [] {
      var n := |batch| - 1;
      var init := batch[..n];
      UpsertedKeys(rows, init, k);
      if exists i :: 0 <= i < |batch| && batch[i].0 == k {
        var i :| 0 <= i < |batch| && batch[i].0 == k;
        if i < n {
          assert init[i].0 == k;
        }
      }
      if exists i :: 0 <= i < |init| && init[i].0 == k {
        var i :| 0 <= i < |init| && init[i].0 == k;
        assert batch[i].0 == k;
      }
    }
  }

  /** A stored key the batch does not send keeps its bar. */
  lemma {:induction false} UpsertedUntouched(rows: Prices, batch: seq<(PriceKey, Bar)>, k: PriceKey)
    requires k in rows && forall i :: 0 <= i < |batch| ==> batch[i].0 != k
    ensures k in Upserted(rows, batch) && Upserted(rows, batch)[k] == rows[k]
  {
    if batch != [] {
      var n := |batch| - 1;
      var init := batch[..n];
      assert forall i :: 0 <= i < |init| ==> init[i] == batch[i];
      assert batch[n].0 != k;
      UpsertedUntouched(rows, init, k);
    }
  }

  /** The last row of a key in the batch decides its bar. */
  lemma {:induction false} UpsertedLastWins(rows: Prices, batch: seq<(PriceKey, Bar)>, i: int)
    requires 0 <= i < |batch| && LastFor(batch, i)
    ensures batch[i].0 in Upserted(rows, batch) && Upserted(rows, batch)[batch[i].0] == batch[i].1
  {
    var n := |batch| - 1;
    var init := batch[..n];
    if i < n {
      assert init[i] == batch[i];
      assert LastFor(init, i) by {
        forall j | i < j < |init| ensures init[j].0 != init[i].0 {
          assert init[j] == batch[j];
        }
      }
      assert batch[n].0 != batch[i].0;
      UpsertedLastWins(rows, init, i);
    }
  }

  /** The `daily_stock_prices` table. */
  class PriceTable {
    var rows: Prices

    constructor(initial: Prices)
      ensures rows == initial
    {
      rows := initial;
    }

    /**
     * `insert_or_update_daily_prices`: nothing for an empty download;
     * otherwise the rows are upserted one by one and committed, or, on a
     * database error (`dbOk` false), rolled back.
     */
    method InsertOrUpdate(batch: seq<(PriceKey, Bar)>, dbOk: bool)
      modifies this
      ensures rows == if batch == [] || !dbOk then old(rows) else Upserted(old(rows), batch)
    {
      if batch == [] {
        return;
      }
      var pending := rows;
      var i := 0;
      while i < |batch|
        invariant 0 <= i <= |batch|
        invariant pending == Upserted(old(rows), batch[..i])
        invariant rows == old(rows)
      {
        assert batch[..i + 1][..i] == batch[..i];
        pending := pending[batch[i].0 := batch[i].1];
        i := i + 1;
      }
      assert batch[..i] == batch;
      if dbOk {
        rows := pending;
      }
    }
  }

  /** `SELECT MAX(trade_date) ... WHERE ticker_symbol = ?`. */
  function LastDate(rows: Prices, ticker: string): (r: Option<int>)
    ensures r.None? <==> forall d :: (ticker, d) !in rows
    ensures r.Some? ==> (ticker, r.value) in rows && forall d :: (ticker, d) in rows ==> d <= r.value
  {
    var days := set k | k in rows && k.0 == ticker :: k.1;
    assert forall d :: (ticker, d) in rows ==> d in days;
    if days == {} then
      None
    else
      var m := Registry.MaxOf(days);
      var k :| k in rows && k.0 == ticker && k.1 == m;
      assert k == (ticker, m);
      Some(m)
  }

  /** What one pass of the loop in `main` leaves in the table for one ticker. */
  function UpdateTicker(rows: Prices, ticker: string, today: int,
                        download: (string, int, int) -> seq<Quote>, dbOk: string -> bool): Prices
  {
    var (start, end) := FetchWindow(LastDate(rows, ticker), today);
    var qs := download(ticker, start, end);
    if qs == [] || !ValidateDataQuality(seq(|qs|, i requires 0 <= i < |qs| => qs[i].bar.adj)).valid || !dbOk(ticker) then rows
    else Upserted(rows, BatchOf(ticker, qs))
  }

  function UpdateAll(rows: Prices, tickers: seq<string>, today: int,
                     download: (string, int, int) -> seq<Quote>, dbOk: string -> bool): Prices
  {
    if tickers == [] then rows
    else
      var n := |tickers| - 1;
      UpdateTicker(UpdateAll(rows, tickers[..n], today, download, dbOk), tickers[n], today, download, dbOk)
  }

  /**
   * The position of the first ticker whose `MAX(trade_date)` query or
   * download raises, or the number of tickers when none does.
   */
  function FirstRaising(tickers: seq<string>, raises: string -> bool): (k: nat)
    ensures k <= |tickers|
    ensures forall j :: 0 <= j < k ==> !raises(tickers[j])
    ensures k < |tickers| ==> raises(tickers[k])
  {
    if tickers == [] || raises(tickers[0]) then 0 else 1 + FirstRaising(tickers[1..], raises)
  }

  /**
   * The loop of `main` over the tickers; an empty list stops before any
   * download. An exception from the last-date query or the download
   * (`raises`) leaves the loop for `main`'s handler: the tickers before it
   * keep their committed updates and no later ticker is processed.
   */
  method UpdatePrices(table: PriceTable, tickers: seq<string>, today: int,
                      download: (string, int, int) -> seq<Quote>, dbOk: string -> bool, raises: string -> bool)
    modifies table
    ensures table.rows == UpdateAll(old(table.rows), tickers[..FirstRaising(tickers, raises)], today, download, dbOk)
  {
    if tickers == [] {
      return;
    }
    var i := 0;
    while i < |tickers|
      invariant 0 <= i <= FirstRaising(tickers, raises)
      invariant table.rows == UpdateAll(old(table.rows), tickers[..i], today, download, dbOk)
    {
      var ticker := tickers[i];
      if raises(ticker) {
        return;
      }
      assert tickers[..i + 1][..i] == tickers[..i];
      var (start, end) := FetchWindow(LastDate(table.rows, ticker), today);
      var qs := download(ticker, start, end);
      if qs != [] {
        var quality := ValidateDataQuality(seq(|qs|, k requires 0 <= k < |qs| => qs[k].bar.adj));
        if quality.valid {
          table.InsertOrUpdate(BatchOf(ticker, qs), dbOk(ticker));
        }
      }
      i := i + 1;
    }
    assert tickers[..i] == tickers;
  }

  /** One ticker's pass never removes a row and leaves every other ticker's rows as they were. */
  lemma UpdateTickerFacts(rows: Prices, ticker: string, today: int,
                          download: (string, int, int) -> seq<Quote>, dbOk: string -> bool, k: PriceKey)
    ensures var u := UpdateTicker(rows, ticker, today, download, dbOk);
      (k in rows ==> k in u) &&
      (k.0 != ticker ==> (k in u <==> k in rows) && (k in rows ==> u[k] == rows[k]))
  {
    var (start, end) := FetchWindow(LastDate(rows, ticker), today);
    var qs := download(ticker, start, end);
    UpsertedFacts(rows, BatchOf(ticker, qs), k);
  }

  /**
   * The whole run never removes a stored row, and a ticker that is not in
   * the list keeps exactly its stored rows.
   */
  lemma {:induction false} UpdateAllFacts(rows: Prices, tickers: seq<string>, today: int,
                                          download: (string, int, int) -> seq<Quote>, dbOk: string -> bool, k: PriceKey)
    ensures var u := UpdateAll(rows, tickers, today, download, dbOk);
      (k in rows ==> k in u) &&
      (k.0 !in tickers ==> (k in u <==> k in rows) && (k in rows ==> u[k] == rows[k]))
  {
    if tickers != [] {
      var n := |tickers| - 1;
      UpdateAllFacts(rows, tickers[..n], today, download, dbOk, k);
      UpdateTickerFacts(UpdateAll(rows, tickers[..n], today, download, dbOk), tickers[n], today, download, dbOk, k);
      assert k.0 !in tickers ==> k.0 !in tickers[..n] && k.0 != tickers[n];
    }
  }

  // ------------------------------------------------------------- stock info

  /** A `stock_info` row: the non-null columns and their values. */
  type InfoRow = map<string, string>

  /** `stock_info`, keyed by `ticker_symbol`. */
  type StockInfo = map<string, InfoRow>

  /** The seven columns read from each entry of `tickers.json`. */
  const InfoColumns: set<string> := {"ticker_symbol", "company_name", "exchange", "sector", "industry", "country", "currency"}

  /** An entry of `tickers.json`: its ticker and its fields. */
  datatype Listing = Listing(ticker: string, fields: map<string, string>)

  /** The row an entry inserts: the listed columns it has, with its ticker. */
  function InfoOf(e: Listing): (r: InfoRow)
    ensures r.Keys <= InfoColumns && "ticker_symbol" in r && r["ticker_symbol"] == e.ticker
  {
    (map c | c in e.fields && c in InfoColumns :: e.fields[c])["ticker_symbol" := e.ticker]
  }

  /** `INSERT OR IGNORE` of each entry in turn. */
  function InsertedOrIgnored(table: StockInfo, es: seq<Listing>): StockInfo
  {
    if es == [] then table
    else
      var n := |es| - 1;
      var t := InsertedOrIgnored(table, es[..n]);
      if es[n].ticker in t then t else t[es[n].ticker := InfoOf(es[n])]
  }

  /** Entry `i` is the first entry of its ticker. */
  predicate FirstFor(es: seq<Listing>, i: int)
    requires 0 <= i < |es|
  {
    forall j :: 0 <= j < i ==> es[j].ticker != es[i].ticker
  }

  /**
   * Insert-or-ignore keeps every stored ticker's row as it was and adds each
   * new ticker with its first entry; nothing else is stored.
   */
  lemma {:induction false} InsertedOrIgnoredFacts(table: StockInfo, es: seq<Listing>, t: string)
    ensures var u := InsertedOrIgnored(table, es);
      (t in u <==> t in table || exists i :: 0 <= i < |es| && es[i].ticker == t) &&
      (t in table ==> u[t] == table[t]) &&
      (forall i :: 0 <= i < |es| && es[i].ticker == t && t !in table && FirstFor(es, i) ==> u[t] == InfoOf(es[i]))
  {
    InsertedKeys(table, es, t);
    if t in table {
      InsertedKeeps(table, es, t);
    }
    forall i | 0 <= i < |es| && es[i].ticker == t && t !in table && FirstFor(es, i)
      ensures InsertedOrIgnored(table, es)[t] == InfoOf(es[i])
    {
      InsertedFirstWins(table, es, i);
    }
  }

  /** A ticker is stored after the inserts exactly when it was stored or listed. */
  lemma {:induction false} InsertedKeys(table: StockInfo, es: seq<Listing>, t: string)
    ensures t in InsertedOrIgnored(table, es) <==> t in table || exists i :: 0 <= i < |es| && es[i].ticker == t
  {
    if es != [] {
      var n := |es| - 1;
      var init := es[..n];
      InsertedKeys(table, init, t);
      if exists i :: 0 <= i < |es| && es[i].ticker == t {
        var i :| 0 <= i < |es| && es[i].ticker == t;
        if i < n {
          assert init[i].ticker == t;
        }
      }
      if exists i :: 0 <= i < |init| && init[i].ticker == t {
        var i :| 0 <= i < |init| && init[i].ticker == t;
        assert es[i].ticker == t;
      }
    }
  }

  /** A stored ticker keeps its row. */
  lemma {:induction false} InsertedKeeps(table: StockInfo, es: seq<Listing>, t: string)
    requires t in table
    ensures t in InsertedOrIgnored(table, es) && InsertedOrIgnored(table, es)[t] == table[t]
  {
    if es != [] {
      InsertedKeeps(table, es[..|es| - 1], t);
    }
  }

  /** A new ticker holds the row of its first entry. */
  lemma {:induction false} InsertedFirstWins(table: StockInfo, es: seq<Listing>, i: int)
    requires 0 <= i < |es| && es[i].ticker !in table && FirstFor(es, i)
    ensures es[i].ticker in InsertedOrIgnored(table, es)
    ensures InsertedOrIgnored(table, es)[es[i].ticker] == InfoOf(es[i])
  {
    var n := |es| - 1;
    var init := es[..n];
    var t := es[i].ticker;
    if i < n {
      assert init[i] == es[i];
      assert FirstFor(init, i) by {
        forall j | 0 <= j < i ensures init[j].ticker != init[i].ticker {
          assert init[j] == es[j];
        }
      }
      InsertedFirstWins(table, init, i);
    } else {
      InsertedKeys(table, init, t);
      assert t !in InsertedOrIgnored(table, init) by {
        forall j | 0 <= j < |init| ensures init[j].ticker != t {
          assert init[j] == es[j];
        }
      }
    }
  }

  /** The `stock_info` table. */
  class StockInfoTable {
    var rows: StockInfo

    constructor(initial: StockInfo)
      ensures rows == initial
    {
      rows := initial;
    }

    /**
     * `insert_stock_info`: a missing or unreadable `tickers.json` (`None`)
     * and an empty one change nothing; otherwise each entry is inserted
     * unless its ticker is stored. Returns the number of rows added. When
     * `executemany` fails (`dbOk` false), `with conn` rolls the insert
     * back and the exception is raised to the caller (`raised`).
     */
    method InsertStockInfo(file: Option<seq<Listing>>, dbOk: bool) returns (added: int, raised: bool)
      modifies this
      ensures raised <==> file.Some? && file.value != [] && !dbOk
      ensures file.None? || file.value == [] || !dbOk ==> rows == old(rows) && added == 0
      ensures file.Some? && file.value != [] && dbOk ==> rows == InsertedOrIgnored(old(rows), file.value)
      ensures added == |rows.Keys| - |old(rows).Keys|
    {
      if file.None? || file.value == [] {
        return 0, false;
      }
      if !dbOk {
        return 0, true;
      }
      raised := false;
      var es := file.value;
      var i := 0;
      var before := rows;
      while i < |es|
        invariant 0 <= i <= |es|
        invariant rows == InsertedOrIgnored(before, es[..i])
      {
        InsertedNext(before, es, i);
        if es[i].ticker !in rows {
          rows := rows[es[i].ticker := InfoOf(es[i])];
        }
        i := i + 1;
      }
      assert es[..i] == es;
      InsertedKeysGrow(before, es);
      added := |rows.Keys| - |before.Keys|;
    }

    /** `get_tickers_from_db`: every stored ticker, each once, in no particular order. */
    method Tickers() returns (ts: seq<string>)
      ensures forall t :: t in ts <==> t in rows
      ensures forall i, j :: 0 <= i < j < |ts| ==> ts[i] != ts[j]
    {
      ts := [];
      var left := rows.Keys;
      while left != {}
        invariant left <= rows.Keys
        invariant forall t :: t in ts ==> t in rows && t !in left
        invariant forall t :: t in rows ==> t in ts || t in left
        invariant forall i, j :: 0 <= i < j < |ts| ==> ts[i] != ts[j]
        decreases |left|
      {
        var t :| t in left;
        ts := ts + [t];
        left := left - {t};
      }
    }
  }

  /**
   * `main`: without a connection nothing happens. The tickers are the
   * arguments when some are given; otherwise the listing file is first
   * inserted into `stock_info` and every ticker stored there is taken.
   * Each ticker then gets its pass. An exception from the listing insert
   * (`infoOk` false) or from a ticker's last-date query or download
   * (`raises`) reaches `main`'s handler and ends the run. Returns the
   * tickers selected; those before the first raising one are processed.
   */
  method UpdateStockPrices(info: StockInfoTable, prices: PriceTable, connected: bool, args: seq<string>,
                           file: Option<seq<Listing>>, infoOk: bool, today: int,
                           download: (string, int, int) -> seq<Quote>, dbOk: string -> bool, raises: string -> bool)
    returns (tickers: seq<string>)
    modifies info, prices
    ensures !connected ==> tickers == [] && info.rows == old(info.rows)
    ensures connected && args != [] ==> tickers == args && info.rows == old(info.rows)
    ensures connected && args == [] && InsertRaises(file, infoOk) ==> tickers == [] && info.rows == old(info.rows)
    ensures connected && args == [] && !InsertRaises(file, infoOk) ==>
      info.rows == (if file.None? || file.value == [] then old(info.rows) else InsertedOrIgnored(old(info.rows), file.value))
    ensures connected && args == [] && !InsertRaises(file, infoOk) ==> forall t :: t in tickers <==> t in info.rows
    ensures connected && args == [] ==> forall i, j :: 0 <= i < j < |tickers| ==> tickers[i] != tickers[j]
    ensures prices.rows == UpdateAll(old(prices.rows), tickers[..FirstRaising(tickers, raises)], today, download, dbOk)
  {
    if !connected {
      return [];
    }
    if args != [] {
      tickers := args;
    } else {
      var _, raised := info.InsertStockInfo(file, infoOk);
      if raised {
        return [];
      }
      tickers := info.Tickers();
    }
    UpdatePrices(prices, tickers, today, download, dbOk, raises);
  }

  /** The listing insert raises: a non-empty listing whose `executemany` fails. */
  predicate InsertRaises(file: Option<seq<Listing>>, infoOk: bool)
  {
    file.Some? && file.value != [] && !infoOk
  }

  /** One more entry: the table after entry `i` in terms of the table before it. */
  lemma InsertedNext(table: StockInfo, es: seq<Listing>, i: int)
    requires 0 <= i < |es|
    ensures var t := InsertedOrIgnored(table, es[..i]);
      InsertedOrIgnored(table, es[..i + 1]) == if es[i].ticker in t then t else t[es[i].ticker := InfoOf(es[i])]
  {
    assert es[..i + 1][..i] == es[..i];
  }

  lemma {:induction false} InsertedKeysGrow(table: StockInfo, es: seq<Listing>)
    ensures table.Keys <= InsertedOrIgnored(table, es).Keys
  {
    if es != [] {
      InsertedKeysGrow(table, es[..|es| - 1]);
    }
  }
}
