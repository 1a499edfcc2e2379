/**
 * The exchange's listed-issue file loaded into `market_list`: only domestic
 * stocks of the Prime, Standard and Growth segments are kept, each becomes the
 * ticker `<code>.T`, and the table is replaced by these rows (the first row of
 * a repeated ticker is kept), all stamped with today's date.
 */
module LoadMarketList {
  import opened Wrappers
  import opened Text

  /** One row of the CSV file; the code and the industry and scale codes are already `str(...)` of the cell. */
  datatype CsvRow = CsvRow(
    code: string, name: string, segment: string,
    industryCode33: string, industryName33: string,
    industryCode17: string, industryName17: string,
    scaleCode: string, scaleSegment: string)

  /** A row of `market_list` other than its `ticker` key; `loadDate` is an epoch day. */
  datatype Listing = Listing(
    name: string, segment: string,
    industryCode33: string, industryName33: string,
    industryCode17: string, industryName17: string,
    scaleCode: string, scaleSegment: string, loadDate: int)

  const TargetSegments: seq<string> := ["プライム（内国株式）", "スタンダード（内国株式）", "グロース（内国株式）"]

  predicate IsDomesticStock(r: CsvRow)
  {
    r.segment in TargetSegments
  }

  /** `df[df['市場・商品区分'].isin(target_markets)]`. */
  function Stocks(rows: seq<CsvRow>): seq<CsvRow>
  {
    Filter(rows, IsDomesticStock)
  }

  /** The stocks are the rows of the three segments, in file order. */
  lemma StocksFacts(rows: seq<CsvRow>, r: CsvRow, more: seq<CsvRow>)
    ensures r in Stocks(rows) <==> r in rows && r.segment in TargetSegments
    ensures Stocks(rows + more) == Stocks(rows) + Stocks(more)
  {
    FilterMember(rows, IsDomesticStock, r);
    FilterAppend(rows, more, IsDomesticStock);
  }

  /** `str(code) + '.T'`. */
  function TickerOf(r: CsvRow): (t: string)
    ensures |t| == |r.code| + 2 && EndsWith(t, ".T") && t[..|r.code|] == r.code
  {
    r.code + ".T"
  }

  /** Distinct codes give distinct tickers. */
  lemma TickerInjective(a: CsvRow, b: CsvRow)
    requires TickerOf(a) == TickerOf(b)
    ensures a.code == b.code
  {
    assert |a.code| == |b.code|;
    assert a.code == TickerOf(a)[..|a.code|];
  }

  function ListingOf(r: CsvRow, today: int): (l: Listing)
    ensures l.loadDate == today && l.name == r.name && l.segment == r.segment
  {
    Listing(r.name, r.segment, r.industryCode33, r.industryName33,
            r.industryCode17, r.industryName17, r.scaleCode, r.scaleSegment, today)
  }

  /** Inserting the rows in order with `ON CONFLICT (ticker) DO NOTHING`. */
  function InsertAll(table: map<string, Listing>, rows: seq<CsvRow>, today: int): map<string, Listing>
    decreases |rows|
  {
    if rows == [] then table
    else
      var before := InsertAll(table, rows[..|rows| - 1], today);
      var r := rows[|rows| - 1];
      if TickerOf(r) in before then before else before[TickerOf(r) := ListingOf(r, today)]
  }

  /** The table after truncation and the inserts of line 33-47. */
  function Loaded(rows: seq<CsvRow>, today: int): map<string, Listing>
  {
    InsertAll(map[], Stocks(rows), today)
  }

  /** Inserting into an empty table yields exactly the rows' tickers. */
  lemma {:induction false} InsertAllKeys(rows: seq<CsvRow>, today: int, t: string)
    ensures t in InsertAll(map[], rows, today) <==> exists i :: 0 <= i < |rows| && TickerOf(rows[i]) == t
    decreases |rows|
  {
    if rows != [] {
      var n := |rows| - 1;
      var init := rows[..n];
      InsertAllKeys(init, today, t);
      if t in InsertAll(map[], init, today) {
        var i :| 0 <= i < |init| && TickerOf(init[i]) == t;
        assert rows[i] == init[i];
      } else if TickerOf(rows[n]) != t {
        forall i | 0 <= i < |rows| ensures TickerOf(rows[i]) != t {
          if i < n { assert rows[i] == init[i]; }
        }
      }
    }
  }

  /** Each ticker holds its first row in file order, stamped with today's date. */
  lemma {:induction false} InsertAllFirstWins(rows: seq<CsvRow>, today: int, i: int)
    requires 0 <= i < |rows| && forall j :: 0 <= j < i ==> TickerOf(rows[j]) != TickerOf(rows[i])
    ensures TickerOf(rows[i]) in InsertAll(map[], rows, today)
    ensures InsertAll(map[], rows, today)[TickerOf(rows[i])] == ListingOf(rows[i], today)
    decreases |rows|
  {
    var n := |rows| - 1;
    var init := rows[..n];
    if i < n {
      assert forall j :: 0 <= j < |init| ==> init[j] == rows[j];
      InsertAllFirstWins(init, today, i);
    } else {
      InsertAllKeys(init, today, TickerOf(rows[i]));
      assert forall j :: 0 <= j < |init| ==> init[j] == rows[j];
    }
  }

  /** Every row stored by a load carries today's date and a domestic-stock segment. */
  lemma {:induction false} InsertAllStamped(rows: seq<CsvRow>, today: int)
    requires forall i :: 0 <= i < |rows| ==> rows[i].segment in TargetSegments
    ensures forall t :: t in InsertAll(map[], rows, today) ==>
      InsertAll(map[], rows, today)[t].loadDate == today && InsertAll(map[], rows, today)[t].segment in TargetSegments
    decreases |rows|
  {
    if rows != [] {
      var n := |rows| - 1;
      assert forall i :: 0 <= i < n ==> rows[..n][i] == rows[i];
      InsertAllStamped(rows[..n], today);
    }
  }

  /**
   * After a load the table holds exactly the tickers of the file's domestic
   * stocks, every one dated today and of a target segment.
   */
  lemma LoadedFacts(rows: seq<CsvRow>, today: int, t: string)
    ensures t in Loaded(rows, today) <==> exists r :: r in rows && IsDomesticStock(r) && TickerOf(r) == t
    ensures t in Loaded(rows, today) ==>
      Loaded(rows, today)[t].loadDate == today && Loaded(rows, today)[t].segment in TargetSegments
  {
    var s := Stocks(rows);
    InsertAllKeys(s, today, t);
    InsertAllStamped(s, today);
    if exists r :: r in rows && IsDomesticStock(r) && TickerOf(r) == t {
      var r :| r in rows && IsDomesticStock(r) && TickerOf(r) == t;
      FilterMember(rows, IsDomesticStock, r);
      var i :| 0 <= i < |s| && s[i] == r;
    }
    if t in Loaded(rows, today) {
      var i :| 0 <= i < |s| && TickerOf(s[i]) == t;
      assert s[i] in s;
      FilterMember(rows, IsDomesticStock, s[i]);
    }
  }

  /** At most one stored row per stock: the table never outgrows the reported count. */
  lemma {:induction false} InsertAllSize(rows: seq<CsvRow>, today: int)
    ensures |InsertAll(map[], rows, today)| <= |rows|
    decreases |rows|
  {
    if rows != [] {
      InsertAllSize(rows[..|rows| - 1], today);
    }
  }

  /** The `market_list` table by ticker. */
  class MarketTable {
    var listings: map<string, Listing>

    constructor(initial: map<string, Listing>)
      ensures listings == initial
    {
      listings := initial;
    }

    /**
     * `load_market_list`: `csv` is None when the file is missing or cannot be
     * read, and then the table is untouched; otherwise it is truncated and
     * refilled, and the reported count is the number of selected stocks. A
     * database error (`dbOk` false) rolls the transaction back.
     */
    method Load(csv: Option<seq<CsvRow>>, today: int, dbOk: bool) returns (reported: Option<nat>)
      modifies this
      ensures csv.None? || !dbOk ==> listings == old(listings) && reported == None
      ensures csv.Some? && dbOk ==> listings == Loaded(csv.value, today) && reported == Some(|Stocks(csv.value)|)
    {
      if csv.None? {
        return None;
      }
      var stocks := Stocks(csv.value);
      var staged: map<string, Listing> := map[];
      var i := 0;
      while i < |stocks|
        invariant 0 <= i <= |stocks|
        invariant staged == InsertAll(map[], stocks[..i], today)
      {
        var r := stocks[i];
        assert stocks[..i + 1][..i] == stocks[..i];
        if TickerOf(r) !in staged {
          staged := staged[TickerOf(r) := ListingOf(r, today)];
        }
        i := i + 1;
      }
      assert stocks[..i] == stocks;
      if !dbOk {
        return None;
      }
      listings := staged;
      reported := Some(|stocks|);
    }
  }
}
