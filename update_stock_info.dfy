/**
 * script/update_stock_info.py: the company data kept from a ticker's
 * information, its restriction to the columns `stock_info` has, the
 * dynamically built `INSERT ... ON CONFLICT (ticker_symbol) DO UPDATE`
 * statement, and its effect on the table.
 */
module UpdateStockInfo {
  import opened Wrappers
  import opened Text
  import opened UpdateStockData

  /** The optional fields copied from the ticker information, in the order the row lists them. */
  const InfoFields: seq<string> := ["exchange", "sector", "industry", "country", "currency"]

  /** A present, non-empty text value (Python truthiness). */
  predicate Truthy(info: map<string, string>, key: string)
  {
    key in info && info[key] != ""
  }

  /** `info.get('longName') or info.get('shortName')`, if that is truthy. */
  function CompanyName(info: map<string, string>): (r: Option<string>)
    ensures r.Some? <==> Truthy(info, "longName") || Truthy(info, "shortName")
    ensures Truthy(info, "longName") ==> r == Some(info["longName"])
    ensures !Truthy(info, "longName") && Truthy(info, "shortName") ==> r == Some(info["shortName"])
  {
    if Truthy(info, "longName") then Some(info["longName"])
    else if Truthy(info, "shortName") then Some(info["shortName"])
    else None
  }

  /** The fields of `names` present in `info` (values that are not `None`), in order. */
  function Fields(info: map<string, string>, names: seq<string>): (fs: seq<(string, string)>)
    ensures forall p :: p in fs <==> p.0 in names && p.0 in info && p.1 == info[p.0]
  {
    if names == [] then []
    else (if names[0] in info then [(names[0], info[names[0]])] else []) + Fields(info, names[1..])
  }

  /** `stock_data` after the `None` values are dropped. */
  function StockData(ticker: string, company: string, info: map<string, string>): seq<(string, string)>
  {
    [("ticker_symbol", ticker), ("company_name", company)] + Fields(info, InfoFields)
  }

  /** `update_data`: the entries whose key is a column of `stock_info`, in order. */
  function Kept(data: seq<(string, string)>, columns: set<string>): (kept: seq<(string, string)>)
    ensures forall p :: p in kept <==> p in data && p.0 in columns
  {
    if data == [] then []
    else (if data[0].0 in columns then [data[0]] else []) + Kept(data[1..], columns)
  }

  function Keys(data: seq<(string, string)>): (ks: seq<string>)
    ensures |ks| == |data| && forall i :: 0 <= i < |data| ==> ks[i] == data[i].0
  {
    seq(|data|, i requires 0 <= i < |data| => data[i].0)
  }

  function Values(data: seq<(string, string)>): (vs: seq<string>)
    ensures |vs| == |data| && forall i :: 0 <= i < |data| ==> vs[i] == data[i].1
  {
    seq(|data|, i requires 0 <= i < |data| => data[i].1)
  }

  /** `", ".join(["?"] * n)`. */
  function Marks(n: nat): (ms: seq<string>)
    ensures |ms| == n && forall i :: 0 <= i < n ==> ms[i] == "?"
  {
    seq(n, _ => "?")
  }

  function Assign(key: string): string
  {
    key + " = excluded." + key
  }

  /** The `key = excluded.key` assignments for every key but `ticker_symbol`, in order. */
  function Assignments(keys: seq<string>): (as_: seq<string>)
  {
    if keys == [] then []
    else (if keys[0] != "ticker_symbol" then [Assign(keys[0])] else []) + Assignments(keys[1..])
  }

  /** The statement text sent to the database. */
  function Statement(kept: seq<(string, string)>): string
  {
    "INSERT INTO stock_info (" + Join(Keys(kept), ", ") + ") VALUES (" + Join(Marks(|kept|), ", ") +
    ") ON CONFLICT (ticker_symbol) DO UPDATE SET " + Join(Assignments(Keys(kept)), ", ") + ";"
  }

  /**
   * The column list and the placeholders have one entry per kept key, with
   * the values in the same order; for column names free of commas both
   * texts have the same number of commas.
   */
  lemma StatementShape(kept: seq<(string, string)>)
    requires kept != [] && forall i :: 0 <= i < |kept| ==> ',' !in kept[i].0
    ensures |Keys(kept)| == |Marks(|kept|)| == |Values(kept)|
    ensures Count(Join(Keys(kept), ", "), ',') == Count(Join(Marks(|kept|), ", "), ',') == |kept| - 1
  {
    CommaSeparator();
    CommaFreeJoin(Keys(kept));
    CommaFreeJoin(Marks(|kept|));
  }

  /** Comma-free pieces joined by `", "`: one comma per gap. */
  lemma CommaFreeJoin(parts: seq<string>)
    requires |parts| >= 1 && forall i :: 0 <= i < |parts| ==> ',' !in parts[i]
    ensures Count(Join(parts, ", "), ',') == |parts| - 1
  {
    CommaSeparator();
    CountJoinOnce(parts, ", ", ',');
  }

  lemma CommaSeparator()
    ensures Count(", ", ',') == 1
  {
    assert ", "[1..] == " ";
    assert " "[1..] == "";
  }

  /**
   * An assignment is made for every key other than `ticker_symbol`, and
   * the list is empty (the statement then has an empty `SET`) exactly when
   * no such key is kept.
   */
  lemma {:induction false} AssignmentsFacts(keys: seq<string>)
    ensures forall k :: k in keys && k != "ticker_symbol" ==> Assign(k) in Assignments(keys)
    ensures |Assignments(keys)| <= |keys|
    ensures Assignments(keys) == [] <==> forall k :: k in keys ==> k == "ticker_symbol"
  {
    if keys != [] {
      var rest := keys[1..];
      AssignmentsFacts(rest);
      var head := if keys[0] != "ticker_symbol" then [Assign(keys[0])] else [];
      assert Assignments(keys) == head + Assignments(rest);
      forall k | k in keys && k != "ticker_symbol"
        ensures Assign(k) in Assignments(keys)
      {
        if k == keys[0] {
          assert Assign(k) in head;
        } else {
          assert k in rest;
        }
      }
      assert forall k :: k in rest ==> k in keys;
      if forall k :: k in keys ==> k == "ticker_symbol" {
        assert keys[0] in keys;
      }
      if Assignments(keys) != [] && head == [] {
        var k :| k in rest && k != "ticker_symbol";
        assert k in keys;
      }
    }
  }

  /** The columns and values of the kept entries as a row. */
  function RowOf(data: seq<(string, string)>): (r: InfoRow)
  {
    if data == [] then map[] else RowOf(data[..|data| - 1])[data[|data| - 1].0 := data[|data| - 1].1]
  }

  /** The table after the statement: a new ticker gets the kept entries; a stored one has them overwritten, except its ticker. */
  function Applied(table: StockInfo, ticker: string, kept: seq<(string, string)>): StockInfo
  {
    if ticker in table then
      table[ticker := table[ticker] + RowOf(Without(kept, "ticker_symbol"))]
    else table[ticker := RowOf(kept)]
  }

  /** The entries whose key is not `key`, in order. */
  function Without(data: seq<(string, string)>, key: string): (r: seq<(string, string)>)
    ensures forall p :: p in r <==> p in data && p.0 != key
  {
    if data == [] then []
    else (if data[0].0 != key then [data[0]] else []) + Without(data[1..], key)
  }

  /**
   * `update_stock_info(ticker)`: `None` (the function returns `False`) when
   * the information cannot be fetched, has no company name, keeps no column,
   * or the statement fails (an empty `SET` list, or a database error);
   * otherwise the new table.
   */
  function Update(table: StockInfo, ticker: string, fetched: Result<map<string, string>, string>,
                  columns: set<string>, dbOk: bool): Option<StockInfo>
  {
    if fetched.Err? then None
    else
      match CompanyName(fetched.value)
      case None => None
      case Some(company) =>
        var kept := Kept(StockData(ticker, company, fetched.value), columns);
        if kept == [] || Assignments(Keys(kept)) == [] || !dbOk then None
        else Some(Applied(table, ticker, kept))
  }

  lemma {:induction false} RowOfFacts(data: seq<(string, string)>, c: string)
    ensures c in RowOf(data) <==> exists i :: 0 <= i < |data| && data[i].0 == c
    ensures forall i :: 0 <= i < |data| && data[i].0 == c && (forall j :: i < j < |data| ==> data[j].0 != c) ==>
      c in RowOf(data) && RowOf(data)[c] == data[i].1
  {
    if data != [] {
      var n := |data| - 1;
      RowOfFacts(data[..n], c);
      if exists i :: 0 <= i < |data[..n]| && data[..n][i].0 == c {
        var i :| 0 <= i < |data[..n]| && data[..n][i].0 == c;
        assert data[i].0 == c;
      }
      if exists i :: 0 <= i < |data| && data[i].0 == c {
        var i :| 0 <= i < |data| && data[i].0 == c;
        if i < n {
          assert data[..n][i].0 == c;
        }
      }
      forall i | 0 <= i < |data| && data[i].0 == c && (forall j :: i < j < |data| ==> data[j].0 != c)
        ensures c in RowOf(data) && RowOf(data)[c] == data[i].1
      {
        if i < n {
          assert data[..n][i] == data[i];
        }
      }
    }
  }

  /** Without a company name the table is not touched. */
  lemma NoCompanyNoChange(table: StockInfo, ticker: string, info: map<string, string>, columns: set<string>, dbOk: bool)
    requires !Truthy(info, "longName") && !Truthy(info, "shortName")
    ensures Update(table, ticker, Ok(info), columns, dbOk).None?
  {
  }

  /** Keys listed at most once. */
  predicate DistinctKeys(data: seq<(string, string)>)
  {
    forall i, j :: 0 <= i < j < |data| ==> data[i].0 != data[j].0
  }

  /** A successful update adds or changes the ticker's row and no other. */
  lemma AppliedOnlyTicker(table: StockInfo, ticker: string, kept: seq<(string, string)>)
    ensures var u := Applied(table, ticker, kept);
      u.Keys == table.Keys + {ticker} && forall t :: t in table && t != ticker ==> u[t] == table[t]
  {
  }

  /**
   * Every kept entry other than the ticker's own column is stored in the
   * ticker's row; a stored row keeps every column the statement does not
   * name, and a new row has exactly the kept columns.
   */
  lemma AppliedRow(table: StockInfo, ticker: string, kept: seq<(string, string)>, c: string, v: string)
    requires DistinctKeys(kept)
    ensures var row := Applied(table, ticker, kept)[ticker];
      ((c, v) in kept && c != "ticker_symbol" ==> c in row && row[c] == v) &&
      (ticker in table && c !in Keys(kept) && c in table[ticker] ==> c in row && row[c] == table[ticker][c]) &&
      (ticker !in table ==> (c in row <==> c in Keys(kept)))
  {
    var rest := Without(kept, "ticker_symbol");
    WithoutKeepsDistinct(kept, "ticker_symbol");
    RowOfFacts(kept, c);
    RowOfFacts(rest, c);
    if (c, v) in kept && c != "ticker_symbol" {
      LastIn(kept, c, v);
      LastIn(rest, c, v);
    }
    if c !in Keys(kept) {
      forall i | 0 <= i < |rest|
        ensures rest[i].0 != c
      {
        assert rest[i] in rest;
        var k :| 0 <= k < |kept| && kept[k] == rest[i];
        assert Keys(kept)[k] == rest[i].0;
      }
    }
    if ticker !in table && c in Keys(kept) {
      var k :| 0 <= k < |kept| && Keys(kept)[k] == c;
      assert kept[k].0 == c;
    }
  }

  /**
   * The outcome in the terms of the fetched information: a successful
   * update stores the company name (when `company_name` is a column) and
   * every present optional field that is a column, in the ticker's row.
   */
  lemma UpdateStoresInfo(table: StockInfo, ticker: string, info: map<string, string>, columns: set<string>, dbOk: bool, c: string)
    requires Update(table, ticker, Ok(info), columns, dbOk).Some?
    ensures var u := Update(table, ticker, Ok(info), columns, dbOk).value;
      u.Keys == table.Keys + {ticker} &&
      (forall t :: t in table && t != ticker ==> u[t] == table[t]) &&
      ("company_name" in columns ==> "company_name" in u[ticker] && u[ticker]["company_name"] == CompanyName(info).value) &&
      (c in columns && c in InfoFields && c in info ==> c in u[ticker] && u[ticker][c] == info[c])
  {
    var company := CompanyName(info).value;
    var data := StockData(ticker, company, info);
    var kept := Kept(data, columns);
    KeptDistinct(ticker, company, info, columns);
    AppliedOnlyTicker(table, ticker, kept);
    assert ("company_name", company) in data;
    AppliedRow(table, ticker, kept, "company_name", company);
    if c in columns && c in InfoFields && c in info {
      assert (c, info[c]) in Fields(info, InfoFields);
      assert (c, info[c]) in data;
      assert c != "ticker_symbol";
      AppliedRow(table, ticker, kept, c, info[c]);
    }
  }

  /** The kept keys are distinct: the row never lists a column twice. */
  lemma KeptDistinct(ticker: string, company: string, info: map<string, string>, columns: set<string>)
    ensures DistinctKeys(Kept(StockData(ticker, company, info), columns))
  {
    var fs := Fields(info, InfoFields);
    InfoFieldsDistinct();
    FieldsDistinct(info, InfoFields);
    forall p | p in fs ensures p.0 != "ticker_symbol" && p.0 != "company_name" {
      assert p.0 in InfoFields;
    }
    PrefixedDistinct(("ticker_symbol", ticker), ("company_name", company), fs);
    KeptKeepsDistinct(StockData(ticker, company, info), columns);
  }

  lemma InfoFieldsDistinct()
    ensures forall i, j :: 0 <= i < j < |InfoFields| ==> InfoFields[i] != InfoFields[j]
    ensures "ticker_symbol" !in InfoFields && "company_name" !in InfoFields
  {
  }

  /** Two entries with distinct keys that no entry of `fs` has, in front of `fs`. */
  lemma PrefixedDistinct(a: (string, string), b: (string, string), fs: seq<(string, string)>)
    requires a.0 != b.0 && DistinctKeys(fs)
    requires forall p :: p in fs ==> p.0 != a.0 && p.0 != b.0
    ensures DistinctKeys([a, b] + fs)
  {
    var data := [a, b] + fs;
    forall i, j | 0 <= i < j < |data|
      ensures data[i].0 != data[j].0
    {
      if j >= 2 {
        assert data[j] == fs[j - 2];
        assert data[j] in fs;
        if i >= 2 {
          assert data[i] == fs[i - 2];
        }
      }
    }
  }

  lemma {:induction false} FieldsDistinct(info: map<string, string>, names: seq<string>)
    requires forall i, j :: 0 <= i < j < |names| ==> names[i] != names[j]
    ensures DistinctKeys(Fields(info, names))
  {
    if names != [] {
      FieldsDistinct(info, names[1..]);
      var rest := Fields(info, names[1..]);
      forall j | 0 <= j < |rest|
        ensures rest[j].0 != names[0]
      {
        assert rest[j] in rest;
        var k :| 0 <= k < |names[1..]| && names[1..][k] == rest[j].0;
        assert names[k + 1] == rest[j].0;
      }
    }
  }

  lemma {:induction false} KeptKeepsDistinct(data: seq<(string, string)>, columns: set<string>)
    requires DistinctKeys(data)
    ensures DistinctKeys(Kept(data, columns))
  {
    if data != [] {
      KeptKeepsDistinct(data[1..], columns);
      var rest := Kept(data[1..], columns);
      forall j | 0 <= j < |rest|
        ensures rest[j].0 != data[0].0
      {
        assert rest[j] in rest;
        var k :| 0 <= k < |data[1..]| && data[1..][k] == rest[j];
        assert data[k + 1] == rest[j];
      }
    }
  }

  lemma {:induction false} WithoutKeepsDistinct(data: seq<(string, string)>, key: string)
    requires DistinctKeys(data)
    ensures DistinctKeys(Without(data, key))
  {
    if data != [] {
      WithoutKeepsDistinct(data[1..], key);
      var rest := Without(data[1..], key);
      forall j | 0 <= j < |rest|
        ensures rest[j].0 != data[0].0
      {
        assert rest[j] in rest;
        var k :| 0 <= k < |data[1..]| && data[1..][k] == rest[j];
        assert data[k + 1] == rest[j];
      }
    }
  }

  /** In a list with distinct keys, the row holds each entry's value. */
  lemma LastIn(data: seq<(string, string)>, c: string, v: string)
    requires (c, v) in data && DistinctKeys(data)
    ensures c in RowOf(data) && RowOf(data)[c] == v
  {
    var i :| 0 <= i < |data| && data[i] == (c, v);
    RowOfFacts(data, c);
  }

  /** The `stock_info` table, changed by the upsert. */
  class InfoStore {
    var rows: StockInfo

    constructor(initial: StockInfo)
      ensures rows == initial
    {
      rows := initial;
    }

    /** `update_stock_info(db, ticker)`: `True` exactly when the statement is committed. */
    method UpdateStockInfo(ticker: string, fetched: Result<map<string, string>, string>, columns: set<string>, dbOk: bool)
      returns (ok: bool)
      modifies this
      ensures var r := Update(old(rows), ticker, fetched, columns, dbOk);
        ok == r.Some? && rows == if ok then r.value else old(rows)
    {
      if fetched.Err? {
        return false;
      }
      var company := CompanyName(fetched.value);
      if company.None? {
        return false;
      }
      var kept := Kept(StockData(ticker, company.value, fetched.value), columns);
      if kept == [] {
        return false;
      }
      if Assignments(Keys(kept)) == [] || !dbOk {
        return false;
      }
      rows := Applied(rows, ticker, kept);
      return true;
    }
  }
}
