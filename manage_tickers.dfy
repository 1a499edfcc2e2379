/**
 * The `target_tickers` administration commands: `add` upserts a ticker with
 * its comma-separated feature list, `remove` deletes one ticker, and `list`
 * shows every ticker in code-point order of its symbol. Each command stops
 * with exit status 1 on a bad argument or a database error and finishes with
 * status 0 otherwise.
 */
module ManageTickers {
  import opened Wrappers
  import opened Text

  /** The table: ticker symbol to its feature list. */
  type Targets = map<string, string>

  /** Outcome of a command: the exit status and the table afterwards. */
  datatype Outcome = Outcome(exitCode: int, table: Targets)

  /** `add_ticker`: both arguments must be non-empty; a database error leaves the table as it was. */
  function AddTicker(m: Targets, ticker: string, features: string, dbOk: bool): (o: Outcome)
    ensures o.exitCode == 0 || o.exitCode == 1
  {
    if ticker == "" || features == "" then Outcome(1, m)
    else if !dbOk then Outcome(1, m)
    else Outcome(0, m[ticker := features])
  }

  /** `remove_ticker`: an absent ticker is reported as not found and still succeeds. */
  function RemoveTicker(m: Targets, ticker: string, dbOk: bool): (o: Outcome)
    ensures o.exitCode == 0 || o.exitCode == 1
  {
    if ticker == "" || !dbOk then Outcome(1, m)
    else Outcome(0, m - {ticker})
  }

  /**
   * Add succeeds exactly for two non-empty arguments and a working database;
   * then the ticker maps to the new features (overwriting an old entry) and
   * every other ticker is unchanged. A failed add changes nothing.
   */
  lemma AddFacts(m: Targets, ticker: string, features: string, dbOk: bool)
    ensures var o := AddTicker(m, ticker, features, dbOk);
      (o.exitCode == 0 <==> ticker != "" && features != "" && dbOk)
      && (o.exitCode == 0 ==>
            ticker in o.table && o.table[ticker] == features
            && o.table.Keys == m.Keys + {ticker}
            && forall t :: t in m && t != ticker ==> o.table[t] == m[t])
      && (o.exitCode != 0 ==> o.table == m)
  {
  }

  /**
   * Remove fails only on an empty ticker or a database error. Otherwise it
   * deletes exactly that ticker, whether or not it was present.
   */
  lemma RemoveFacts(m: Targets, ticker: string, dbOk: bool)
    ensures var o := RemoveTicker(m, ticker, dbOk);
      (o.exitCode == 0 <==> ticker != "" && dbOk)
      && (o.exitCode == 0 ==>
            o.table.Keys == m.Keys - {ticker}
            && forall t :: t in o.table ==> o.table[t] == m[t])
      && (o.exitCode != 0 ==> o.table == m)
  {
  }

  /** Removing an absent ticker is a successful no-op. */
  lemma RemoveAbsent(m: Targets, ticker: string)
    requires ticker != "" && ticker !in m
    ensures RemoveTicker(m, ticker, true) == Outcome(0, m)
  {
  }

  /** Adding the same entry twice is the same as adding it once. */
  lemma AddIdempotent(m: Targets, ticker: string, features: string)
    ensures var once := AddTicker(m, ticker, features, true);
      AddTicker(once.table, ticker, features, true) == once
  {
  }

  /** Adding then removing a ticker leaves the other tickers exactly as they were. */
  lemma AddThenRemove(m: Targets, ticker: string, features: string)
    requires ticker != "" && features != ""
    ensures RemoveTicker(AddTicker(m, ticker, features, true).table, ticker, true).table == m - {ticker}
  {
    assert m[ticker := features] - {ticker} == m - {ticker};
  }

  /** Strictly increasing in code-point order: sorted and free of repeats. */
  predicate StrictlySorted(xs: seq<string>)
  {
    forall i, j :: 0 <= i < j < |xs| ==> LexLe(xs[i], xs[j]) && xs[i] != xs[j]
  }

  /** `k` inserted into a sorted list at its place. */
  function Insert(xs: seq<string>, k: string): (r: seq<string>)
    ensures |r| == |xs| + 1
    ensures forall x :: x in r <==> x in xs || x == k
  {
    if xs == [] then [k]
    else if LexLe(k, xs[0]) then [k] + xs
    else
      var rest := Insert(xs[1..], k);
      assert forall x :: x in xs <==> x == xs[0] || x in xs[1..];
      [xs[0]] + rest
  }

  /** Inserting a new key keeps a list strictly sorted. */
  lemma {:induction false} InsertSorted(xs: seq<string>, k: string)
    requires StrictlySorted(xs) && k !in xs
    ensures StrictlySorted(Insert(xs, k))
    decreases |xs|
  {
    if xs != [] {
      var r := Insert(xs, k);
      if LexLe(k, xs[0]) {
        forall j | 0 <= j < |xs| ensures LexLe(k, xs[j]) {
          if j > 0 { LexLeTransitive(k, xs[0], xs[j]); }
        }
        forall i, j | 0 <= i < j < |r| ensures LexLe(r[i], r[j]) && r[i] != r[j] {
          if i > 0 { assert r[i] == xs[i - 1]; }
          assert r[j] == xs[j - 1];
        }
      } else {
        LexLeTotal(k, xs[0]);
        var tail := xs[1..];
        assert StrictlySorted(tail) by {
          forall i, j | 0 <= i < j < |tail| ensures LexLe(tail[i], tail[j]) && tail[i] != tail[j] {
            assert tail[i] == xs[i + 1] && tail[j] == xs[j + 1];
          }
        }
        InsertSorted(tail, k);
        var rest := Insert(tail, k);
        assert r == [xs[0]] + rest;
        forall j | 0 <= j < |rest| ensures LexLe(xs[0], rest[j]) && xs[0] != rest[j] {
          assert rest[j] in rest;
          if rest[j] != k {
            var q :| 0 <= q < |tail| && tail[q] == rest[j];
            assert xs[q + 1] == tail[q];
          }
        }
        forall i, j | 0 <= i < j < |r| ensures LexLe(r[i], r[j]) && r[i] != r[j] {
          assert r[j] == rest[j - 1];
          if i > 0 { assert r[i] == rest[i - 1]; }
        }
      }
    }
  }

  /** The row of `list`: a ticker and its feature list. */
  type Listed = (string, string)

  /** `rows` is the answer to `SELECT ticker, features ... ORDER BY ticker` on `m`. */
  ghost predicate IsListing(m: Targets, rows: seq<Listed>)
  {
    |rows| == |m|
    && (forall i, j :: 0 <= i < j < |rows| ==> LexLe(rows[i].0, rows[j].0) && rows[i].0 != rows[j].0)
    && (forall i :: 0 <= i < |rows| ==> rows[i].0 in m && rows[i].1 == m[rows[i].0])
    && (forall t :: t in m ==> exists i :: 0 <= i < |rows| && rows[i].0 == t)
  }

  /** A ticker appears in a listing exactly when it is in the table, with its features. */
  lemma ListingShows(m: Targets, rows: seq<Listed>, ticker: string)
    requires IsListing(m, rows)
    ensures (exists i :: 0 <= i < |rows| && rows[i].0 == ticker) <==> ticker in m
    ensures ticker in m ==> exists i :: 0 <= i < |rows| && rows[i] == (ticker, m[ticker])
  {
  }

  /**
   * The integration scenario: remove, add, remove again. After the add the
   * ticker is listed with its features; after each remove it is not.
   */
  lemma AddListRemoveList(m: Targets, ticker: string, features: string, before: seq<Listed>,
                          during: seq<Listed>, after: seq<Listed>)
    requires ticker != "" && features != ""
    requires var m1 := RemoveTicker(m, ticker, true).table;
      var m2 := AddTicker(m1, ticker, features, true).table;
      var m3 := RemoveTicker(m2, ticker, true).table;
      IsListing(m1, before) && IsListing(m2, during) && IsListing(m3, after)
    ensures forall i :: 0 <= i < |before| ==> before[i].0 != ticker
    ensures exists i :: 0 <= i < |during| && during[i] == (ticker, features)
    ensures forall i :: 0 <= i < |after| ==> after[i].0 != ticker
  {
    var m2 := AddTicker(RemoveTicker(m, ticker, true).table, ticker, features, true).table;
    ListingShows(m2, during, ticker);
  }

  /** The `target_tickers` table of the database. */
  class TargetTable {
    var targets: Targets

    constructor(initial: Targets)
      ensures targets == initial
    {
      targets := initial;
    }

    /** `add_ticker`; the follow-up `update_stock_info` call runs against its own table. */
    method Add(ticker: string, features: string, dbOk: bool) returns (exitCode: int)
      modifies this
      ensures exitCode == AddTicker(old(targets), ticker, features, dbOk).exitCode
      ensures targets == AddTicker(old(targets), ticker, features, dbOk).table
    {
      if ticker == "" || features == "" {
        return 1;
      }
      if !dbOk {
        return 1;
      }
      targets := targets[ticker := features];
      exitCode := 0;
    }

    /** `remove_ticker`; `found` is false when no row was deleted (`rowcount == 0`). */
    method Remove(ticker: string, dbOk: bool) returns (exitCode: int, found: bool)
      modifies this
      ensures exitCode == RemoveTicker(old(targets), ticker, dbOk).exitCode
      ensures targets == RemoveTicker(old(targets), ticker, dbOk).table
      ensures exitCode == 0 ==> (found <==> ticker in old(targets))
    {
      found := false;
      if ticker == "" || !dbOk {
        return 1, false;
      }
      found := ticker in targets;
      targets := targets - {ticker};
      exitCode := 0;
    }

    /**
     * `list_tickers`: the rows in ticker order and whether the "no tickers
     * yet" message is shown; status 1 on a database error.
     */
    method List(dbOk: bool) returns (exitCode: int, rows: seq<Listed>, noneYet: bool)
      ensures exitCode == (if dbOk then 0 else 1)
      ensures dbOk ==> IsListing(targets, rows) && (noneYet <==> targets == map[])
    {
      if !dbOk {
        return 1, [], false;
      }
      var remaining := targets.Keys;
      var sorted: seq<string> := [];
      while remaining != {}
        invariant remaining <= targets.Keys
        invariant forall x :: x in sorted <==> x in targets.Keys && x !in remaining
        invariant StrictlySorted(sorted)
        invariant |sorted| + |remaining| == |targets.Keys|
        decreases |remaining|
      {
        var k :| k in remaining;
        InsertSorted(sorted, k);
        sorted := Insert(sorted, k);
        remaining := remaining - {k};
      }
      var table := targets;
      assert forall i :: 0 <= i < |sorted| ==> sorted[i] in table by {
        forall i | 0 <= i < |sorted| ensures sorted[i] in table { assert sorted[i] in sorted; }
      }
      rows := seq(|sorted|, i requires 0 <= i < |sorted| => (sorted[i], table[sorted[i]]));
      forall t | t in targets ensures exists i :: 0 <= i < |rows| && rows[i].0 == t {
        assert t in sorted;
        var i :| 0 <= i < |sorted| && sorted[i] == t;
        assert rows[i].0 == t;
      }
      assert |targets| == |targets.Keys|;
      exitCode := 0;
      noneYet := |rows| == 0;
    }
  }
}
