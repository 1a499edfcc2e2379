/**
 * The `trained_models` table the training script appends to and the
 * prediction and diagnosis scripts read: rows keyed by ticker, model name and
 * version, with the latest version of a (ticker, model name) pair the
 * greatest one stored.
 */
module Registry {
  import opened Wrappers

  /** The stored columns of one `trained_models` row besides its key (the feature list decoded from its JSON text). */
  datatype ModelRecord = ModelRecord(
    model: seq<bv8>, scaler: seq<bv8>, features: seq<string>,
    hyperparameters: string, metrics: string, notes: string, created: int)

  /** `(ticker_symbol, model_name, model_version)`. */
  type Key = (string, string, int)

  type Table = map<Key, ModelRecord>

  /** The stored versions of one (ticker, model name) pair. */
  function Versions(table: Table, ticker: string, name: string): (vs: set<int>)
    ensures forall v :: v in vs <==> (ticker, name, v) in table
  {
    set k | k in table && k.0 == ticker && k.1 == name :: k.2
  }

  /** A finite non-empty set of integers has a greatest element. */
  lemma {:induction false} HasMax(s: set<int>)
    requires s != {}
    ensures exists m :: m in s && forall x :: x in s ==> x <= m
    decreases |s|
  {
    assert exists y :: y in s by {
      if forall y :: y !in s {
        assert false;
      }
    }
    var y :| y in s;
    if s != {y} {
      HasMax(s - {y});
      var m :| m in s - {y} && forall x :: x in s - {y} ==> x <= m;
      var top := if y > m then y else m;
      forall x | x in s
        ensures x <= top
      {
        if x != y {
          assert x in s - {y};
        }
      }
      assert top in s;
    } else {
      forall x | x in s
        ensures x <= y
      {
        assert x in {y};
      }
    }
  }

  function MaxOf(s: set<int>): (m: int)
    requires s != {}
    ensures m in s && forall x :: x in s ==> x <= m
  {
    HasMax(s);
    var m :| m in s && (forall x :: x in s ==> x <= m);
    m
  }

  /** `SELECT MAX(model_version) ... WHERE ticker_symbol = ? AND model_name = ?` (NULL when none). */
  function Latest(table: Table, ticker: string, name: string): (r: Option<int>)
    ensures r.None? <==> forall v :: (ticker, name, v) !in table
    ensures r.Some? ==> (ticker, name, r.value) in table
    ensures r.Some? ==> forall v :: (ticker, name, v) in table ==> v <= r.value
  {
    var vs := Versions(table, ticker, name);
    if vs == {} then None else Some(MaxOf(vs))
  }

  /**
   * The row a load picks: the exact version when one is given and is not
   * zero (Python truthiness of `version`), otherwise the greatest version.
   */
  function Select(table: Table, ticker: string, name: string, version: Option<int>): (r: Option<(int, ModelRecord)>)
    ensures r.Some? ==> (ticker, name, r.value.0) in table && r.value.1 == table[(ticker, name, r.value.0)]
    ensures version.Some? && version.value != 0 ==>
      (r.Some? <==> (ticker, name, version.value) in table) && (r.Some? ==> r.value.0 == version.value)
    ensures !(version.Some? && version.value != 0) ==>
      (r.Some? <==> exists v :: (ticker, name, v) in table) &&
      (r.Some? ==> forall v :: (ticker, name, v) in table ==> v <= r.value.0)
  {
    if version.Some? && version.value != 0 then
      var k := (ticker, name, version.value);
      if k in table then Some((version.value, table[k])) else None
    else
      match Latest(table, ticker, name)
      case None => None
      case Some(v) => Some((v, table[(ticker, name, v)]))
  }

  /** The stored table, changed only by appending rows. */
  class ModelStore {
    var rows: Table

    constructor(initial: Table)
      ensures rows == initial
    {
      rows := initial;
    }

    /** `INSERT INTO trained_models ...` of a new key, followed by a commit. */
    method Insert(k: Key, rec: ModelRecord)
      requires k !in rows
      modifies this
      ensures rows == old(rows)[k := rec]
    {
      rows := rows[k := rec];
    }
  }
}
