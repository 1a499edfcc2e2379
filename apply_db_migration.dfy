/**
 * The schema migration that adds a `notification_sent BOOLEAN DEFAULT false`
 * column to `trained_models` and to `prediction_results`: each column is
 * added only when it is missing, all in one transaction that is committed
 * once at the end and rolled back on any error.
 */
module ApplyDbMigration {
  import opened Wrappers

  /** A column's declared type and default. */
  datatype ColumnDef = ColumnDef(sqlType: string, default: string)

  /** The public schema: its tables and their columns. */
  datatype Schema = Schema(tables: set<string>, columns: map<(string, string), ColumnDef>)

  /** Every column belongs to an existing table. */
  predicate WellFormed(s: Schema)
  {
    forall key :: key in s.columns ==> key.0 in s.tables
  }

  /** One entry of the `migrations` list. */
  datatype Migration = Migration(table: string, column: string, def: ColumnDef)

  const NotificationFlag: ColumnDef := ColumnDef("BOOLEAN", "false")

  const Migrations: seq<Migration> := [
    Migration("trained_models", "notification_sent", NotificationFlag),
    Migration("prediction_results", "notification_sent", NotificationFlag)
  ]

  /** `column_exists` then `ALTER TABLE ... ADD COLUMN`, which fails on a missing table. */
  function Step(s: Schema, m: Migration): Result<Schema, string>
  {
    if (m.table, m.column) in s.columns then Ok(s)
    else if m.table !in s.tables then Err("relation \"" + m.table + "\" does not exist")
    else Ok(Schema(s.tables, s.columns[(m.table, m.column) := m.def]))
  }

  /** The loop of lines 50-61: the migrations in order, stopping at the first error. */
  function Migrate(s: Schema, ms: seq<Migration>): Result<Schema, string>
  {
    Fold(s, ms, Step)
  }

  /**
   * A step fails exactly when its column is missing and so is its table; it
   * adds its column only when absent, keeps every other column and every
   * table, and keeps the schema well formed.
   */
  lemma StepFacts(s: Schema, m: Migration)
    ensures Step(s, m).Err? <==> (m.table, m.column) !in s.columns && m.table !in s.tables
    ensures Step(s, m).Ok? ==>
      var t := Step(s, m).value;
      t.tables == s.tables
      && t.columns.Keys == s.columns.Keys + {(m.table, m.column)}
      && (forall key :: key in s.columns ==> t.columns[key] == s.columns[key])
      && ((m.table, m.column) !in s.columns ==> t.columns[(m.table, m.column)] == m.def)
      && (WellFormed(s) ==> WellFormed(t))
  {
  }

  /** `t` is `s` with columns added: only those the migrations name, and every one of them. */
  predicate OnlyAdds(s: Schema, t: Schema, ms: seq<Migration>)
  {
    t.tables == s.tables
    && (forall key :: key in s.columns ==> key in t.columns && t.columns[key] == s.columns[key])
    && (forall key :: key in t.columns ==> key in s.columns || exists i :: 0 <= i < |ms| && key == (ms[i].table, ms[i].column))
    && (forall i :: 0 <= i < |ms| ==> (ms[i].table, ms[i].column) in t.columns)
    && (WellFormed(s) ==> WellFormed(t))
  }

  /** A successful run changes no table and no existing column; it only adds the migrations' columns. */
  lemma {:induction false} MigrateOnlyAdds(s: Schema, ms: seq<Migration>)
    requires Migrate(s, ms).Ok?
    ensures OnlyAdds(s, Migrate(s, ms).value, ms)
    decreases |ms|
  {
    if ms != [] {
      var n := |ms| - 1;
      FoldNext(s, ms, Step, n);
      assert ms[..n + 1] == ms;
      MigrateOnlyAdds(s, ms[..n]);
      OnlyAddsStep(s, Migrate(s, ms[..n]).value, ms);
    }
  }

  /** One more successful step keeps `OnlyAdds`, now for one more migration. */
  lemma OnlyAddsStep(s: Schema, mid: Schema, ms: seq<Migration>)
    requires ms != [] && OnlyAdds(s, mid, ms[..|ms| - 1]) && Step(mid, ms[|ms| - 1]).Ok?
    ensures OnlyAdds(s, Step(mid, ms[|ms| - 1]).value, ms)
  {
    var init := ms[..|ms| - 1];
    var m := ms[|ms| - 1];
    var t := Step(mid, m).value;
    StepFacts(mid, m);
    forall key | key in t.columns
      ensures key in s.columns || exists i :: 0 <= i < |ms| && key == (ms[i].table, ms[i].column)
    {
      if key == (m.table, m.column) {
      } else if key !in s.columns {
        assert key in mid.columns;
        var i :| 0 <= i < |init| && key == (init[i].table, init[i].column);
        assert ms[i] == init[i];
      }
    }
    forall i | 0 <= i < |ms| ensures (ms[i].table, ms[i].column) in t.columns {
      if i < |init| { assert ms[i] == init[i]; }
    }
  }

  /** Running the migrations a second time changes nothing. */
  lemma MigrateIdempotent(s: Schema, ms: seq<Migration>)
    requires Migrate(s, ms).Ok?
    ensures Migrate(Migrate(s, ms).value, ms) == Migrate(s, ms)
  {
    MigrateOnlyAdds(s, ms);
    MigrateNoOp(Migrate(s, ms).value, ms);
  }

  /** When every column already exists the migrations do nothing. */
  lemma {:induction false} MigrateNoOp(s: Schema, ms: seq<Migration>)
    requires forall i :: 0 <= i < |ms| ==> (ms[i].table, ms[i].column) in s.columns
    ensures Migrate(s, ms) == Ok(s)
    decreases |ms|
  {
    if ms != [] {
      var n := |ms| - 1;
      assert forall i :: 0 <= i < n ==> ms[..n][i] == ms[i];
      MigrateNoOp(s, ms[..n]);
      FoldNext(s, ms, Step, n);
      assert ms[..n + 1] == ms;
    }
  }

  /**
   * The two notification migrations succeed exactly when both tables exist
   * (in a well-formed schema); afterwards both flags exist, a flag that was
   * missing is `BOOLEAN DEFAULT false`, and nothing else differs.
   */
  lemma NotificationMigration(s: Schema)
    requires WellFormed(s)
    ensures Migrate(s, Migrations).Ok? <==> "trained_models" in s.tables && "prediction_results" in s.tables
    ensures Migrate(s, Migrations).Ok? ==>
      var t := Migrate(s, Migrations).value;
      t.tables == s.tables
      && ("trained_models", "notification_sent") in t.columns
      && ("prediction_results", "notification_sent") in t.columns
      && (("trained_models", "notification_sent") !in s.columns ==> t.columns[("trained_models", "notification_sent")] == NotificationFlag)
      && (("prediction_results", "notification_sent") !in s.columns ==> t.columns[("prediction_results", "notification_sent")] == NotificationFlag)
      && t.columns.Keys == s.columns.Keys + {("trained_models", "notification_sent"), ("prediction_results", "notification_sent")}
      && (forall key :: key in s.columns ==> t.columns[key] == s.columns[key])
  {
    var m0 := Migrations[0];
    var m1 := Migrations[1];
    FoldNext(s, Migrations, Step, 0);
    FoldNext(s, Migrations, Step, 1);
    assert Migrations[..0] == [];
    assert Migrations[..2] == Migrations;
    StepFacts(s, m0);
    if Step(s, m0).Ok? {
      StepFacts(Step(s, m0).value, m1);
    }
  }

  /** The database whose schema is migrated. */
  class Database {
    var schema: Schema

    constructor(initial: Schema)
      ensures schema == initial
    {
      schema := initial;
    }

    /**
     * `apply_migration`: the migrations run in one transaction, committed
     * once after the loop; an error, from a step or elsewhere (`dbOk`
     * false), rolls everything back.
     */
    method ApplyMigrations(dbOk: bool) returns (success: bool)
      modifies this
      ensures success <==> dbOk && Migrate(old(schema), Migrations).Ok?
      ensures success ==> schema == Migrate(old(schema), Migrations).value
      ensures !success ==> schema == old(schema)
    {
      var start := schema;
      var staged := schema;
      var i := 0;
      while i < |Migrations|
        invariant 0 <= i <= |Migrations|
        invariant schema == start == old(schema)
        invariant Fold(start, Migrations[..i], Step) == Ok(staged)
      {
        var m := Migrations[i];
        FoldNext(start, Migrations, Step, i);
        if (m.table, m.column) !in staged.columns {
          if m.table !in staged.tables {
            FoldErrorSticks(start, Migrations, Step, i + 1);
            return false;
          }
          staged := Schema(staged.tables, staged.columns[(m.table, m.column) := m.def]);
        }
        i := i + 1;
      }
      assert Migrations[..i] == Migrations;
      if !dbOk {
        return false;
      }
      schema := staged;
      success := true;
    }
  }
}
