/**
 * Date-indexed tables: a pandas DataFrame indexed by trade date, as a set of
 * column labels and a sequence of rows, each row an epoch day and a map from
 * label to cell. Column order is not tracked (no operation of the pipeline
 * depends on it), and a label names at most one column.
 */
module Frames {
  import opened Cells

  datatype Row = Row(day: int, cells: map<string, Cell>)

  datatype Frame = Frame(columns: set<string>, rows: seq<Row>)

  /** Every row holds exactly the frame's columns. */
  ghost predicate Valid(f: Frame)
  {
    forall i :: 0 <= i < |f.rows| ==> f.rows[i].cells.Keys == f.columns
  }

  function CellOf(r: Row, c: string): Cell
  {
    if c in r.cells then r.cells[c] else NaN
  }

  /** The column labelled `c`, top to bottom (NaN where a row lacks it). */
  function Column(f: Frame, c: string): (col: seq<Cell>)
    ensures |col| == |f.rows|
    ensures forall i :: 0 <= i < |f.rows| ==> col[i] == CellOf(f.rows[i], c)
  {
    seq(|f.rows|, i requires 0 <= i < |f.rows| => CellOf(f.rows[i], c))
  }

  function Days(f: Frame): (ds: seq<int>)
    ensures |ds| == |f.rows|
    ensures forall i :: 0 <= i < |f.rows| ==> ds[i] == f.rows[i].day
  {
    seq(|f.rows|, i requires 0 <= i < |f.rows| => f.rows[i].day)
  }

  /** No two rows share a day (a unique date index). */
  predicate UniqueDays(f: Frame)
  {
    forall i, j :: 0 <= i < |f.rows| && 0 <= j < |f.rows| && i != j ==> f.rows[i].day != f.rows[j].day
  }

  /** Whether the index is unique depends only on the dates. */
  lemma UniqueDaysOfDays(f: Frame, g: Frame)
    requires Days(f) == Days(g)
    ensures UniqueDays(f) <==> UniqueDays(g)
  {
    assert forall i :: 0 <= i < |f.rows| ==> f.rows[i].day == Days(f)[i] == g.rows[i].day;
  }

  /** Days strictly increase from top to bottom (a sorted unique index). */
  predicate Increasing(f: Frame)
  {
    forall i, j :: 0 <= i < j < |f.rows| ==> f.rows[i].day < f.rows[j].day
  }

  /** The first `k` rows (`iloc[:k]`). */
  function Take(f: Frame, k: int): Frame
    requires 0 <= k <= |f.rows|
  {
    Frame(f.columns, f.rows[..k])
  }

  /** The rows dated on or before `d` (`loc[:d]` on a sorted index). */
  function UpTo(f: Frame, d: int): (g: Frame)
    ensures g.columns == f.columns
  {
    Frame(f.columns, RowsUpTo(f.rows, d))
  }

  function RowsUpTo(rows: seq<Row>, d: int): (out: seq<Row>)
    ensures |out| <= |rows|
    ensures forall i :: 0 <= i < |out| ==> out[i].day <= d
  {
    if rows == [] then []
    else (if rows[0].day <= d then [rows[0]] else []) + RowsUpTo(rows[1..], d)
  }

  /** `g` applied to every row, in order. */
  function Apply(rows: seq<Row>, g: Row -> Row): (out: seq<Row>)
    ensures |out| == |rows|
    ensures forall i :: 0 <= i < |rows| ==> out[i] == g(rows[i])
  {
    if rows == [] then [] else [g(rows[0])] + Apply(rows[1..], g)
  }

  /** A frame whose rows are `g` of the given rows, with the given labels. */
  function MapRows(f: Frame, columns: set<string>, g: Row -> Row): (r: Frame)
    ensures r.columns == columns
    ensures |r.rows| == |f.rows|
    ensures forall i :: 0 <= i < |f.rows| ==> r.rows[i] == g(f.rows[i])
  {
    Frame(columns, Apply(f.rows, g))
  }

  /** Mapping rows that keep their day commutes with cutting at a day. */
  lemma {:induction false} RowsUpToApply(rows: seq<Row>, d: int, g: Row -> Row)
    requires forall r :: g(r).day == r.day
    ensures RowsUpTo(Apply(rows, g), d) == Apply(RowsUpTo(rows, d), g)
  {
    if rows != [] {
      RowsUpToApply(rows[1..], d, g);
      assert Apply(rows, g)[1..] == Apply(rows[1..], g);
      assert Apply(rows, g)[0] == g(rows[0]);
      var head := if rows[0].day <= d then [rows[0]] else [];
      ApplyAppend(head, RowsUpTo(rows[1..], d), g);
    }
  }

  lemma {:induction false} ApplyAppend(a: seq<Row>, b: seq<Row>, g: Row -> Row)
    ensures Apply(a + b, g) == Apply(a, g) + Apply(b, g)
  {
    if a != [] {
      calc {
        Apply(a + b, g);
        { assert (a + b)[1..] == a[1..] + b; assert (a + b)[0] == a[0]; }
        [g(a[0])] + Apply(a[1..] + b, g);
        { ApplyAppend(a[1..], b, g); }
        [g(a[0])] + (Apply(a[1..], g) + Apply(b, g));
        ([g(a[0])] + Apply(a[1..], g)) + Apply(b, g);
      }
    } else {
      assert a + b == b;
    }
  }

  lemma MapRowsUpTo(f: Frame, columns: set<string>, g: Row -> Row, d: int)
    requires forall r :: g(r).day == r.day
    ensures MapRows(UpTo(f, d), columns, g) == UpTo(MapRows(f, columns, g), d)
  {
    RowsUpToApply(f.rows, d, g);
  }

  lemma MapRowsTake(f: Frame, columns: set<string>, g: Row -> Row, k: int)
    requires 0 <= k <= |f.rows|
    ensures MapRows(Take(f, k), columns, g) == Take(MapRows(f, columns, g), k)
  {
  }

  // ------------------------------------------------------------- assignment

  /** `df[c] = col`: adds or overwrites column `c`. */
  function SetColumn(f: Frame, c: string, col: seq<Cell>): (g: Frame)
    requires |col| == |f.rows|
    ensures g.columns == f.columns + {c}
    ensures |g.rows| == |f.rows|
    ensures forall i :: 0 <= i < |f.rows| ==>
      g.rows[i] == Row(f.rows[i].day, f.rows[i].cells[c := col[i]])
  {
    Frame(f.columns + {c},
      seq(|f.rows|, i requires 0 <= i < |f.rows| => Row(f.rows[i].day, f.rows[i].cells[c := col[i]])))
  }

  /** Assigning a column keeps the frame valid, sets that column and leaves the rest. */
  lemma SetColumnFacts(f: Frame, c: string, col: seq<Cell>)
    requires |col| == |f.rows|
    ensures Valid(f) ==> Valid(SetColumn(f, c, col))
    ensures Column(SetColumn(f, c, col), c) == col
    ensures forall other :: other != c ==> Column(SetColumn(f, c, col), other) == Column(f, other)
    ensures Days(SetColumn(f, c, col)) == Days(f)
  {
  }

  lemma SetColumnSets(f: Frame, c: string, col: seq<Cell>)
    requires |col| == |f.rows|
    ensures Column(SetColumn(f, c, col), c) == col
  {
  }

  lemma SetColumnOther(f: Frame, c: string, col: seq<Cell>, other: string)
    requires |col| == |f.rows| && other != c
    ensures Column(SetColumn(f, c, col), other) == Column(f, other)
  {
  }

  /** `g` is `f` with the columns `added` assigned: the same dates, every other column as it was. */
  ghost predicate Extends(f: Frame, g: Frame, added: set<string>)
  {
    |g.rows| == |f.rows| && Days(g) == Days(f) && (Valid(f) ==> Valid(g)) &&
    g.columns == f.columns + added &&
    forall c :: c !in added ==> Column(g, c) == Column(f, c)
  }

  lemma ExtendsNothing(f: Frame)
    ensures Extends(f, f, {})
  {
  }

  /** Assigning one more column extends by one more label. */
  lemma ExtendsSet(f: Frame, g: Frame, added: set<string>, c: string, col: seq<Cell>)
    requires Extends(f, g, added) && |col| == |g.rows|
    ensures Extends(f, SetColumn(g, c, col), added + {c})
  {
    SetColumnFacts(g, c, col);
  }

  lemma SetColumnTake(f: Frame, c: string, col: seq<Cell>, k: int)
    requires |col| == |f.rows| && 0 <= k <= |f.rows|
    ensures SetColumn(Take(f, k), c, col[..k]) == Take(SetColumn(f, c, col), k)
  {
  }

  lemma ColumnTake(f: Frame, c: string, k: int)
    requires 0 <= k <= |f.rows|
    ensures Column(Take(f, k), c) == Column(f, c)[..k]
  {
  }

  // ---------------------------------------------------------------- renames

  function RenameRow(r: Row, from: string, to: string): Row
  {
    if from in r.cells then Row(r.day, (r.cells - {from})[to := r.cells[from]]) else r
  }

  /** `rename(columns = {from: to})`; an absent label is ignored. */
  function RenameColumn(f: Frame, from: string, to: string): (g: Frame)
    ensures g.columns == if from in f.columns then f.columns - {from} + {to} else f.columns
    ensures |g.rows| == |f.rows|
  {
    if from in f.columns then MapRows(f, f.columns - {from} + {to}, r => RenameRow(r, from, to))
    else f
  }

  /** A sequence of single renames applied left to right. */
  function RenameColumns(f: Frame, pairs: seq<(string, string)>): (g: Frame)
    ensures |g.rows| == |f.rows|
    decreases |pairs|
  {
    if pairs == [] then f else RenameColumns(RenameColumn(f, pairs[0].0, pairs[0].1), pairs[1..])
  }

  lemma RenameColumnFacts(f: Frame, from: string, to: string)
    requires Valid(f)
    ensures Valid(RenameColumn(f, from, to))
    ensures Days(RenameColumn(f, from, to)) == Days(f)
    ensures from in f.columns ==> Column(RenameColumn(f, from, to), to) == Column(f, from)
    ensures forall c :: c != from && c != to ==> Column(RenameColumn(f, from, to), c) == Column(f, c)
  {
  }

  /** A rename keeps a frame rectangular and keeps its dates. */
  lemma RenameColumnValid(f: Frame, from: string, to: string)
    requires Valid(f)
    ensures Valid(RenameColumn(f, from, to)) && Days(RenameColumn(f, from, to)) == Days(f)
  {
    RenameColumnFacts(f, from, to);
  }

  lemma RenameColumnOther(f: Frame, from: string, to: string, c: string)
    requires c != from && c != to
    ensures Column(RenameColumn(f, from, to), c) == Column(f, c)
  {
  }

  /** In a rectangular frame, the renamed column keeps its cells. */
  lemma RenameColumnMoved(f: Frame, from: string, to: string)
    requires Valid(f) && from in f.columns
    ensures Column(RenameColumn(f, from, to), to) == Column(f, from)
  {
  }

  lemma {:induction false} RenameColumnsValid(f: Frame, pairs: seq<(string, string)>)
    requires Valid(f)
    ensures Valid(RenameColumns(f, pairs))
    ensures Days(RenameColumns(f, pairs)) == Days(f)
    decreases |pairs|
  {
    if pairs != [] {
      RenameColumnFacts(f, pairs[0].0, pairs[0].1);
      RenameColumnsValid(RenameColumn(f, pairs[0].0, pairs[0].1), pairs[1..]);
    }
  }

  lemma RenameColumnTake(f: Frame, from: string, to: string, k: int)
    requires 0 <= k <= |f.rows|
    ensures RenameColumn(Take(f, k), from, to) == Take(RenameColumn(f, from, to), k)
  {
  }

  lemma {:induction false} RenameColumnsTake(f: Frame, pairs: seq<(string, string)>, k: int)
    requires 0 <= k <= |f.rows|
    ensures RenameColumns(Take(f, k), pairs) == Take(RenameColumns(f, pairs), k)
    decreases |pairs|
  {
    if pairs != [] {
      RenameColumnTake(f, pairs[0].0, pairs[0].1, k);
      RenameColumnsTake(RenameColumn(f, pairs[0].0, pairs[0].1), pairs[1..], k);
    }
  }

  lemma RenameColumnUpTo(f: Frame, from: string, to: string, d: int)
    ensures RenameColumn(UpTo(f, d), from, to) == UpTo(RenameColumn(f, from, to), d)
  {
    if from in f.columns {
      MapRowsUpTo(f, f.columns - {from} + {to}, r => RenameRow(r, from, to), d);
    }
  }

  lemma {:induction false} RenameColumnsUpTo(f: Frame, pairs: seq<(string, string)>, d: int)
    ensures RenameColumns(UpTo(f, d), pairs) == UpTo(RenameColumns(f, pairs), d)
    decreases |pairs|
  {
    if pairs != [] {
      RenameColumnUpTo(f, pairs[0].0, pairs[0].1, d);
      RenameColumnsUpTo(RenameColumn(f, pairs[0].0, pairs[0].1), pairs[1..], d);
    }
  }

  // ---------------------------------------------------------- other per-row

  lemma PrefixInjective(p: string)
    ensures forall c1: string, c2: string :: p + c1 == p + c2 ==> c1 == c2
  {
    forall c1: string, c2: string | p + c1 == p + c2
      ensures c1 == c2
    {
      assert c1 == (p + c1)[|p|..];
      assert c2 == (p + c2)[|p|..];
    }
  }

  function PrefixRow(r: Row, p: string): Row
  {
    PrefixInjective(p);
    Row(r.day, map c | c in r.cells :: p + c := r.cells[c])
  }

  /** `add_prefix(p)`: every label gets `p` in front. */
  function AddPrefix(f: Frame, p: string): (g: Frame)
    ensures g.columns == set c | c in f.columns :: p + c
    ensures |g.rows| == |f.rows|
  {
    MapRows(f, set c | c in f.columns :: p + c, r => PrefixRow(r, p))
  }

  lemma PrefixedCell(r: Row, p: string, c: string)
    ensures CellOf(PrefixRow(r, p), p + c) == CellOf(r, c)
  {
    PrefixInjective(p);
    if c in r.cells {
      assert p + c in PrefixRow(r, p).cells;
    }
  }

  lemma AddPrefixFacts(f: Frame, p: string)
    requires Valid(f)
    ensures Valid(AddPrefix(f, p))
    ensures Days(AddPrefix(f, p)) == Days(f)
    ensures forall c :: Column(AddPrefix(f, p), p + c) == Column(f, c)
  {
    forall c
      ensures Column(AddPrefix(f, p), p + c) == Column(f, c)
    {
      forall i | 0 <= i < |f.rows|
        ensures CellOf(AddPrefix(f, p).rows[i], p + c) == CellOf(f.rows[i], c)
      {
        PrefixedCell(f.rows[i], p, c);
      }
    }
  }

  function DropRow(r: Row, names: set<string>): Row
  {
    Row(r.day, map c | c in r.cells && c !in names :: r.cells[c])
  }

  /** `drop(columns = names, errors = 'ignore')`. */
  function DropColumns(f: Frame, names: set<string>): (g: Frame)
    ensures g.columns == f.columns - names
    ensures |g.rows| == |f.rows|
  {
    MapRows(f, f.columns - names, r => DropRow(r, names))
  }

  function InfToNaNRow(r: Row): Row
  {
    Row(r.day, map c | c in r.cells :: if r.cells[c].Inf? then NaN else r.cells[c])
  }

  /** `replace([inf, -inf], nan)`. */
  function ReplaceInf(f: Frame): (g: Frame)
    ensures g.columns == f.columns
    ensures |g.rows| == |f.rows|
    ensures forall i, c :: 0 <= i < |g.rows| && c in g.rows[i].cells ==> !g.rows[i].cells[c].Inf?
  {
    MapRows(f, f.columns, InfToNaNRow)
  }

  /** A row with no missing cell. */
  predicate Complete(r: Row)
  {
    forall c :: c in r.cells ==> !r.cells[c].NaN?
  }

  function CompleteRows(rows: seq<Row>): (out: seq<Row>)
    ensures |out| <= |rows|
    ensures forall i :: 0 <= i < |out| ==> Complete(out[i])
  {
    if rows == [] then [] else (if Complete(rows[0]) then [rows[0]] else []) + CompleteRows(rows[1..])
  }

  /** `dropna()`: the rows without a missing cell, in order. */
  function DropNa(f: Frame): (g: Frame)
    ensures g.columns == f.columns
  {
    Frame(f.columns, CompleteRows(f.rows))
  }

  lemma {:induction false} CompleteRowsAppend(a: seq<Row>, b: seq<Row>)
    ensures CompleteRows(a + b) == CompleteRows(a) + CompleteRows(b)
  {
    if a != [] {
      var h := if Complete(a[0]) then [a[0]] else [];
      calc {
        CompleteRows(a + b);
        { assert (a + b)[1..] == a[1..] + b; assert (a + b)[0] == a[0]; }
        h + CompleteRows(a[1..] + b);
        { CompleteRowsAppend(a[1..], b); }
        h + (CompleteRows(a[1..]) + CompleteRows(b));
        (h + CompleteRows(a[1..])) + CompleteRows(b);
      }
    } else {
      assert a + b == b;
    }
  }

  // ------------------------------------------------------------------ joins

  /** The rows of `rows` dated `day`, in order. */
  function RowsOn(rows: seq<Row>, day: int): (out: seq<Row>)
    ensures forall i :: 0 <= i < |out| ==> out[i].day == day
  {
    if rows == [] then [] else (if rows[0].day == day then [rows[0]] else []) + RowsOn(rows[1..], day)
  }

  function NullCells(columns: set<string>): map<string, Cell>
  {
    map c | c in columns :: NaN
  }

  /** The output rows one left row contributes to a left join on the index. */
  function JoinOne(l: Row, right: Frame): seq<Row>
  {
    var ms := RowsOn(right.rows, l.day);
    if ms == [] then [Row(l.day, l.cells + NullCells(right.columns))]
    else seq(|ms|, j requires 0 <= j < |ms| => Row(l.day, l.cells + ms[j].cells))
  }

  function JoinRows(ls: seq<Row>, right: Frame): seq<Row>
  {
    if ls == [] then [] else JoinOne(ls[0], right) + JoinRows(ls[1..], right)
  }

  /**
   * `merge(left, right, left_index = True, right_index = True, how = 'left')`:
   * every left row in order, once per right row of the same day, or once with
   * the right columns missing when there is none. Labels the right frame also
   * has take the right frame's cells.
   */
  function LeftJoin(left: Frame, right: Frame): Frame
  {
    Frame(left.columns + right.columns, JoinRows(left.rows, right))
  }

  /** The one row a left row gets when the right frame has unique days. */
  function JoinedRow(l: Row, right: Frame): Row
  {
    var ms := RowsOn(right.rows, l.day);
    Row(l.day, l.cells + (if ms == [] then NullCells(right.columns) else ms[0].cells))
  }

  lemma {:induction false} RowsOnNone(rows: seq<Row>, day: int)
    requires forall i :: 0 <= i < |rows| ==> rows[i].day != day
    ensures RowsOn(rows, day) == []
  {
    if rows != [] {
      RowsOnNone(rows[1..], day);
    }
  }

  /** A right row of the given day is one of the right rows. */
  lemma {:induction false} RowsOnMember(rows: seq<Row>, day: int, k: int)
    requires 0 <= k < |RowsOn(rows, day)|
    ensures RowsOn(rows, day)[k] in rows
  {
    if rows[0].day == day && k == 0 {
    } else {
      var k' := if rows[0].day == day then k - 1 else k;
      RowsOnMember(rows[1..], day, k');
    }
  }

  lemma {:induction false} RowsOnUnique(rows: seq<Row>, day: int)
    requires forall i, j :: 0 <= i < |rows| && 0 <= j < |rows| && i != j ==> rows[i].day != rows[j].day
    ensures |RowsOn(rows, day)| <= 1
  {
    if rows != [] {
      if rows[0].day == day {
        assert forall i :: 0 <= i < |rows[1..]| ==> rows[1..][i].day == rows[i + 1].day;
        RowsOnNone(rows[1..], day);
      } else {
        RowsOnUnique(rows[1..], day);
      }
    }
  }

  /** With unique right days, the left join keeps exactly the left rows and days. */
  lemma {:induction false} LeftJoinUnique(left: Frame, right: Frame)
    requires UniqueDays(right)
    ensures LeftJoin(left, right) == MapRows(left, left.columns + right.columns, l => JoinedRow(l, right))
    decreases |left.rows|
  {
    if left.rows != [] {
      var l := left.rows[0];
      RowsOnUnique(right.rows, l.day);
      assert JoinOne(l, right) == [JoinedRow(l, right)];
      LeftJoinUnique(Frame(left.columns, left.rows[1..]), right);
    }
  }

  lemma LeftJoinLength(left: Frame, right: Frame)
    requires UniqueDays(right)
    ensures |LeftJoin(left, right).rows| == |left.rows|
  {
    LeftJoinUnique(left, right);
  }

  /** A joined row keeps the left day and cells outside the right labels, and holds both frames' labels. */
  lemma JoinedRowFacts(l: Row, right: Frame)
    requires Valid(right)
    ensures JoinedRow(l, right).day == l.day
    ensures JoinedRow(l, right).cells.Keys == l.cells.Keys + right.columns
    ensures forall c :: c !in right.columns ==> CellOf(JoinedRow(l, right), c) == CellOf(l, c)
  {
    var ms := RowsOn(right.rows, l.day);
    if ms != [] {
      RowsOnMember(right.rows, l.day, 0);
      assert ms[0].cells.Keys == right.columns;
    }
  }

  lemma LeftJoinFacts(left: Frame, right: Frame)
    requires UniqueDays(right) && Valid(left) && Valid(right)
    ensures Valid(LeftJoin(left, right))
    ensures Days(LeftJoin(left, right)) == Days(left)
    ensures forall c :: c !in right.columns ==> Column(LeftJoin(left, right), c) == Column(left, c)
  {
    LeftJoinUnique(left, right);
    var g := LeftJoin(left, right);
    forall i | 0 <= i < |left.rows|
      ensures g.rows[i].day == left.rows[i].day && g.rows[i].cells.Keys == g.columns
      ensures forall c :: c !in right.columns ==> CellOf(g.rows[i], c) == CellOf(left.rows[i], c)
    {
      assert g.rows[i] == JoinedRow(left.rows[i], right);
      assert left.rows[i].cells.Keys == left.columns;
      JoinedRowFacts(left.rows[i], right);
    }
    assert Days(g) == Days(left);
    forall c | c !in right.columns
      ensures Column(g, c) == Column(left, c)
    {
    }
  }

  /** With unique days, the rows of a day are the one row dated that day. */
  lemma {:induction false} RowsOnAt(rows: seq<Row>, j: int)
    requires 0 <= j < |rows|
    requires forall a, b :: 0 <= a < |rows| && 0 <= b < |rows| && a != b ==> rows[a].day != rows[b].day
    ensures RowsOn(rows, rows[j].day) == [rows[j]]
  {
    var day := rows[j].day;
    if j == 0 {
      assert forall a :: 0 <= a < |rows[1..]| ==> rows[1..][a].day == rows[a + 1].day;
      RowsOnNone(rows[1..], day);
    } else {
      assert rows[1..][j - 1] == rows[j];
      RowsOnAt(rows[1..], j - 1);
    }
  }

  /** A left row whose day the right frame has gets that right row's cell. */
  lemma LeftJoinMatched(left: Frame, right: Frame, c: string, i: int, j: int)
    requires UniqueDays(right) && Valid(right) && c in right.columns
    requires 0 <= i < |left.rows| && 0 <= j < |right.rows| && right.rows[j].day == left.rows[i].day
    ensures |LeftJoin(left, right).rows| == |left.rows|
    ensures Column(LeftJoin(left, right), c)[i] == Column(right, c)[j]
  {
    LeftJoinUnique(left, right);
    RowsOnAt(right.rows, j);
  }

  /** A left row whose day the right frame lacks gets a missing cell. */
  lemma LeftJoinUnmatched(left: Frame, right: Frame, c: string, i: int)
    requires UniqueDays(right) && c in right.columns && 0 <= i < |left.rows|
    requires forall j :: 0 <= j < |right.rows| ==> right.rows[j].day != left.rows[i].day
    ensures |LeftJoin(left, right).rows| == |left.rows|
    ensures Column(LeftJoin(left, right), c)[i] == NaN
  {
    LeftJoinUnique(left, right);
    RowsOnNone(right.rows, left.rows[i].day);
  }

  /** Renaming a label to itself changes nothing. */
  lemma RenameSelf(f: Frame, c: string)
    ensures RenameColumn(f, c, c) == f
  {
    if c in f.columns {
      var g := RenameColumn(f, c, c);
      assert g.columns == f.columns;
      forall i | 0 <= i < |f.rows|
        ensures g.rows[i] == f.rows[i]
      {
        var r := f.rows[i];
        if c in r.cells {
          assert (r.cells - {c})[c := r.cells[c]] == r.cells;
        }
      }
    }
  }

  lemma LeftJoinTake(left: Frame, right: Frame, k: int)
    requires UniqueDays(right) && 0 <= k <= |left.rows|
    ensures |LeftJoin(left, right).rows| == |left.rows|
    ensures LeftJoin(Take(left, k), right) == Take(LeftJoin(left, right), k)
  {
    LeftJoinUnique(left, right);
    LeftJoinUnique(Take(left, k), right);
  }

  lemma {:induction false} RowsOnUpTo(rows: seq<Row>, day: int, d: int)
    requires day <= d
    ensures RowsOn(RowsUpTo(rows, d), day) == RowsOn(rows, day)
  {
    if rows != [] {
      RowsOnUpTo(rows[1..], day, d);
      assert RowsUpTo(rows, d) == (if rows[0].day <= d then [rows[0]] else []) + RowsUpTo(rows[1..], d);
      RowsOnAppend(if rows[0].day <= d then [rows[0]] else [], RowsUpTo(rows[1..], d), day);
    }
  }

  lemma {:induction false} RowsOnAppend(a: seq<Row>, b: seq<Row>, day: int)
    ensures RowsOn(a + b, day) == RowsOn(a, day) + RowsOn(b, day)
  {
    if a != [] {
      var h := if a[0].day == day then [a[0]] else [];
      calc {
        RowsOn(a + b, day);
        { assert (a + b)[1..] == a[1..] + b; assert (a + b)[0] == a[0]; }
        h + RowsOn(a[1..] + b, day);
        { RowsOnAppend(a[1..], b, day); }
        h + (RowsOn(a[1..], day) + RowsOn(b, day));
        (h + RowsOn(a[1..], day)) + RowsOn(b, day);
      }
    } else {
      assert a + b == b;
    }
  }

  /** Right rows dated after every left row do not change a left join. */
  lemma LeftJoinIgnoresLaterRight(left: Frame, right: Frame, d: int)
    requires forall i :: 0 <= i < |left.rows| ==> left.rows[i].day <= d
    ensures LeftJoin(left, UpTo(right, d)) == LeftJoin(left, right)
  {
    JoinRowsIgnoresLaterRight(left.rows, right, d);
  }

  lemma {:induction false} JoinRowsIgnoresLaterRight(ls: seq<Row>, right: Frame, d: int)
    requires forall i :: 0 <= i < |ls| ==> ls[i].day <= d
    ensures JoinRows(ls, UpTo(right, d)) == JoinRows(ls, right)
  {
    if ls != [] {
      RowsOnUpTo(right.rows, ls[0].day, d);
      JoinRowsIgnoresLaterRight(ls[1..], right, d);
    }
  }

  // ------------------------------------------------------------ forward fill

  /** Row `i` after `ffill`: each cell is the last present cell of its column so far. */
  function FilledRow(f: Frame, i: int): Row
    requires 0 <= i < |f.rows|
  {
    Row(f.rows[i].day,
      map c | c in f.rows[i].cells :: LastValid(Column(f, c)[..i + 1]))
  }

  /** `ffill()` on every column. */
  function FFillFrame(f: Frame): (g: Frame)
    ensures g.columns == f.columns
    ensures |g.rows| == |f.rows|
  {
    Frame(f.columns, seq(|f.rows|, i requires 0 <= i < |f.rows| => FilledRow(f, i)))
  }

  /** Filling the frame fills each column, and keeps the frame valid and its days. */
  lemma FFillFrameFacts(f: Frame)
    requires Valid(f)
    ensures Valid(FFillFrame(f))
    ensures Days(FFillFrame(f)) == Days(f)
    ensures forall c :: c in f.columns ==> Column(FFillFrame(f), c) == FFill(Column(f, c))
  {
    var g := FFillFrame(f);
    forall i | 0 <= i < |f.rows|
      ensures g.rows[i].day == f.rows[i].day && g.rows[i].cells.Keys == g.columns
    {
      FilledRowFacts(f, i);
    }
    assert Days(g) == Days(f);
    forall c | c in f.columns
      ensures Column(g, c) == FFill(Column(f, c))
    {
      forall i | 0 <= i < |f.rows|
        ensures Column(g, c)[i] == FFill(Column(f, c))[i]
      {
        FilledRowFacts(f, i);
      }
    }
  }

  /** A filled row keeps its day and labels; each cell is the column's last present cell so far. */
  lemma FilledRowFacts(f: Frame, i: int)
    requires Valid(f) && 0 <= i < |f.rows|
    ensures FFillFrame(f).rows[i] == FilledRow(f, i)
    ensures FilledRow(f, i).day == f.rows[i].day && FilledRow(f, i).cells.Keys == f.columns
    ensures forall c :: c in f.columns ==> CellOf(FilledRow(f, i), c) == LastValid(Column(f, c)[..i + 1])
  {
    assert f.rows[i].cells.Keys == f.columns;
  }

  lemma FilledRowTake(f: Frame, k: int, i: int)
    requires 0 <= i < k <= |f.rows|
    ensures FilledRow(Take(f, k), i) == FilledRow(f, i)
  {
    var t := Take(f, k);
    assert t.rows[i] == f.rows[i];
    forall c | c in f.rows[i].cells
      ensures LastValid(Column(t, c)[..i + 1]) == LastValid(Column(f, c)[..i + 1])
    {
      ColumnTake(f, c, k);
      assert Column(t, c)[..i + 1] == Column(f, c)[..i + 1];
    }
  }

  lemma FFillFrameTake(f: Frame, k: int)
    requires 0 <= k <= |f.rows|
    ensures FFillFrame(Take(f, k)) == Take(FFillFrame(f), k)
  {
    forall i | 0 <= i < k
      ensures FFillFrame(Take(f, k)).rows[i] == FFillFrame(f).rows[i]
    {
      FilledRowTake(f, k, i);
    }
  }

  /** Dropping columns, renaming one and blanking infinities keep the rows' dates and rectangularity. */
  lemma CleanUpFacts(f: Frame, names: set<string>, from: string, to: string)
    ensures var g := ReplaceInf(RenameColumn(DropColumns(f, names), from, to));
      Days(g) == Days(f) && (Valid(f) ==> Valid(g))
  {
    var d := DropColumns(f, names);
    var r := RenameColumn(d, from, to);
    var g := ReplaceInf(r);
    assert Days(d) == Days(f);
    assert Valid(f) ==> Valid(d);
    if Valid(d) {
      RenameColumnFacts(d, from, to);
    }
    if from in d.columns {
      assert Days(r) == Days(d);
    }
    assert Days(g) == Days(r);
  }

  /**
   * `dropna()` on a frame with no infinite cell and the dates of `g`: every
   * cell left is a number, every row left has a date of `g`, increasing dates
   * stay increasing and a well-formed frame stays well formed.
   */
  lemma DropNaFacts(g: Frame, r: Frame)
    requires Days(r) == Days(g)
    requires forall i, c :: 0 <= i < |r.rows| && c in r.rows[i].cells ==> !r.rows[i].cells[c].Inf?
    ensures var out := DropNa(r);
      (forall i, c :: 0 <= i < |out.rows| && c in out.rows[i].cells ==> out.rows[i].cells[c].Num?) &&
      (forall i :: 0 <= i < |out.rows| ==> exists j :: 0 <= j < |g.rows| && out.rows[i].day == g.rows[j].day) &&
      (Increasing(g) ==> Increasing(out)) &&
      (Valid(r) ==> Valid(out))
  {
    DropNaNumbers(r);
    DropNaDays(g, r);
    if Increasing(g) {
      DropNaIncreasing(g, r);
    }
    if Valid(r) {
      DropNaValid(r);
    }
  }

  /** Every row `dropna()` keeps is a row of the input. */
  lemma DropNaRowsOf(r: Frame)
    ensures forall i :: 0 <= i < |DropNa(r).rows| ==> exists j :: 0 <= j < |r.rows| && r.rows[j] == DropNa(r).rows[i]
  {
    var out := CompleteRows(r.rows);
    assert DropNa(r).rows == out;
    forall i | 0 <= i < |out|
      ensures exists j :: 0 <= j < |r.rows| && r.rows[j] == out[i]
    {
      CompleteRowsSubsequence(r.rows, i);
    }
  }

  lemma DropNaNumbers(r: Frame)
    requires forall i, c :: 0 <= i < |r.rows| && c in r.rows[i].cells ==> !r.rows[i].cells[c].Inf?
    ensures forall i, c :: 0 <= i < |DropNa(r).rows| && c in DropNa(r).rows[i].cells ==> DropNa(r).rows[i].cells[c].Num?
  {
    var out := DropNa(r);
    DropNaRowsOf(r);
    forall i, c | 0 <= i < |out.rows| && c in out.rows[i].cells
      ensures out.rows[i].cells[c].Num?
    {
      var j :| 0 <= j < |r.rows| && r.rows[j] == out.rows[i];
      assert Complete(out.rows[i]);
      assert !r.rows[j].cells[c].Inf?;
    }
  }

  lemma DropNaDays(g: Frame, r: Frame)
    requires Days(r) == Days(g)
    ensures forall i :: 0 <= i < |DropNa(r).rows| ==> exists j :: 0 <= j < |g.rows| && DropNa(r).rows[i].day == g.rows[j].day
  {
    var out := DropNa(r);
    DropNaRowsOf(r);
    forall i | 0 <= i < |out.rows|
      ensures exists j :: 0 <= j < |g.rows| && out.rows[i].day == g.rows[j].day
    {
      var j :| 0 <= j < |r.rows| && r.rows[j] == out.rows[i];
      assert r.rows[j].day == Days(r)[j] == Days(g)[j];
    }
  }

  lemma DropNaIncreasing(g: Frame, r: Frame)
    requires Days(r) == Days(g) && Increasing(g)
    ensures Increasing(DropNa(r))
  {
    assert forall a :: 0 <= a < |r.rows| ==> r.rows[a].day == Days(r)[a] == Days(g)[a];
    assert forall a, b :: 0 <= a < b < |r.rows| ==> r.rows[a].day < r.rows[b].day;
    CompleteRowsIncreasing(r.rows);
    assert DropNa(r).rows == CompleteRows(r.rows);
  }

  lemma DropNaValid(r: Frame)
    requires Valid(r)
    ensures Valid(DropNa(r))
  {
    var out := DropNa(r);
    DropNaRowsOf(r);
    forall i | 0 <= i < |out.rows|
      ensures out.rows[i].cells.Keys == out.columns
    {
      var j :| 0 <= j < |r.rows| && r.rows[j] == out.rows[i];
    }
  }

  /** Dropped rows are rows of the input, in the same relative order. */
  lemma {:induction false} CompleteRowsSubsequence(rows: seq<Row>, i: int)
    requires 0 <= i < |CompleteRows(rows)|
    ensures exists j :: 0 <= j < |rows| && rows[j] == CompleteRows(rows)[i]
  {
    var h := if Complete(rows[0]) then [rows[0]] else [];
    if i < |h| {
      assert rows[0] == CompleteRows(rows)[i];
    } else {
      CompleteRowsSubsequence(rows[1..], i - |h|);
      var j :| 0 <= j < |rows[1..]| && rows[1..][j] == CompleteRows(rows[1..])[i - |h|];
      assert rows[j + 1] == CompleteRows(rows)[i];
    }
  }

  /** Dropping rows keeps an increasing index increasing. */
  lemma {:induction false} CompleteRowsIncreasing(rows: seq<Row>)
    requires forall i, j :: 0 <= i < j < |rows| ==> rows[i].day < rows[j].day
    ensures var out := CompleteRows(rows);
      forall i, j :: 0 <= i < j < |out| ==> out[i].day < out[j].day
    ensures forall i :: 0 <= i < |CompleteRows(rows)| ==>
      exists j :: 0 <= j < |rows| && rows[j] == CompleteRows(rows)[i]
  {
    forall i | 0 <= i < |CompleteRows(rows)|
      ensures exists j :: 0 <= j < |rows| && rows[j] == CompleteRows(rows)[i]
    {
      CompleteRowsSubsequence(rows, i);
    }
    if rows != [] {
      CompleteRowsIncreasing(rows[1..]);
      var rest := CompleteRows(rows[1..]);
      forall i | 0 <= i < |rest|
        ensures rows[0].day < rest[i].day
      {
        CompleteRowsSubsequence(rows[1..], i);
      }
    }
  }

  // ------------------------------------------------------ in-place objects

  /** A pandas DataFrame object: operations with `inplace=True` change it. */
  class DataFrame {
    var frame: Frame

    constructor(f: Frame)
      ensures frame == f
    {
      frame := f;
    }

    /** `rename(columns = ..., inplace = True)`. */
    method Rename(pairs: seq<(string, string)>)
      modifies this
      ensures frame == RenameColumns(old(frame), pairs)
    {
      frame := RenameColumns(frame, pairs);
    }
  }

  /** The last present cell of column `c` recorded in `last` (NaN when none). */
  function LastOf(last: map<string, Cell>, c: string): Cell
  {
    if c in last then last[c] else NaN
  }

  lemma LastValidSnoc(s: seq<Cell>, x: Cell)
    ensures LastValid(s + [x]) == if x.NaN? then LastValid(s) else x
  {
    if x.NaN? {
      assert (s + [x])[..|s|] == s;
    }
  }

  /** Row `r` with its missing cells taken from `last`. */
  function FillFrom(last: map<string, Cell>, r: Row): Row
  {
    Row(r.day, map c | c in r.cells :: if r.cells[c].NaN? then LastOf(last, c) else r.cells[c])
  }

  /** `last` after seeing row `r`. */
  function Remember(last: map<string, Cell>, r: Row): map<string, Cell>
  {
    last + map c | c in r.cells && !r.cells[c].NaN? :: r.cells[c]
  }

  /** `last` holds, for every column, its last present cell above row `i`. */
  ghost predicate Remembers(f: Frame, i: int, last: map<string, Cell>)
    requires 0 <= i <= |f.rows|
  {
    forall c :: LastOf(last, c) == LastValid(Column(f, c)[..i])
  }

  /** The next prefix of a column ends with the row's own cell. */
  lemma ColumnSnoc(f: Frame, i: int, last: map<string, Cell>, c: string)
    requires 0 <= i < |f.rows|
    requires LastOf(last, c) == LastValid(Column(f, c)[..i])
    ensures LastValid(Column(f, c)[..i + 1]) ==
      if CellOf(f.rows[i], c).NaN? then LastOf(last, c) else CellOf(f.rows[i], c)
  {
    assert Column(f, c)[..i + 1] == Column(f, c)[..i] + [CellOf(f.rows[i], c)];
    LastValidSnoc(Column(f, c)[..i], CellOf(f.rows[i], c));
  }

  /** One step of the forward-fill pass, against the column-wise definition. */
  lemma FillStep(f: Frame, i: int, last: map<string, Cell>)
    requires 0 <= i < |f.rows|
    requires Remembers(f, i, last)
    ensures FillFrom(last, f.rows[i]) == FilledRow(f, i)
  {
    var r := f.rows[i];
    var m1 := FillFrom(last, r).cells;
    var m2 := FilledRow(f, i).cells;
    forall c | c in r.cells
      ensures m1[c] == m2[c]
    {
      ColumnSnoc(f, i, last, c);
    }
    assert m1.Keys == r.cells.Keys == m2.Keys;
    assert m1 == m2;
  }

  /** The remembered cells after one more row. */
  lemma RememberStep(f: Frame, i: int, last: map<string, Cell>)
    requires 0 <= i < |f.rows|
    requires Remembers(f, i, last)
    ensures Remembers(f, i + 1, Remember(last, f.rows[i]))
  {
    forall c
      ensures LastOf(Remember(last, f.rows[i]), c) == LastValid(Column(f, c)[..i + 1])
    {
      ColumnSnoc(f, i, last, c);
    }
  }

  /**
   * `ffill(inplace = True)`: one pass over the rows that remembers the last
   * present cell of every column.
   */
  method FillForward(f: Frame) returns (g: Frame)
    ensures g == FFillFrame(f)
  {
    var out: seq<Row> := [];
    var last: map<string, Cell> := map[];
    var i := 0;
    while i < |f.rows|
      invariant 0 <= i <= |f.rows|
      invariant |out| == i
      invariant forall k :: 0 <= k < i ==> out[k] == FilledRow(f, k)
      invariant Remembers(f, i, last)
    {
      FillStep(f, i, last);
      RememberStep(f, i, last);
      out := out + [FillFrom(last, f.rows[i])];
      last := Remember(last, f.rows[i]);
      i := i + 1;
    }
    g := Frame(f.columns, out);
  }

  /** `dropna(inplace = True)`: one pass keeping the rows without a missing cell. */
  method DropIncomplete(f: Frame) returns (g: Frame)
    ensures g == DropNa(f)
  {
    var out: seq<Row> := [];
    var i := 0;
    while i < |f.rows|
      invariant 0 <= i <= |f.rows|
      invariant out == CompleteRows(f.rows[..i])
    {
      assert f.rows[..i + 1] == f.rows[..i] + [f.rows[i]];
      CompleteRowsAppend(f.rows[..i], [f.rows[i]]);
      if Complete(f.rows[i]) {
        out := out + [f.rows[i]];
      }
      i := i + 1;
    }
    assert f.rows[..i] == f.rows;
    g := Frame(f.columns, out);
  }
}
