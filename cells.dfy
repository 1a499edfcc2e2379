/**
 * Cells of a numeric pandas column and the column operations the feature
 * pipeline uses. A cell is missing (NaN), a number, or an infinity: infinities
 * arise from division by zero, are not missing for `ffill`/`dropna`, and are
 * turned into NaN only by an explicit replace.
 */
module Cells {

  datatype Cell = NaN | Num(v: real) | Inf(negative: bool)

  function Neg(a: Cell): Cell
  {
    match a
    case NaN => NaN
    case Num(x) => Num(-x)
    case Inf(n) => Inf(!n)
  }

  /** IEEE-style addition: NaN absorbs, opposite infinities give NaN. */
  function Add(a: Cell, b: Cell): (r: Cell)
    ensures a.NaN? || b.NaN? ==> r.NaN?
  {
    match (a, b)
    case (NaN, _) => NaN
    case (_, NaN) => NaN
    case (Num(x), Num(y)) => Num(x + y)
    case (Inf(n), Num(_)) => Inf(n)
    case (Num(_), Inf(n)) => Inf(n)
    case (Inf(n), Inf(m)) => if n == m then Inf(n) else NaN
  }

  function Sub(a: Cell, b: Cell): Cell
  {
    Add(a, Neg(b))
  }

  function Mul(a: Cell, b: Cell): (r: Cell)
    ensures a.NaN? || b.NaN? ==> r.NaN?
  {
    match (a, b)
    case (NaN, _) => NaN
    case (_, NaN) => NaN
    case (Num(x), Num(y)) => Num(x * y)
    case (Inf(n), Num(y)) => if y == 0.0 then NaN else Inf(n != (y < 0.0))
    case (Num(x), Inf(n)) => if x == 0.0 then NaN else Inf(n != (x < 0.0))
    case (Inf(n), Inf(m)) => Inf(n != m)
  }

  /** IEEE-style division: a non-zero number over zero is an infinity, 0/0 is NaN. */
  function Div(a: Cell, b: Cell): (r: Cell)
    ensures a.NaN? || b.NaN? ==> r.NaN?
  {
    match (a, b)
    case (NaN, _) => NaN
    case (_, NaN) => NaN
    case (Num(x), Num(y)) =>
      if y != 0.0 then Num(x / y) else if x == 0.0 then NaN else Inf(x < 0.0)
    case (Num(_), Inf(_)) => Num(0.0)
    case (Inf(n), Num(y)) => Inf(n != (y < 0.0))
    case (Inf(_), Inf(_)) => NaN
  }

  /** pandas `cell >= t`: false for NaN. */
  predicate AtLeast(a: Cell, t: real)
  {
    match a
    case NaN => false
    case Num(x) => x >= t
    case Inf(n) => !n
  }

  /** pandas `cell <= t`: false for NaN. */
  predicate AtMost(a: Cell, t: real)
  {
    match a
    case NaN => false
    case Num(x) => x <= t
    case Inf(n) => n
  }

  /** pandas `cell > t`: false for NaN. */
  predicate Above(a: Cell, t: real)
  {
    match a
    case NaN => false
    case Num(x) => x > t
    case Inf(n) => !n
  }

  /** `.astype(int)` of a boolean. */
  function Indicator(b: bool): Cell
  {
    if b then Num(1.0) else Num(0.0)
  }

  // ---------------------------------------------------------------- columns

  /** Index of the last non-missing cell, or -1 when every cell is missing. */
  function LastValidIndex(s: seq<Cell>): (j: int)
    ensures -1 <= j < |s|
    ensures j >= 0 ==> !s[j].NaN?
    ensures forall k :: j < k < |s| ==> s[k].NaN?
  {
    if s == [] then -1
    else if !s[|s| - 1].NaN? then |s| - 1
    else LastValidIndex(s[..|s| - 1])
  }

  /** The last non-missing cell of `s`, NaN when there is none. */
  function LastValid(s: seq<Cell>): Cell
  {
    var j := LastValidIndex(s);
    if j < 0 then NaN else s[j]
  }

  /** pandas `Series.ffill()`: every cell becomes the last non-missing cell at or before it. */
  function FFill(s: seq<Cell>): (r: seq<Cell>)
    ensures |r| == |s|
  {
    seq(|s|, i requires 0 <= i < |s| => LastValid(s[..i + 1]))
  }

  /**
   * The filled cell at `i` is NaN exactly when no cell at or before `i` is
   * present; otherwise it is the cell at the nearest earlier present position.
   */
  lemma FFillNearestEarlier(s: seq<Cell>, i: int)
    requires 0 <= i < |s|
    ensures FFill(s)[i].NaN? <==> (forall k :: 0 <= k <= i ==> s[k].NaN?)
    ensures !FFill(s)[i].NaN? ==>
      var j := LastValidIndex(s[..i + 1]);
      0 <= j <= i && FFill(s)[i] == s[j] && !s[j].NaN? && (forall k :: j < k <= i ==> s[k].NaN?)
  {
    var p := s[..i + 1];
    var j := LastValidIndex(p);
    assert forall k :: 0 <= k <= i ==> p[k] == s[k];
    if j >= 0 {
      assert !s[j].NaN?;
    }
  }

  /** A present cell is kept by `ffill`. */
  lemma FFillKeepsPresent(s: seq<Cell>, i: int)
    requires 0 <= i < |s| && !s[i].NaN?
    ensures FFill(s)[i] == s[i]
  {
    assert s[..i + 1][i] == s[i];
  }

  /** `ffill` never looks ahead: filling a prefix gives the prefix of the fill. */
  lemma FFillPrefix(s: seq<Cell>, k: int)
    requires 0 <= k <= |s|
    ensures FFill(s[..k]) == FFill(s)[..k]
  {
    forall i | 0 <= i < k
      ensures FFill(s[..k])[i] == FFill(s)[i]
    {
      assert s[..k][..i + 1] == s[..i + 1];
    }
  }

  /** The last present cell survives filling. */
  lemma LastValidOfFilled(s: seq<Cell>)
    ensures LastValid(FFill(s)) == LastValid(s)
  {
    if s != [] {
      var n := |s|;
      var f := FFill(s);
      assert s[..n] == s;
      if f[n - 1].NaN? {
        forall k | 0 <= k < n
          ensures f[k].NaN?
        {
          FFillNearestEarlier(s, n - 1);
          FFillNearestEarlier(s, k);
        }
        assert LastValidIndex(f) == -1;
        FFillNearestEarlier(s, n - 1);
        assert LastValidIndex(s) == -1;
      }
    }
  }

  /** Filling twice is filling once. */
  lemma FFillIdempotent(s: seq<Cell>)
    ensures FFill(FFill(s)) == FFill(s)
  {
    var f := FFill(s);
    forall i | 0 <= i < |s|
      ensures FFill(f)[i] == f[i]
    {
      FFillPrefix(s, i + 1);
      LastValidOfFilled(s[..i + 1]);
      assert f[..i + 1] == FFill(s[..i + 1]);
    }
  }

  /** pandas `Series.shift(n)`: row `i` receives row `i - n`, NaN where that is outside. */
  function Shift(s: seq<Cell>, n: int): (r: seq<Cell>)
    ensures |r| == |s|
    ensures forall i :: 0 <= i < |s| ==> r[i] == (if 0 <= i - n < |s| then s[i - n] else NaN)
  {
    seq(|s|, i requires 0 <= i < |s| => if 0 <= i - n < |s| then s[i - n] else NaN)
  }

  /** Element-wise `a / b`. */
  function DivColumns(a: seq<Cell>, b: seq<Cell>): (r: seq<Cell>)
    requires |a| == |b|
    ensures |r| == |a| && forall i :: 0 <= i < |a| ==> r[i] == Div(a[i], b[i])
  {
    seq(|a|, i requires 0 <= i < |a| => Div(a[i], b[i]))
  }

  /** Element-wise `a * b`. */
  function MulColumns(a: seq<Cell>, b: seq<Cell>): (r: seq<Cell>)
    requires |a| == |b|
    ensures |r| == |a| && forall i :: 0 <= i < |a| ==> r[i] == Mul(a[i], b[i])
  {
    seq(|a|, i requires 0 <= i < |a| => Mul(a[i], b[i]))
  }

  /** Element-wise `a - b`. */
  function SubColumns(a: seq<Cell>, b: seq<Cell>): (r: seq<Cell>)
    requires |a| == |b|
    ensures |r| == |a| && forall i :: 0 <= i < |a| ==> r[i] == Sub(a[i], b[i])
  {
    seq(|a|, i requires 0 <= i < |a| => Sub(a[i], b[i]))
  }

  /** Element-wise operations commute with taking the first `k` rows. */
  lemma ColumnsPrefix(a: seq<Cell>, b: seq<Cell>, k: int)
    requires |a| == |b| && 0 <= k <= |a|
    ensures DivColumns(a[..k], b[..k]) == DivColumns(a, b)[..k]
    ensures MulColumns(a[..k], b[..k]) == MulColumns(a, b)[..k]
    ensures SubColumns(a[..k], b[..k]) == SubColumns(a, b)[..k]
  {
  }

  /**
   * pandas `Series.pct_change(periods = n)` with its default `fill_method='pad'`:
   * the column is forward-filled, then divided by itself shifted by `n`, minus one.
   */
  function PctChange(s: seq<Cell>, n: int): (r: seq<Cell>)
    ensures |r| == |s|
  {
    var f := FFill(s);
    var g := Shift(f, n);
    seq(|s|, i requires 0 <= i < |s| => Sub(Div(f[i], g[i]), Num(1.0)))
  }

  /** `pct_change(n)[t] = close[t] / close[t - n] - 1` on the filled column. */
  lemma PctChangeAt(s: seq<Cell>, n: int, i: int)
    requires 0 <= i < |s|
    ensures 0 <= i - n < |s| ==> PctChange(s, n)[i] == Sub(Div(FFill(s)[i], FFill(s)[i - n]), Num(1.0))
    ensures !(0 <= i - n < |s|) ==> PctChange(s, n)[i].NaN?
  {
  }

  /** The same law on present numbers with a non-zero base. */
  lemma PctChangeOfNumbers(s: seq<Cell>, n: int, i: int, a: real, b: real)
    requires 0 <= i < |s| && 0 <= i - n < |s|
    requires FFill(s)[i] == Num(a) && FFill(s)[i - n] == Num(b) && b != 0.0
    ensures PctChange(s, n)[i] == Num(a / b - 1.0)
  {
    PctChangeAt(s, n, i);
  }

  /** With a non-negative period, `pct_change` of a prefix is the prefix of `pct_change`. */
  lemma PctChangePrefix(s: seq<Cell>, n: int, k: int)
    requires n >= 0 && 0 <= k <= |s|
    ensures PctChange(s[..k], n) == PctChange(s, n)[..k]
  {
    FFillPrefix(s, k);
    forall i | 0 <= i < k
      ensures PctChange(s[..k], n)[i] == PctChange(s, n)[i]
    {
      PctChangeAt(s[..k], n, i);
      PctChangeAt(s, n, i);
    }
  }

  /** Sum of the cells of a window with IEEE-style addition. */
  function SumCells(w: seq<Cell>): Cell
  {
    if w == [] then Num(0.0) else Add(SumCells(w[..|w| - 1]), w[|w| - 1])
  }

  /** Sum of a window of present numbers. */
  function SumNums(w: seq<Cell>): real
    requires forall k :: 0 <= k < |w| ==> w[k].Num?
  {
    if w == [] then 0.0 else SumNums(w[..|w| - 1]) + w[|w| - 1].v
  }

  lemma {:induction false} SumCellsOfNums(w: seq<Cell>)
    requires forall k :: 0 <= k < |w| ==> w[k].Num?
    ensures SumCells(w) == Num(SumNums(w))
  {
    if w != [] {
      SumCellsOfNums(w[..|w| - 1]);
    }
  }

  /** Mean of a full window: NaN when any of its cells is missing. */
  function WindowMean(w: seq<Cell>): Cell
  {
    if exists k :: 0 <= k < |w| && w[k].NaN? then NaN
    else Div(SumCells(w), Num(|w| as real))
  }

  /**
   * pandas `Series.rolling(window = p).mean()`: the mean of the `p` rows ending
   * at each row, NaN for the first `p - 1` rows and for windows with a gap.
   */
  function RollingMean(s: seq<Cell>, p: nat): (r: seq<Cell>)
    ensures |r| == |s|
  {
    seq(|s|, i requires 0 <= i < |s| => if p == 0 || i + 1 < p then NaN else WindowMean(s[i + 1 - p..i + 1]))
  }

  /** `SMA_p[t]` is the mean of rows `t-p+1 .. t`, and missing while `t < p - 1`. */
  lemma RollingMeanAt(s: seq<Cell>, p: nat, i: int)
    requires 0 <= i < |s| && p >= 1
    ensures i < p - 1 ==> RollingMean(s, p)[i].NaN?
    ensures i >= p - 1 && (forall k :: i + 1 - p <= k <= i ==> s[k].Num?) ==>
      RollingMean(s, p)[i] == Num(SumNums(s[i + 1 - p..i + 1]) / p as real)
  {
    if i >= p - 1 && (forall k :: i + 1 - p <= k <= i ==> s[k].Num?) {
      var w := s[i + 1 - p..i + 1];
      assert forall k :: 0 <= k < |w| ==> w[k] == s[i + 1 - p + k];
      SumCellsOfNums(w);
    }
  }

  /** A rolling mean of a prefix is the prefix of the rolling mean. */
  lemma RollingMeanPrefix(s: seq<Cell>, p: nat, k: int)
    requires 0 <= k <= |s|
    ensures RollingMean(s[..k], p) == RollingMean(s, p)[..k]
  {
    forall i | 0 <= i < k
      ensures RollingMean(s[..k], p)[i] == RollingMean(s, p)[i]
    {
      if p != 0 && i + 1 >= p {
        assert s[..k][i + 1 - p..i + 1] == s[i + 1 - p..i + 1];
      }
    }
  }

  /** The column `start, start+1, ...` of `n` consecutive numbers. */
  function Ramp(start: real, n: nat): (r: seq<Cell>)
    ensures |r| == n && forall i :: 0 <= i < n ==> r[i] == Num(start + i as real)
  {
    seq(n, i requires 0 <= i < n => Num(start + i as real))
  }

  /** Prices 100 .. 199: the five-row moving average on the last row is 197. */
  lemma RollingMeanOfRampAnchor()
    ensures RollingMean(Ramp(100.0, 100), 5)[99] == Num(197.0)
  {
    var s := Ramp(100.0, 100);
    RollingMeanAt(s, 5, 99);
    var w := s[95..100];
    assert w == [Num(195.0), Num(196.0), Num(197.0), Num(198.0), Num(199.0)];
    assert SumNums(w[..1]) == 195.0;
    assert SumNums(w[..2]) == 391.0 by { assert w[..2][..1] == w[..1]; }
    assert SumNums(w[..3]) == 588.0 by { assert w[..3][..2] == w[..2]; }
    assert SumNums(w[..4]) == 786.0 by { assert w[..4][..3] == w[..3]; }
    assert SumNums(w) == 985.0 by { assert w[..4] == w[..|w| - 1]; }
  }
}
