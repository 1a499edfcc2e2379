/** Optional values and results with an error value, shared by every module. */
module Wrappers {

  datatype Option<T> = None | Some(value: T) {
    predicate IsSome() { Some? }

    function GetOr(default: T): T {
      match this
      case Some(v) => v
      case None => default
    }
  }

  datatype Result<T, E> = Ok(value: T) | Err(error: E) {
    predicate IsOk() { Ok? }
  }

  /**
   * A left fold that stops at the first error: `step` is applied to the state
   * and each element in order, as a Python loop whose body may raise.
   */
  function Fold<S, T, E>(init: S, xs: seq<T>, step: (S, T) -> Result<S, E>): Result<S, E>
    decreases |xs|
  {
    if xs == [] then Ok(init)
    else
      match Fold(init, xs[..|xs| - 1], step)
      case Err(e) => Err(e)
      case Ok(s) => step(s, xs[|xs| - 1])
  }

  /** One more element folds one more step. */
  lemma FoldNext<S, T, E>(init: S, xs: seq<T>, step: (S, T) -> Result<S, E>, k: int)
    requires 0 <= k < |xs|
    ensures Fold(init, xs[..k + 1], step) ==
      match Fold(init, xs[..k], step)
      case Err(e) => Err(e)
      case Ok(s) => step(s, xs[k])
  {
    assert xs[..k + 1][..k] == xs[..k];
  }

  /** Once a step fails, the whole fold fails with that error. */
  lemma {:induction false} FoldErrorSticks<S, T, E>(init: S, xs: seq<T>, step: (S, T) -> Result<S, E>, k: int)
    requires 0 <= k <= |xs| && Fold(init, xs[..k], step).Err?
    ensures Fold(init, xs, step) == Fold(init, xs[..k], step)
    decreases |xs| - k
  {
    if k < |xs| {
      FoldNext(init, xs, step, k);
      FoldErrorSticks(init, xs, step, k + 1);
    } else {
      assert xs[..k] == xs;
    }
  }

  /** The number of elements whose step the fold executed (through the failing one). */
  function Reached<S, T, E>(init: S, xs: seq<T>, step: (S, T) -> Result<S, E>): (n: nat)
    ensures n <= |xs|
    decreases |xs|
  {
    if xs == [] then 0
    else if Fold(init, xs[..|xs| - 1], step).Err? then Reached(init, xs[..|xs| - 1], step)
    else |xs|
  }

  /** A fold that gets through the whole sequence reached every element. */
  lemma ReachedAll<S, T, E>(init: S, xs: seq<T>, step: (S, T) -> Result<S, E>)
    requires Fold(init, xs, step).Ok?
    ensures Reached(init, xs, step) == |xs|
  {
  }

  /** A fold that failed at element `k` reached exactly the first `k + 1` elements. */
  lemma {:induction false} ReachedFailure<S, T, E>(init: S, xs: seq<T>, step: (S, T) -> Result<S, E>, k: int)
    requires 0 <= k < |xs| && Fold(init, xs[..k], step).Ok? && Fold(init, xs[..k + 1], step).Err?
    ensures Reached(init, xs, step) == k + 1
    decreases |xs| - k
  {
    if k + 1 < |xs| {
      var ys := xs[..|xs| - 1];
      assert ys[..k] == xs[..k] && ys[..k + 1] == xs[..k + 1];
      FoldErrorSticks(init, ys, step, k + 1);
      ReachedFailure(init, ys, step, k);
    } else {
      assert xs[..|xs| - 1] == xs[..k];
    }
  }

  /** Two fold results that agree: the same error, or states related by `R`. */
  predicate Related<S, E(==)>(r1: Result<S, E>, r2: Result<S, E>, R: (S, S) -> bool)
  {
    match r1
    case Err(e) => r2.Err? && r2.error == e
    case Ok(a) => r2.Ok? && R(a, r2.value)
  }

  /**
   * Folding the same elements from related states stays related, when every
   * step keeps related states related (the same steps fail with the same errors).
   */
  lemma {:induction false} FoldSimulates<S, T, E>(a: S, b: S, xs: seq<T>, step: (S, T) -> Result<S, E>, R: (S, S) -> bool)
    requires R(a, b)
    requires forall s1, s2, i :: 0 <= i < |xs| && R(s1, s2) ==> Related(step(s1, xs[i]), step(s2, xs[i]), R)
    ensures Related(Fold(a, xs, step), Fold(b, xs, step), R)
    decreases |xs|
  {
    if xs != [] {
      var ys := xs[..|xs| - 1];
      forall s1, s2, i | 0 <= i < |ys| && R(s1, s2)
        ensures Related(step(s1, ys[i]), step(s2, ys[i]), R)
      {
        assert ys[i] == xs[i];
      }
      FoldSimulates(a, b, ys, step, R);
      var last := |xs| - 1;
      var r1 := Fold(a, ys, step);
      var r2 := Fold(b, ys, step);
      match r1
      case Err(e) =>
      case Ok(s1) =>
        match r2
        case Ok(s2) =>
          assert Related(step(s1, xs[last]), step(s2, xs[last]), R);
    }
  }

  /** A property every successful step keeps holds of the fold's final state. */
  lemma {:induction false} FoldInvariant<S, T, E>(a: S, xs: seq<T>, step: (S, T) -> Result<S, E>, P: S -> bool)
    requires P(a)
    requires forall s, i :: 0 <= i < |xs| && P(s) && step(s, xs[i]).Ok? ==> P(step(s, xs[i]).value)
    ensures Fold(a, xs, step).Ok? ==> P(Fold(a, xs, step).value)
    decreases |xs|
  {
    if xs != [] {
      var ys := xs[..|xs| - 1];
      forall s, i | 0 <= i < |ys| && P(s) && step(s, ys[i]).Ok?
        ensures P(step(s, ys[i]).value)
      {
        assert ys[i] == xs[i];
      }
      FoldInvariant(a, ys, step, P);
      match Fold(a, ys, step)
      case Err(e) =>
      case Ok(s1) =>
        assert P(s1);
        assert step(s1, xs[|xs| - 1]).Ok? ==> P(step(s1, xs[|xs| - 1]).value);
    }
  }

  /** When every step from a state with property `P` succeeds and keeps `P`, the fold succeeds. */
  lemma {:induction false} FoldTotal<S, T, E>(a: S, xs: seq<T>, step: (S, T) -> Result<S, E>, P: S -> bool)
    requires P(a)
    requires forall s, i :: 0 <= i < |xs| && P(s) ==> step(s, xs[i]).Ok? && P(step(s, xs[i]).value)
    ensures Fold(a, xs, step).Ok? && P(Fold(a, xs, step).value)
    decreases |xs|
  {
    if xs != [] {
      var ys := xs[..|xs| - 1];
      forall s, i | 0 <= i < |ys| && P(s)
        ensures step(s, ys[i]).Ok? && P(step(s, ys[i]).value)
      {
        assert ys[i] == xs[i];
      }
      FoldTotal(a, ys, step, P);
      var r := Fold(a, ys, step);
      match r
      case Ok(s1) =>
        assert step(s1, xs[|xs| - 1]).Ok?;
    }
  }

  /** Concatenation is associative (stated once, so that proofs need not show it pointwise). */
  lemma AppendAssoc<T>(a: seq<T>, b: seq<T>, c: seq<T>)
    ensures a + b + c == a + (b + c)
  {
  }

  /** A left-nested concatenation of a head and five parts, regrouped after the head. */
  lemma Reassoc5<T>(x: seq<T>, p1: seq<T>, p2: seq<T>, p3: seq<T>, p4: seq<T>, p5: seq<T>)
    ensures x + p1 + p2 + p3 + p4 + p5 == x + (p1 + p2 + p3 + p4 + p5)
  {
    AppendAssoc(x, p1, p2);
    AppendAssoc(x, p1 + p2, p3);
    AppendAssoc(x, p1 + p2 + p3, p4);
    AppendAssoc(x, p1 + p2 + p3 + p4, p5);
  }

  /** The same with six parts. */
  lemma Reassoc6<T>(x: seq<T>, p1: seq<T>, p2: seq<T>, p3: seq<T>, p4: seq<T>, p5: seq<T>, p6: seq<T>)
    ensures x + p1 + p2 + p3 + p4 + p5 + p6 == x + (p1 + p2 + p3 + p4 + p5 + p6)
  {
    Reassoc5(x, p1, p2, p3, p4, p5);
    AppendAssoc(x, p1 + p2 + p3 + p4 + p5, p6);
  }

  /** Union is associative. */
  lemma UnionAssoc<T>(a: set<T>, b: set<T>, c: set<T>)
    ensures a + b + c == a + (b + c)
  {
  }

  /** The elements of `xs` that satisfy `keep`, in order (a list comprehension with a condition). */
  function Filter<T>(xs: seq<T>, keep: T -> bool): (r: seq<T>)
    ensures |r| <= |xs|
    ensures forall i :: 0 <= i < |r| ==> keep(r[i])
  {
    if xs == [] then [] else (if keep(xs[0]) then [xs[0]] else []) + Filter(xs[1..], keep)
  }

  /** An element survives the filter exactly when it is in the input and is kept. */
  lemma {:induction false} FilterMember<T>(xs: seq<T>, keep: T -> bool, x: T)
    ensures x in Filter(xs, keep) <==> x in xs && keep(x)
  {
    if xs != [] {
      FilterMember(xs[1..], keep, x);
      assert xs == [xs[0]] + xs[1..];
    }
  }

  /** Filtering a concatenation filters each part: the kept elements keep their order. */
  lemma {:induction false} FilterAppend<T>(a: seq<T>, b: seq<T>, keep: T -> bool)
    ensures Filter(a + b, keep) == Filter(a, keep) + Filter(b, keep)
  {
    if a == [] {
      assert a + b == b;
    } else {
      assert (a + b)[0] == a[0] && (a + b)[1..] == a[1..] + b;
      FilterAppend(a[1..], b, keep);
    }
  }

  /** Filtering keeps everything exactly when every element is kept. */
  lemma {:induction false} FilterAll<T>(xs: seq<T>, keep: T -> bool)
    ensures Filter(xs, keep) == xs <==> forall i :: 0 <= i < |xs| ==> keep(xs[i])
  {
    if xs != [] {
      FilterAll(xs[1..], keep);
      if !keep(xs[0]) {
        assert |Filter(xs, keep)| < |xs|;
      }
    }
  }
}
