/**
 * Creation of the evaluation tables from an SQL script: the script is cut at
 * every `;`, the pieces that are not blank are executed in order, and one
 * commit follows.
 */
module PrepareEvaluationDb {
  import opened Wrappers
  import opened Text

  predicate NonBlank(piece: string)
  {
    Strip(piece) != ""
  }

  /** The statements `main` executes: `[s for s in script.split(';') if s.strip()]`. */
  function Statements(script: string): seq<string>
  {
    Filter(Split(script, ';'), NonBlank)
  }

  /**
   * Every executed statement is a non-blank piece of the script without `;`,
   * and at most one more statement runs than there are semicolons.
   */
  lemma StatementsFacts(script: string)
    ensures |Statements(script)| <= Count(script, ';') + 1
    ensures forall i :: 0 <= i < |Statements(script)| ==>
      ';' !in Statements(script)[i] && Strip(Statements(script)[i]) != ""
      && Statements(script)[i] in Split(script, ';')
  {
    var st := Statements(script);
    forall i | 0 <= i < |st| ensures ';' !in st[i] && st[i] in Split(script, ';') {
      assert st[i] in st;
      FilterMember(Split(script, ';'), NonBlank, st[i]);
    }
  }

  /** A piece is executed exactly when it is a piece of the script and not blank. */
  lemma ExecutedIff(script: string, piece: string)
    ensures piece in Statements(script) <==> piece in Split(script, ';') && Strip(piece) != ""
  {
    FilterMember(Split(script, ';'), NonBlank, piece);
  }

  /** Statements run in script order: a statement, a `;`, then the rest. */
  lemma StatementsOrder(first: string, rest: string)
    requires ';' !in first
    ensures Statements(first + ";" + rest) == Filter([first], NonBlank) + Statements(rest)
  {
    assert first + ";" + rest == first + [';'] + rest;
    SplitAfterPiece(first, ';', rest);
    FilterAppend([first], Split(rest, ';'), NonBlank);
  }

  /** A script ending in `;` runs the same statements as without it. */
  lemma TrailingSemicolon(script: string)
    ensures Statements(script + ";") == Statements(script)
  {
    BlankTailSkipped(script, "");
    assert script + ";" == script + [';'] + "";
  }

  /** A trailing `;` or a whitespace-only piece after it adds no statement. */
  lemma BlankTailSkipped(script: string, tail: string)
    requires forall k :: 0 <= k < |tail| ==> IsSpace(tail[k])
    ensures Statements(script + [';'] + tail) == Statements(script)
  {
    assert !NonBlank(tail);
    assert ';' !in tail by {
      forall k | 0 <= k < |tail| ensures tail[k] != ';' { assert IsSpace(tail[k]); }
    }
    var pieces := Split(script, ';');
    SplitJoinedTail(script, tail);
    FilterAppend(pieces, [tail], NonBlank);
    FilterOne(tail, NonBlank);
    assert Filter(pieces, NonBlank) + [] == Filter(pieces, NonBlank);
  }

  /** Splitting `s + [';'] + tail` with no `;` in `tail` ends with `tail`. */
  lemma SplitJoinedTail(s: string, tail: string)
    requires ';' !in tail
    ensures Split(s + [';'] + tail, ';') == Split(s, ';') + [tail]
  {
    var parts := Split(s, ';');
    var more := parts + [tail];
    JoinOfSplit(s, ';');
    JoinSnoc(parts, [';'], tail);
    assert Join(more, [';']) == s + [';'] + tail;
    assert forall i :: 0 <= i < |more| ==> ';' !in more[i] by {
      forall i | 0 <= i < |more| ensures ';' !in more[i] {
        if i < |parts| { assert more[i] == parts[i]; }
      }
    }
    SplitOfJoin(more, ';');
  }

  /** Joining one more piece appends the separator and the piece. */
  lemma {:induction false} JoinSnoc(parts: seq<string>, sep: string, last: string)
    requires |parts| >= 1
    ensures Join(parts + [last], sep) == Join(parts, sep) + sep + last
    decreases |parts|
  {
    var more := parts + [last];
    assert more[0] == parts[0];
    if |parts| == 1 {
      assert more[1..] == [last];
    } else {
      assert more[1..] == parts[1..] + [last];
      JoinSnoc(parts[1..], sep, last);
    }
  }

  lemma FilterOne<T>(x: T, keep: T -> bool)
    ensures Filter([x], keep) == if keep(x) then [x] else []
  {
    assert [x][1..] == [];
  }

  /** The loop of lines 19-21 over the pieces: those that pass the test (`statement.strip()`), in order. */
  method ExecutePieces(pieces: seq<string>, keep: string -> bool) returns (executed: seq<string>)
    ensures executed == Filter(pieces, keep)
  {
    executed := [];
    var i := 0;
    while i < |pieces|
      invariant 0 <= i <= |pieces|
      invariant executed == Filter(pieces[..i], keep)
    {
      FilterAppend(pieces[..i], [pieces[i]], keep);
      FilterOne(pieces[i], keep);
      assert pieces[..i + 1] == pieces[..i] + [pieces[i]];
      if keep(pieces[i]) {
        executed := executed + [pieces[i]];
      }
      i := i + 1;
    }
    assert pieces[..i] == pieces;
  }

  /** The evaluation database: the statements it has committed, in order. */
  class EvaluationDb {
    var committed: seq<string>

    constructor()
      ensures committed == []
    {
      committed := [];
    }

    /**
     * `main`: `script` is None when the SQL file cannot be read. Each
     * non-blank piece is executed in order, then one commit; an error
     * (`dbOk` false) is only printed and the transaction is rolled back.
     */
    method Prepare(script: Option<string>, dbOk: bool) returns (executed: seq<string>)
      modifies this
      ensures script.Some? ==> executed == Statements(script.value)
      ensures script.None? ==> executed == []
      ensures committed == (if script.Some? && dbOk then old(committed) + Statements(script.value) else old(committed))
    {
      executed := [];
      if script.None? {
        return;
      }
      executed := ExecutePieces(Split(script.value, ';'), NonBlank);
      if dbOk {
        committed := committed + executed;
      }
    }
  }
}
