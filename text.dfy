/**
 * String helpers with the meaning of the Python `str` operations the scripts
 * use: `split` on one character, `join`, `strip`, `startswith`/`endswith`,
 * the `in` substring test, `replace(c, '')`, ASCII `lower`, `str(int)`,
 * `int(str)` and `float(str)` for decimal literals, and code-point order.
 */
module Text {
  import opened Wrappers

  /** Number of occurrences of `c` in `s`. */
  function Count(s: string, c: char): (n: nat)
    ensures n <= |s|
    ensures n == 0 <==> c !in s
  {
    if s == [] then 0 else (if s[0] == c then 1 else 0) + Count(s[1..], c)
  }

  /** Python `sep.join(parts)`. */
  function Join(parts: seq<string>, sep: string): string
  {
    if |parts| == 0 then ""
    else if |parts| == 1 then parts[0]
    else parts[0] + sep + Join(parts[1..], sep)
  }

  lemma {:induction false} CountAppend(a: string, b: string, c: char)
    ensures Count(a + b, c) == Count(a, c) + Count(b, c)
  {
    if a == [] {
      assert a + b == b;
    } else {
      CountAppend(a[1..], b, c);
      assert (a + b)[1..] == a[1..] + b;
    }
  }

  /** Joining pieces free of `c` puts one separator's worth of `c` between each two pieces. */
  lemma {:induction false} CountJoin(parts: seq<string>, sep: string, c: char)
    requires |parts| >= 1 && forall i :: 0 <= i < |parts| ==> c !in parts[i]
    ensures Count(Join(parts, sep), c) == (|parts| - 1) * Count(sep, c)
  {
    if |parts| > 1 {
      var rest := parts[1..];
      var k := Count(sep, c);
      assert forall i :: 0 <= i < |rest| ==> rest[i] == parts[i + 1];
      CountJoin(rest, sep, c);
      assert Join(parts, sep) == parts[0] + sep + Join(rest, sep);
      CountAppend(parts[0] + sep, Join(rest, sep), c);
      CountAppend(parts[0], sep, c);
      assert Count(parts[0], c) == 0;
      assert (|parts| - 1) * k == k + (|rest| - 1) * k;
    }
  }

  /** With one `c` in the separator, a join of `c`-free parts has one `c` per gap. */
  lemma CountJoinOnce(parts: seq<string>, sep: string, c: char)
    requires |parts| >= 1 && forall i :: 0 <= i < |parts| ==> c !in parts[i]
    requires Count(sep, c) == 1
    ensures Count(Join(parts, sep), c) == |parts| - 1
  {
    CountJoin(parts, sep, c);
  }

  /** Python `s.split(sep)` for a one-character separator. */
  function Split(s: string, sep: char): (parts: seq<string>)
    ensures |parts| == Count(s, sep) + 1
    ensures forall i :: 0 <= i < |parts| ==> sep !in parts[i]
  {
    if s == [] then [""]
    else
      var rest := Split(s[1..], sep);
      if s[0] == sep then [""] + rest
      else
        var parts := [[s[0]] + rest[0]] + rest[1..];
        assert forall i :: 1 <= i < |parts| ==> parts[i] == rest[i];
        parts
  }

  lemma JoinCons(x: string, rest: seq<string>, sep: string)
    requires |rest| >= 1
    ensures Join([x] + rest, sep) == x + sep + Join(rest, sep)
  {
    assert ([x] + rest)[1..] == rest;
  }

  /** One more character at the front of the first piece goes to the front of the join. */
  lemma JoinConsHead(c: char, parts: seq<string>, sep: string)
    requires |parts| >= 1
    ensures Join([[c] + parts[0]] + parts[1..], sep) == [c] + Join(parts, sep)
  {
    if |parts| > 1 {
      JoinCons([c] + parts[0], parts[1..], sep);
      JoinCons(parts[0], parts[1..], sep);
      assert [parts[0]] + parts[1..] == parts;
    }
  }

  /** Joining the pieces of a split with the separator gives the string back. */
  lemma {:induction false} JoinOfSplit(s: string, sep: char)
    ensures Join(Split(s, sep), [sep]) == s
  {
    if s != [] {
      var tail := s[1..];
      JoinOfSplit(tail, sep);
      var rest := Split(tail, sep);
      var j := Join(rest, [sep]);
      assert j == tail;
      if s[0] == sep {
        assert Split(s, sep) == [""] + rest;
        JoinCons("", rest, [sep]);
        assert "" + [sep] + j == [s[0]] + tail;
      } else {
        assert Split(s, sep) == [[s[0]] + rest[0]] + rest[1..];
        JoinConsHead(s[0], rest, [sep]);
      }
      assert [s[0]] + tail == s;
    }
  }

  lemma {:induction false} SplitNoSeparator(x: string, sep: char)
    requires sep !in x
    ensures Split(x, sep) == [x]
  {
    if x != [] {
      SplitNoSeparator(x[1..], sep);
      assert [x[0]] + x[1..] == x;
    }
  }

  lemma {:induction false} SplitAfterPiece(x: string, sep: char, rest: string)
    requires sep !in x
    ensures Split(x + [sep] + rest, sep) == [x] + Split(rest, sep)
  {
    var s := x + [sep] + rest;
    if x == [] {
      assert s[0] == sep && s[1..] == rest;
      assert Split(s, sep) == [""] + Split(rest, sep);
    } else {
      assert s[0] == x[0] && s[0] != sep;
      assert s[1..] == x[1..] + [sep] + rest;
      SplitAfterPiece(x[1..], sep, rest);
      var r := Split(s[1..], sep);
      assert r == [x[1..]] + Split(rest, sep);
      assert r[0] == x[1..] && r[1..] == Split(rest, sep);
      assert Split(s, sep) == [[s[0]] + r[0]] + r[1..];
      assert [s[0]] + r[0] == x;
    }
  }

  /** Splitting a join of separator-free pieces gives the pieces back. */
  lemma {:induction false} SplitOfJoin(parts: seq<string>, sep: char)
    requires |parts| >= 1
    requires forall i :: 0 <= i < |parts| ==> sep !in parts[i]
    ensures Split(Join(parts, [sep]), sep) == parts
  {
    if |parts| == 1 {
      SplitNoSeparator(parts[0], sep);
    } else {
      SplitOfJoin(parts[1..], sep);
      SplitAfterPiece(parts[0], sep, Join(parts[1..], [sep]));
      assert [parts[0]] + parts[1..] == parts;
    }
  }

  /** The characters Python's `str.strip()` removes (`str.isspace`). */
  predicate IsSpace(c: char)
  {
    c == ' ' || c == '\t' || c == '\n' || c == '\r' || c == '\U{0B}' || c == '\U{0C}'
    || ('\U{1C}' <= c <= '\U{1F}') || c == '\U{85}' || c == '\U{A0}' || c == '\U{1680}'
    || ('\U{2000}' <= c <= '\U{200A}') || c == '\U{2028}' || c == '\U{2029}'
    || c == '\U{202F}' || c == '\U{205F}' || c == '\U{3000}'
  }

  function TrimStart(s: string): (r: string)
    ensures |r| <= |s| && r == s[|s| - |r|..]
    ensures r == [] || !IsSpace(r[0])
    ensures forall k :: 0 <= k < |s| - |r| ==> IsSpace(s[k])
  {
    if s != [] && IsSpace(s[0]) then TrimStart(s[1..]) else s
  }

  function TrimEnd(s: string): (r: string)
    ensures |r| <= |s| && r == s[..|r|]
    ensures r == [] || !IsSpace(r[|r| - 1])
    ensures forall k :: |r| <= k < |s| ==> IsSpace(s[k])
  {
    if s != [] && IsSpace(s[|s| - 1]) then TrimEnd(s[..|s| - 1]) else s
  }

  /** Python `s.strip()`: leading and trailing whitespace removed. */
  function Strip(s: string): (r: string)
    ensures |r| <= |s|
    ensures r == [] || (!IsSpace(r[0]) && !IsSpace(r[|r| - 1]))
    ensures (forall k :: 0 <= k < |s| ==> !IsSpace(s[k])) ==> r == s
    ensures (forall k :: 0 <= k < |s| ==> IsSpace(s[k])) ==> r == []
  {
    if s != [] && IsSpace(s[0]) then Strip(s[1..])
    else
      var r := TrimEnd(s);
      assert r != [] ==> r[0] == s[0];
      r
  }

  predicate StartsWith(s: string, prefix: string)
  {
    |prefix| <= |s| && s[..|prefix|] == prefix
  }

  predicate EndsWith(s: string, suffix: string)
  {
    |suffix| <= |s| && s[|s| - |suffix|..] == suffix
  }

  /** Python `sub in s`. */
  predicate Contains(s: string, sub: string)
    decreases |s|
  {
    StartsWith(s, sub) || (s != [] && Contains(s[1..], sub))
  }

  /** `sub` occurs in `s` starting at position `i`. */
  predicate OccursAt(s: string, sub: string, i: int)
  {
    0 <= i <= |s| - |sub| && s[i..i + |sub|] == sub
  }

  /** `Contains` holds exactly when `sub` occurs at some position of `s`. */
  lemma {:induction false} ContainsAt(s: string, sub: string)
    ensures Contains(s, sub) <==> exists i :: OccursAt(s, sub, i)
    decreases |s|
  {
    if s != [] {
      ContainsAt(s[1..], sub);
      if Contains(s[1..], sub) {
        var i :| OccursAt(s[1..], sub, i);
        assert s[i + 1..i + 1 + |sub|] == s[1..][i..i + |sub|];
        assert OccursAt(s, sub, i + 1);
      }
      if StartsWith(s, sub) {
        assert OccursAt(s, sub, 0);
      }
      if exists i :: OccursAt(s, sub, i) {
        var i :| OccursAt(s, sub, i);
        if i > 0 {
          assert s[1..][i - 1..i - 1 + |sub|] == s[i..i + |sub|];
          assert OccursAt(s[1..], sub, i - 1);
        }
      }
    } else {
      if StartsWith(s, sub) {
        assert OccursAt(s, sub, 0);
      }
      if exists i :: OccursAt(s, sub, i) {
        var i :| OccursAt(s, sub, i);
        assert i == 0;
      }
    }
  }

  /** A text that lacks the first character of `sub` cannot contain it. */
  lemma {:induction false} NotContainsWithoutHead(s: string, sub: string)
    requires sub != [] && sub[0] !in s
    ensures !Contains(s, sub)
    decreases |s|
  {
    if s != [] {
      NotContainsWithoutHead(s[1..], sub);
    }
  }

  /** A text that lacks some character of `sub` cannot contain it. */
  lemma {:induction false} NotContainsWithout(s: string, sub: string, k: int)
    requires 0 <= k < |sub| && sub[k] !in s
    ensures !Contains(s, sub)
    decreases |s|
  {
    if |sub| <= |s| {
      assert s[..|sub|][k] == s[k];
    }
    if s != [] {
      assert forall c :: c in s[1..] ==> c in s;
      NotContainsWithout(s[1..], sub, k);
    }
  }

  lemma {:induction false} ContainsInMiddle(a: string, sub: string, b: string)
    ensures Contains(a + sub + b, sub)
    decreases |a|
  {
    if a == [] {
      assert (a + sub + b)[..|sub|] == sub;
    } else {
      ContainsInMiddle(a[1..], sub, b);
      assert (a + sub + b)[1..] == a[1..] + sub + b;
    }
  }

  /** Python `s.replace(c, '')`. */
  function RemoveChar(s: string, c: char): (r: string)
    ensures c !in r
    ensures |r| + Count(s, c) == |s|
    ensures forall x :: x in r ==> x in s
    ensures c !in s ==> r == s
  {
    if s == [] then "" else (if s[0] == c then "" else [s[0]]) + RemoveChar(s[1..], c)
  }

  function LowerChar(c: char): char
  {
    if 'A' <= c <= 'Z' then (c as int + 32) as char else c
  }

  /** Python `s.lower()` on the ASCII letters. */
  function Lower(s: string): (r: string)
    ensures |r| == |s|
    ensures forall i :: 0 <= i < |s| ==> r[i] == LowerChar(s[i])
  {
    if s == [] then "" else [LowerChar(s[0])] + Lower(s[1..])
  }

  predicate IsDigit(c: char)
  {
    '0' <= c <= '9'
  }

  predicate AllDigits(s: string)
  {
    forall i :: 0 <= i < |s| ==> IsDigit(s[i])
  }

  function DigitChar(d: nat): (c: char)
    requires d < 10
    ensures IsDigit(c) && c as int - '0' as int == d
  {
    "0123456789"[d]
  }

  /** Decimal spelling of a natural number, as Python `str(n)`. */
  function NatToString(n: nat): (s: string)
    ensures s != [] && AllDigits(s)
    ensures s[0] == '0' ==> n == 0
  {
    if n < 10 then [DigitChar(n)] else NatToString(n / 10) + [DigitChar(n % 10)]
  }

  /** Python `str(i)` for an integer. */
  function IntToString(i: int): (s: string)
    ensures s != []
    ensures forall k :: 0 <= k < |s| ==> IsDigit(s[k]) || s[k] == '-'
  {
    if i < 0 then "-" + NatToString(-i) else NatToString(i)
  }

  /** Value of a string of decimal digits. */
  function DigitsValue(s: string): nat
    requires AllDigits(s)
  {
    if s == [] then 0 else DigitsValue(s[..|s| - 1]) * 10 + (s[|s| - 1] as int - '0' as int)
  }

  lemma {:induction false} DigitsValueOfNatToString(n: nat)
    ensures DigitsValue(NatToString(n)) == n
  {
    if n >= 10 {
      DigitsValueOfNatToString(n / 10);
      var s := NatToString(n / 10) + [DigitChar(n % 10)];
      assert s[..|s| - 1] == NatToString(n / 10);
    }
  }

  /** Python `int(s)` for an optionally signed run of ASCII digits, surrounding whitespace allowed. */
  function ParseInt(s: string): (r: Option<int>)
    ensures r.Some? ==> Strip(s) != []
  {
    IntLiteral(Strip(s))
  }

  /** Value of an optionally signed run of ASCII digits. */
  function IntLiteral(t: string): (r: Option<int>)
    ensures r.Some? ==> t != []
  {
    if |t| >= 2 && (t[0] == '-' || t[0] == '+') && AllDigits(t[1..]) then
      Some(if t[0] == '-' then -(DigitsValue(t[1..]) as int) else DigitsValue(t[1..]))
    else if t != [] && AllDigits(t) then Some(DigitsValue(t))
    else None
  }

  /** A run of digits, signed or not, has no whitespace to strip. */
  lemma StripDigits(d: string)
    requires AllDigits(d)
    ensures Strip(d) == d && Strip("-" + d) == "-" + d
  {
    var m := "-" + d;
    forall k | 0 <= k < |d| ensures !IsSpace(d[k]) {
      assert IsDigit(d[k]);
    }
    forall k | 0 <= k < |m| ensures !IsSpace(m[k]) {
      if k > 0 {
        assert m[k] == d[k - 1];
      }
    }
  }

  lemma IntLiteralOfDigits(d: string)
    requires d != [] && AllDigits(d)
    ensures IntLiteral(d) == Some(DigitsValue(d) as int)
    ensures IntLiteral("-" + d) == Some(-(DigitsValue(d) as int))
  {
    var m := "-" + d;
    assert m[1..] == d && m[0] == '-';
    assert IsDigit(d[0]);
  }

  /** `int` of a run of digits, with or without a minus sign. */
  lemma ParseIntOfDigits(d: string)
    requires d != [] && AllDigits(d)
    ensures ParseInt(d) == Some(DigitsValue(d) as int)
    ensures ParseInt("-" + d) == Some(-(DigitsValue(d) as int))
  {
    StripDigits(d);
    IntLiteralOfDigits(d);
  }

  /** `int(str(i)) == i`. */
  lemma ParseIntOfIntToString(i: int)
    ensures ParseInt(IntToString(i)) == Some(i)
  {
    var n: nat := if i < 0 then -i else i;
    ParseIntOfDigits(NatToString(n));
    DigitsValueOfNatToString(n);
  }

  /** Different integers have different spellings. */
  lemma IntToStringInjective(a: int, b: int)
    requires IntToString(a) == IntToString(b)
    ensures a == b
  {
    ParseIntOfIntToString(a);
    ParseIntOfIntToString(b);
  }

  function Pow10(k: nat): (p: nat)
    ensures p >= 1
  {
    if k == 0 then 1 else 10 * Pow10(k - 1)
  }

  /** Value of `digits[.digits]` with at least one digit overall; no exponent. */
  function UnsignedDecimal(t: string): Option<real>
  {
    if '.' in t then
      var parts := Split(t, '.');
      if |parts| == 2 && AllDigits(parts[0]) && AllDigits(parts[1]) && |parts[0]| + |parts[1]| >= 1 then
        Some(DigitsValue(parts[0]) as real + DigitsValue(parts[1]) as real / Pow10(|parts[1]|) as real)
      else None
    else if t != [] && AllDigits(t) then Some(DigitsValue(t) as real)
    else None
  }

  /** Python `float(s)` for decimal literals with an optional sign and a fraction. */
  function ParseReal(s: string): (r: Option<real>)
    ensures r.Some? ==> Strip(s) != []
  {
    RealLiteral(Strip(s))
  }

  /** Value of an optionally signed decimal literal. */
  function RealLiteral(t: string): (r: Option<real>)
    ensures r.Some? ==> t != []
  {
    if |t| >= 1 && t[0] == '-' then
      (match UnsignedDecimal(t[1..]) case Some(v) => Some(-v) case None => None)
    else if |t| >= 1 && t[0] == '+' then UnsignedDecimal(t[1..])
    else UnsignedDecimal(t)
  }

  lemma RealLiteralOfDigits(d: string)
    requires d != [] && AllDigits(d)
    ensures RealLiteral(d) == Some(DigitsValue(d) as real)
    ensures RealLiteral("-" + d) == Some(-(DigitsValue(d) as real))
  {
    var m := "-" + d;
    assert m[1..] == d && m[0] == '-';
    assert IsDigit(d[0]);
    assert '.' !in d by {
      forall k | 0 <= k < |d| ensures d[k] != '.' {
        assert IsDigit(d[k]);
      }
    }
    assert UnsignedDecimal(d) == Some(DigitsValue(d) as real);
  }

  /** `float` of a run of digits, with or without a minus sign. */
  lemma ParseRealOfDigits(d: string)
    requires d != [] && AllDigits(d)
    ensures ParseReal(d) == Some(DigitsValue(d) as real)
    ensures ParseReal("-" + d) == Some(-(DigitsValue(d) as real))
  {
    StripDigits(d);
    RealLiteralOfDigits(d);
  }

  /** `float(str(i)) == i` for every integer spelling. */
  lemma ParseRealOfIntToString(i: int)
    ensures ParseReal(IntToString(i)) == Some(i as real)
  {
    var n: nat := if i < 0 then -i else i;
    ParseRealOfDigits(NatToString(n));
    DigitsValueOfNatToString(n);
  }

  /** Code-point (and so UTF-8 byte) lexicographic order, Python's `<=` on `str`. */
  predicate LexLe(a: string, b: string)
    decreases |a|
  {
    a == [] || (b != [] && (a[0] < b[0] || (a[0] == b[0] && LexLe(a[1..], b[1..]))))
  }

  lemma {:induction false} LexLeReflexive(a: string)
    ensures LexLe(a, a)
    decreases |a|
  {
    if a != [] {
      LexLeReflexive(a[1..]);
    }
  }

  lemma {:induction false} LexLeTotal(a: string, b: string)
    ensures LexLe(a, b) || LexLe(b, a)
    decreases |a|
  {
    if a != [] && b != [] && a[0] == b[0] {
      LexLeTotal(a[1..], b[1..]);
    }
  }

  lemma {:induction false} LexLeAntisymmetric(a: string, b: string)
    requires LexLe(a, b) && LexLe(b, a)
    ensures a == b
    decreases |a|
  {
    if a != [] {
      LexLeAntisymmetric(a[1..], b[1..]);
      assert a == [a[0]] + a[1..] && b == [b[0]] + b[1..];
    }
  }

  lemma {:induction false} LexLeTransitive(a: string, b: string, c: string)
    requires LexLe(a, b) && LexLe(b, c)
    ensures LexLe(a, c)
    decreases |a|
  {
    if a != [] && a[0] == b[0] && b[0] == c[0] {
      LexLeTransitive(a[1..], b[1..], c[1..]);
    }
  }
}
