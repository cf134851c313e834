/** String helpers with JavaScript's meaning: the white space of `\s` and
    `String.prototype.trim`, `split` on one separator character, and the
    decimal rendering of a number inside a template literal. */
module Text {

  type String = seq<char>

  /** The characters matched by JavaScript's `\s` and removed by `trim()`:
      the WhiteSpace and LineTerminator productions of ECMAScript. */
  predicate IsWhitespace(c: char) {
    c == '\t' || c == '\n' || c == '\U{000B}' || c == '\U{000C}' || c == '\r' || c == ' '
    || c == '\U{00A0}' || c == '\U{1680}' || ('\U{2000}' <= c <= '\U{200A}')
    || c == '\U{2028}' || c == '\U{2029}' || c == '\U{202F}' || c == '\U{205F}'
    || c == '\U{3000}' || c == '\U{FEFF}'
  }

  /** `s.replace(/\s/g, '')`: every white-space character removed, the rest
      kept in order. */
  function RemoveWhitespace(s: String): (r: String)
    ensures |r| <= |s|
  {
    if s == [] then []
    else if IsWhitespace(s[0]) then RemoveWhitespace(s[1..])
    else [s[0]] + RemoveWhitespace(s[1..])
  }

  /** Number of characters of `s` that are not white space. */
  function CountNonWhitespace(s: String): nat {
    if s == [] then 0
    else (if IsWhitespace(s[0]) then 0 else 1) + CountNonWhitespace(s[1..])
  }

  lemma {:induction false} RemoveWhitespaceKeeps(s: String)
    ensures |RemoveWhitespace(s)| == CountNonWhitespace(s)
    ensures forall c :: c in RemoveWhitespace(s) <==> c in s && !IsWhitespace(c)
  {
    if s != [] {
      RemoveWhitespaceKeeps(s[1..]);
      assert s == [s[0]] + s[1..];
    }
  }

  /** Nothing to remove from a string without white space. */
  lemma {:induction false} RemoveWhitespaceNone(s: String)
    requires forall k :: 0 <= k < |s| ==> !IsWhitespace(s[k])
    ensures RemoveWhitespace(s) == s
  {
    if s != [] {
      RemoveWhitespaceNone(s[1..]);
      assert s == [s[0]] + s[1..];
    }
  }

  /** Every character is white space (true of the empty string). */
  predicate Blank(s: String) {
    forall k :: 0 <= k < |s| ==> IsWhitespace(s[k])
  }

  /** The leading white space removed. */
  function TrimStart(s: String): (r: String)
    ensures |r| <= |s|
  {
    if s != [] && IsWhitespace(s[0]) then TrimStart(s[1..]) else s
  }

  /** `TrimStart` keeps a suffix of `s` that does not start with white
      space, and what it drops is white space. */
  lemma {:induction false} TrimStartCuts(s: String)
    ensures TrimStart(s) == s[|s| - |TrimStart(s)|..]
    ensures TrimStart(s) == [] || !IsWhitespace(TrimStart(s)[0])
    ensures Blank(s[..|s| - |TrimStart(s)|])
  {
    if s != [] && IsWhitespace(s[0]) {
      var r := TrimStart(s[1..]);
      TrimStartCuts(s[1..]);
      assert s[..|s| - |r|] == [s[0]] + s[1..][..|s| - 1 - |r|];
    }
  }

  /** The trailing white space removed. */
  function TrimEnd(s: String): (r: String)
    ensures |r| <= |s|
  {
    if s != [] && IsWhitespace(s[|s| - 1]) then TrimEnd(s[..|s| - 1]) else s
  }

  /** `TrimEnd` keeps a prefix of `s` that does not end with white space,
      and what it drops is white space. */
  lemma {:induction false} TrimEndCuts(s: String)
    ensures TrimEnd(s) == s[..|TrimEnd(s)|]
    ensures TrimEnd(s) == [] || !IsWhitespace(TrimEnd(s)[|TrimEnd(s)| - 1])
    ensures Blank(s[|TrimEnd(s)|..])
  {
    if s != [] && IsWhitespace(s[|s| - 1]) {
      var r := TrimEnd(s[..|s| - 1]);
      TrimEndCuts(s[..|s| - 1]);
      assert s[|r|..] == s[..|s| - 1][|r|..] + [s[|s| - 1]];
    }
  }

  /** `s.trim()`. */
  function Trim(s: String): String {
    TrimEnd(TrimStart(s))
  }

  /** `trim()` removes exactly a white-space prefix and a white-space suffix:
      the result is a slice of `s`, and everything cut off is white space. */
  lemma {:induction false} TrimIsSlice(s: String) returns (i: nat, j: nat)
    ensures i <= j <= |s| && Trim(s) == s[i..j]
    ensures Blank(s[..i]) && Blank(s[j..])
  {
    var t := TrimStart(s);
    var u := TrimEnd(t);
    TrimStartCuts(s);
    TrimEndCuts(t);
    i := |s| - |t|;
    j := i + |u|;
    assert u == t[..|u|] == s[i..j];
    assert s[j..] == t[|u|..];
  }

  /** ... and the slice that is kept neither starts nor ends with white space. */
  lemma TrimEnds(s: String)
    ensures Trim(s) == [] || (!IsWhitespace(Trim(s)[0]) && !IsWhitespace(Trim(s)[|Trim(s)| - 1]))
  {
    var t := TrimStart(s);
    var u := TrimEnd(t);
    TrimStartCuts(s);
    TrimEndCuts(t);
    if u != [] {
      assert u[0] == t[0];
    }
  }

  /** A string trims to nothing exactly when it is all white space. */
  lemma TrimEmptyIffBlank(s: String)
    ensures Trim(s) == [] <==> Blank(s)
  {
    var i, j := TrimIsSlice(s);
    TrimEnds(s);
    if Trim(s) == [] {
      forall k | 0 <= k < |s| ensures IsWhitespace(s[k]) {
        if k < i { assert s[k] == s[..i][k]; } else { assert s[k] == s[j..][k - j]; }
      }
    } else {
      assert s[i] == Trim(s)[0];
    }
  }

  /** A string that neither starts nor ends with white space is its own trim. */
  lemma TrimUnchanged(s: String)
    requires s == [] || (!IsWhitespace(s[0]) && !IsWhitespace(s[|s| - 1]))
    ensures Trim(s) == s
  {
    assert TrimStart(s) == s;
  }

  /** Trimming twice is trimming once. */
  lemma TrimIdempotent(s: String)
    ensures Trim(Trim(s)) == Trim(s)
  {
    TrimEnds(s);
    TrimUnchanged(Trim(s));
  }

  /** Trimming never introduces a character: a separator absent from `s` is
      absent from `Trim(s)`. */
  lemma TrimKeepsOut(s: String, c: char)
    requires c !in s
    ensures c !in Trim(s)
  {
    var i, j := TrimIsSlice(s);
    assert forall x | x in s[i..j] :: x in s;
  }

  // ---------------------------------------------------------------------
  // `split` on one separator character and its inverse, `join`.

  /** `s.split(sep)` for a one-character separator: the maximal runs of
      non-separator characters between separators, always at least one
      (possibly empty) piece. */
  function Split(s: String, sep: char): (pieces: seq<String>)
    ensures |pieces| >= 1
  {
    if s == [] then [[]]
    else
      var tail := Split(s[1..], sep);
      if s[0] == sep then [[]] + tail
      else [[s[0]] + tail[0]] + tail[1..]
  }

  /** No piece contains the separator. */
  lemma {:induction false} SplitPiecesFree(s: String, sep: char)
    ensures forall p | p in Split(s, sep) :: sep !in p
  {
    if s != [] {
      SplitPiecesFree(s[1..], sep);
      var tail := Split(s[1..], sep);
      if s[0] != sep {
        assert tail[0] in tail;
        assert forall p | p in tail[1..] :: p in tail;
      }
    }
  }

  /** `pieces.join(sep)`. */
  function Join(pieces: seq<String>, sep: char): String
    requires |pieces| >= 1
  {
    if |pieces| == 1 then pieces[0] else pieces[0] + [sep] + Join(pieces[1..], sep)
  }

  lemma {:induction false} JoinSplit(s: String, sep: char)
    ensures Join(Split(s, sep), sep) == s
  {
    if s != [] {
      JoinSplit(s[1..], sep);
      var tail := Split(s[1..], sep);
      if s[0] == sep {
        assert ([[]] + tail)[1..] == tail;
      } else {
        var pieces := [[s[0]] + tail[0]] + tail[1..];
        if |tail| == 1 {
          assert s == [s[0]] + s[1..];
        } else {
          assert pieces[1..] == tail[1..];
          assert Join(tail, sep) == tail[0] + [sep] + Join(tail[1..], sep);
          assert s == [s[0]] + s[1..];
        }
      }
    }
  }

  /** Splitting a string that starts with a separator-free run `x`. */
  lemma {:induction false} SplitPrefix(x: String, y: String, sep: char)
    requires sep !in x
    ensures Split(x + y, sep) == [x + Split(y, sep)[0]] + Split(y, sep)[1..]
  {
    if x != [] {
      assert (x + y)[1..] == x[1..] + y;
      assert (x + y)[0] == x[0];
      SplitPrefix(x[1..], y, sep);
      assert [x[0]] + (x[1..] + Split(y, sep)[0]) == x + Split(y, sep)[0];
    } else {
      var t := Split(y, sep);
      assert x + y == y && x + t[0] == t[0];
      assert [t[0]] + t[1..] == t;
    }
  }

  /** A leading separator splits off an empty first piece. */
  lemma SplitAfterSep(rest: String, sep: char)
    ensures Split([sep] + rest, sep) == [[]] + Split(rest, sep)
  {
    assert ([sep] + rest)[1..] == rest;
  }

  /** One step of the round trip below: a separator-free head, a separator
      and a rest that splits into `tail` split into `[head] + tail`. */
  lemma SplitJoinStep(head: String, rest: String, tail: seq<String>, sep: char)
    requires sep !in head
    requires Split(rest, sep) == tail
    ensures Split(head + [sep] + rest, sep) == [head] + tail
  {
    SplitAfterSep(rest, sep);
    SplitPrefix(head, [sep] + rest, sep);
    assert head + [sep] + rest == head + ([sep] + rest);
    assert head + [] == head;
    assert ([[]] + tail)[1..] == tail;
  }

  /** The other half of the round trip: joining separator-free pieces and
      splitting again gives back the same pieces. */
  lemma {:induction false} SplitJoin(pieces: seq<String>, sep: char)
    requires |pieces| >= 1
    requires forall p | p in pieces :: sep !in p
    ensures Split(Join(pieces, sep), sep) == pieces
  {
    if |pieces| == 1 {
      SplitPrefix(pieces[0], [], sep);
      assert pieces[0] + [] == pieces[0];
      assert pieces == [pieces[0]];
    } else {
      var tail := pieces[1..];
      assert forall p | p in tail :: p in pieces;
      SplitJoin(tail, sep);
      SplitJoinStep(pieces[0], Join(tail, sep), tail, sep);
      assert pieces == [pieces[0]] + tail;
    }
  }

  /** The number of pieces is one more than the number of separators. */
  function Count(s: String, c: char): nat {
    if s == [] then 0 else (if s[0] == c then 1 else 0) + Count(s[1..], c)
  }

  lemma {:induction false} SplitCount(s: String, sep: char)
    ensures |Split(s, sep)| == Count(s, sep) + 1
  {
    if s != [] {
      SplitCount(s[1..], sep);
    }
  }

  /** Each line followed by its terminator, concatenated. */
  function Terminated(lines: seq<String>, sep: char): (r: String)
    ensures |r| >= |lines|
  {
    if lines == [] then [] else lines[0] + [sep] + Terminated(lines[1..], sep)
  }

  lemma {:induction false} JoinAsTerminated(lines: seq<String>, last: String, sep: char)
    ensures Join(lines + [last], sep) == Terminated(lines, sep) + last
  {
    if lines != [] {
      assert (lines + [last])[1..] == lines[1..] + [last];
      JoinAsTerminated(lines[1..], last, sep);
    }
  }

  lemma {:induction false} TerminatedAppend(a: seq<String>, b: seq<String>, sep: char)
    ensures Terminated(a + b, sep) == Terminated(a, sep) + Terminated(b, sep)
  {
    if a == [] {
      assert a + b == b;
    } else {
      assert (a + b)[1..] == a[1..] + b;
      TerminatedAppend(a[1..], b, sep);
    }
  }

  // ---------------------------------------------------------------------
  // Decimal numerals, as JavaScript writes an integer in a template literal.

  function DigitChar(d: nat): (c: char)
    requires d < 10
    ensures '0' <= c <= '9' && c as int - '0' as int == d
  {
    (d + '0' as int) as char
  }

  /** The decimal digits of `n`, without leading zeros ("0" for zero). */
  function Decimal(n: nat): (r: String)
    ensures |r| >= 1
    ensures forall k :: 0 <= k < |r| ==> '0' <= r[k] <= '9'
  {
    if n < 10 then [DigitChar(n)] else Decimal(n / 10) + [DigitChar(n % 10)]
  }

  /** A signed integer: a minus sign before the digits of a negative one. */
  function DecimalInt(i: int): String {
    if i < 0 then "-" + Decimal(-i) else Decimal(i)
  }

  /** The value of a string of decimal digits. */
  function DecimalValue(s: String): nat
    requires forall k :: 0 <= k < |s| ==> '0' <= s[k] <= '9'
  {
    if s == [] then 0 else 10 * DecimalValue(s[..|s| - 1]) + (s[|s| - 1] as int - '0' as int)
  }

  lemma {:induction false} DecimalRoundTrip(n: nat)
    ensures DecimalValue(Decimal(n)) == n
  {
    if n >= 10 {
      DecimalRoundTrip(n / 10);
      var r := Decimal(n);
      assert r[..|r| - 1] == Decimal(n / 10);
    }
  }

  /** The rendering never starts with a zero unless it is "0" itself, so
      distinct numbers have distinct renderings. */
  lemma DecimalInjective(m: nat, n: nat)
    requires Decimal(m) == Decimal(n)
    ensures m == n
  {
    DecimalRoundTrip(m);
    DecimalRoundTrip(n);
  }

  // ---------------------------------------------------------------------
  // Other string tests used by the platform models.

  /** `s.contains(sub)` in Swift: `sub` occurs as a contiguous substring. */
  predicate ContainsSubstring(s: String, sub: String) {
    sub <= s || (s != [] && ContainsSubstring(s[1..], sub))
  }

  predicate OccursAt(s: String, sub: String, i: nat)
    requires i + |sub| <= |s|
  {
    s[i..i + |sub|] == sub
  }

  lemma OccursAtShift(s: String, sub: String, i: nat)
    requires s != [] && i + |sub| <= |s| - 1
    ensures OccursAt(s, sub, i + 1) == OccursAt(s[1..], sub, i)
  {
    assert s[i + 1..i + 1 + |sub|] == s[1..][i..i + |sub|];
  }

  lemma {:induction false} ContainsSubstringAt(s: String, sub: String)
    ensures ContainsSubstring(s, sub) <==> exists i: nat :: i + |sub| <= |s| && OccursAt(s, sub, i)
  {
    if s == [] {
      if ContainsSubstring(s, sub) { assert OccursAt(s, sub, 0); }
    } else {
      ContainsSubstringAt(s[1..], sub);
      if ContainsSubstring(s, sub) {
        if sub <= s {
          assert OccursAt(s, sub, 0);
        } else {
          var i: nat :| i + |sub| <= |s[1..]| && OccursAt(s[1..], sub, i);
          OccursAtShift(s, sub, i);
        }
      } else {
        forall i: nat | i + |sub| <= |s| ensures !OccursAt(s, sub, i) {
          if i > 0 {
            OccursAtShift(s, sub, i - 1);
          }
        }
      }
    }
  }
}
