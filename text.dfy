/**
 * The parts of Python's `str` that the backend relies on: `isspace`,
 * `strip`, substring `in`, `startswith`, `join`, `split`, `replace(p, "")`
 * and `lower`, on strings of Unicode scalar values.
 */
module Text {

  /** Python's `str.isspace` on one character. */
  predicate IsSpace(c: char) {
    || c == ' '
    || ('\t' <= c <= '\r')
    || ('\U{1c}' <= c <= '\U{1f}')
    || c == '\U{85}' || c == '\U{a0}' || c == '\U{1680}'
    || ('\U{2000}' <= c <= '\U{200a}')
    || c == '\U{2028}' || c == '\U{2029}' || c == '\U{202f}' || c == '\U{205f}' || c == '\U{3000}'
  }

  predicate AllSatisfy(s: string, p: char -> bool) {
    forall i :: 0 <= i < |s| ==> p(s[i])
  }

  /** Blank in Python's sense: `not s.strip()`. */
  predicate IsBlank(s: string) {
    AllSatisfy(s, IsSpace)
  }

  /** `s.lstrip(chars)` where `drop` says which characters are in `chars`. */
  function LStripWhere(s: string, drop: char -> bool): (r: string)
    ensures |r| <= |s| && r == s[|s| - |r|..]
    ensures AllSatisfy(s[..|s| - |r|], drop)
    ensures r == [] || !drop(r[0])
  {
    if |s| > 0 && drop(s[0]) then
      var r := LStripWhere(s[1..], drop);
      assert s[1..][..|s| - 1 - |r|] == s[1..|s| - |r|];
      r
    else s
  }

  /** `s.rstrip(chars)` where `drop` says which characters are in `chars`. */
  function RStripWhere(s: string, drop: char -> bool): (r: string)
    ensures |r| <= |s| && r == s[..|r|]
    ensures AllSatisfy(s[|r|..], drop)
    ensures r == [] || !drop(r[|r| - 1])
  {
    if |s| > 0 && drop(s[|s| - 1]) then
      var r := RStripWhere(s[..|s| - 1], drop);
      assert s[..|s| - 1][|r|..] == s[|r|..|s| - 1];
      r
    else s
  }

  /** `s.strip(chars)`: a slice of `s` with only dropped characters cut off either end. */
  function StripWhere(s: string, drop: char -> bool): (r: string)
    ensures exists i, j ::
      (0 <= i <= j <= |s| && r == s[i..j] && AllSatisfy(s[..i], drop) && AllSatisfy(s[j..], drop))
  {
    var l := LStripWhere(s, drop);
    var r := RStripWhere(l, drop);
    var i := |s| - |l|;
    var j := i + |r|;
    assert s[j..] == l[|r|..];
    assert r == s[i..j];
    assert 0 <= i <= j <= |s| && AllSatisfy(s[..i], drop) && AllSatisfy(s[j..], drop);
    r
  }

  /** What `strip` leaves neither starts nor ends with a dropped character. */
  lemma StripEnds(s: string, drop: char -> bool)
    ensures var r := StripWhere(s, drop);
      r == [] || (!drop(r[0]) && !drop(r[|r| - 1]))
  {
    var l := LStripWhere(s, drop);
    var r := RStripWhere(l, drop);
    assert StripWhere(s, drop) == r;
    if r != [] {
      assert r[0] == l[0];
    }
  }

  /** Python's `s.strip()`. */
  function Strip(s: string): (r: string) {
    StripWhere(s, IsSpace)
  }

  /** `s.strip()` is empty exactly when `s` is all whitespace. */
  lemma StripEmptyIffBlank(s: string)
    ensures Strip(s) == [] <==> IsBlank(s)
  {
    var r := Strip(s);
    var i, j :| 0 <= i <= j <= |s| && r == s[i..j]
      && AllSatisfy(s[..i], IsSpace) && AllSatisfy(s[j..], IsSpace);
    if r == [] {
      forall k | 0 <= k < |s| ensures IsSpace(s[k]) {
        if k < i { assert s[..i][k] == s[k]; }
        else { assert s[j..][k - j] == s[k]; }
      }
    } else {
      assert s[i] == r[0];
    }
  }

  /** A stripped string strips to itself. */
  lemma StripIdempotent(s: string)
    ensures Strip(Strip(s)) == Strip(s)
  {
    var r := Strip(s);
    var r2 := Strip(r);
    var i, j :| 0 <= i <= j <= |r| && r2 == r[i..j]
      && AllSatisfy(r[..i], IsSpace) && AllSatisfy(r[j..], IsSpace);
  }

  predicate StartsWith(s: string, prefix: string) {
    |prefix| <= |s| && s[..|prefix|] == prefix
  }

  /** Python's `sub in s` for strings. */
  predicate Contains(s: string, sub: string)
    decreases |s|
  {
    StartsWith(s, sub) || (|s| > 0 && Contains(s[1..], sub))
  }

  /** `Contains` is "occurs at some position". */
  lemma {:induction false} ContainsAt(s: string, sub: string)
    ensures Contains(s, sub) <==> exists i :: 0 <= i <= |s| - |sub| && StartsWith(s[i..], sub)
  {
    if StartsWith(s, sub) {
      assert s[0..] == s;
    } else if |s| > 0 {
      ContainsAt(s[1..], sub);
      if exists i :: 0 <= i <= |s| - |sub| && StartsWith(s[i..], sub) {
        var i :| 0 <= i <= |s| - |sub| && StartsWith(s[i..], sub);
        assert i != 0;
        assert s[1..][i - 1..] == s[i..];
      }
      if Contains(s[1..], sub) {
        var i :| 0 <= i <= |s| - 1 - |sub| && StartsWith(s[1..][i..], sub);
        assert s[1..][i..] == s[i + 1..];
      }
    }
  }

  /** After a common prefix, equal-length middles and the tails that follow them are equal. */
  lemma ConcatCancel(p: string, a1: string, b1: string, a2: string, b2: string)
    requires |a1| == |a2|
    requires p + a1 + b1 == p + a2 + b2
    ensures a1 == a2 && b1 == b2
  {
    var s1, s2 := p + a1 + b1, p + a2 + b2;
    assert a1 == s1[|p|..|p| + |a1|] && a2 == s2[|p|..|p| + |a2|];
    assert b1 == s1[|p| + |a1|..] && b2 == s2[|p| + |a2|..];
  }

  /** Python's `sep.join(parts)`. */
  function Join(parts: seq<string>, sep: string): (r: string)
    ensures |parts| == 1 ==> r == parts[0]
  {
    if |parts| == 0 then ""
    else if |parts| == 1 then parts[0]
    else parts[0] + sep + Join(parts[1..], sep)
  }

  /** A string occurs in any concatenation that has it in the middle. */
  lemma ContainsMiddle(a: string, s: string, b: string)
    ensures Contains(a + s + b, s)
  {
    var whole := a + s + b;
    assert StartsWith(whole[|a|..], s) by {
      assert whole[|a|..][..|s|] == s;
    }
    ContainsAt(whole, s);
  }

  /** An occurrence in the tail is an occurrence in the whole. */
  lemma ContainsInTail(a: string, b: string, s: string)
    requires Contains(b, s)
    ensures Contains(a + b, s)
  {
    ContainsAt(b, s);
    var i :| 0 <= i <= |b| - |s| && StartsWith(b[i..], s);
    assert (a + b)[|a| + i..] == b[i..];
    ContainsAt(a + b, s);
  }

  /** Every part occurs in the joined string. */
  lemma {:induction false} JoinContainsParts(parts: seq<string>, sep: string)
    ensures forall k :: 0 <= k < |parts| ==> Contains(Join(parts, sep), parts[k])
  {
    if |parts| == 1 {
      ContainsMiddle("", parts[0], "");
      assert "" + parts[0] + "" == parts[0];
    } else if |parts| > 1 {
      var rest := Join(parts[1..], sep);
      assert Join(parts, sep) == parts[0] + sep + rest;
      JoinContainsParts(parts[1..], sep);
      forall k | 0 <= k < |parts| ensures Contains(Join(parts, sep), parts[k]) {
        if k == 0 {
          ContainsMiddle("", parts[0], sep + rest);
          assert "" + parts[0] + (sep + rest) == Join(parts, sep);
        } else {
          assert parts[k] == parts[1..][k - 1];
          ContainsInTail(parts[0] + sep, rest, parts[k]);
        }
      }
    }
  }

  /** The position of the first `c` in `s`, or `|s|` when there is none. */
  function IndexOf(s: string, c: char): (i: nat)
    ensures i <= |s|
    ensures i < |s| ==> s[i] == c
    ensures forall j :: 0 <= j < i ==> s[j] != c
  {
    if |s| == 0 then 0
    else if s[0] == c then 0
    else
      var k := IndexOf(s[1..], c);
      assert forall j :: 1 <= j < 1 + k ==> s[j] == s[1..][j - 1];
      1 + k
  }

  /** Python's `s.split(sep)` for a one-character separator. */
  function Split(s: string, sep: char): (r: seq<string>)
    ensures |r| >= 1
    decreases |s|
  {
    var i := IndexOf(s, sep);
    if i == |s| then
      assert s[..i] == s;
      [s]
    else [s[..i]] + Split(s[i + 1..], sep)
  }

  /** No piece of a split holds the separator. */
  lemma {:induction false} SplitPiecesLackSep(s: string, sep: char)
    ensures forall k :: 0 <= k < |Split(s, sep)| ==> sep !in Split(s, sep)[k]
    decreases |s|
  {
    var i := IndexOf(s, sep);
    if i < |s| {
      var rest := Split(s[i + 1..], sep);
      SplitPiecesLackSep(s[i + 1..], sep);
      var whole := [s[..i]] + rest;
      assert Split(s, sep) == whole;
      assert forall k :: 1 <= k < |whole| ==> whole[k] == rest[k - 1];
    } else {
      assert s[..i] == s;
    }
  }

  /** `s.split(sep)[-1]`. */
  function LastPiece(s: string, sep: char): string {
    Last(Split(s, sep))
  }

  function Last<T>(s: seq<T>): T
    requires |s| > 0
  {
    s[|s| - 1]
  }

  /** Without a separator, the last piece is the whole string. */
  lemma LastPieceNoSep(s: string, sep: char)
    requires IndexOf(s, sep) == |s|
    ensures LastPiece(s, sep) == s && sep !in s
  {
    assert s[..|s|] == s;
    assert Split(s, sep) == [s];
  }

  /** Splitting at the first separator. */
  lemma SplitPastSep(s: string, sep: char)
    requires IndexOf(s, sep) < |s|
    ensures Split(s, sep) == [s[..IndexOf(s, sep)]] + Split(s[IndexOf(s, sep) + 1..], sep)
  {
  }

  lemma LastOfCons<T>(x: T, s: seq<T>)
    requires |s| > 0
    ensures Last([x] + s) == Last(s)
  {
  }

  /** Past the first separator, the last piece is that of the rest. */
  lemma LastPiecePastSep(s: string, sep: char)
    requires IndexOf(s, sep) < |s|
    ensures LastPiece(s, sep) == LastPiece(s[IndexOf(s, sep) + 1..], sep)
  {
    var i := IndexOf(s, sep);
    SplitPastSep(s, sep);
    LastOfCons(s[..i], Split(s[i + 1..], sep));
  }

  /** A suffix of the text after a separator is a suffix of the whole, with a separator before it. */
  lemma SuffixPastSep(s: string, i: nat, t: string, sep: char)
    requires i < |s| && s[i] == sep
    requires |t| <= |s| - i - 1 && t == s[i + 1..][|s| - i - 1 - |t|..]
    requires |t| < |s| - i - 1 ==> s[i + 1..][|s| - i - 1 - |t| - 1] == sep
    ensures |t| <= |s| && t == s[|s| - |t|..]
    ensures |t| < |s| ==> s[|s| - |t| - 1] == sep
  {
    var rest := s[i + 1..];
    var m := |rest| - |t|;
    assert i + 1 + m == |s| - |t|;
    assert rest[m..] == s[|s| - |t|..];
    if |t| < |rest| {
      assert rest[m - 1] == s[|s| - |t| - 1];
    }
  }

  /** The last piece is the part of `s` after its final separator, or all of `s`. */
  lemma {:induction false} LastPieceIsTail(s: string, sep: char)
    ensures var t := LastPiece(s, sep);
      && |t| <= |s| && t == s[|s| - |t|..] && sep !in t
      && (|t| < |s| ==> s[|s| - |t| - 1] == sep)
    decreases |s|
  {
    var i := IndexOf(s, sep);
    if i == |s| {
      LastPieceNoSep(s, sep);
    } else {
      LastPiecePastSep(s, sep);
      LastPieceIsTail(s[i + 1..], sep);
      SuffixPastSep(s, i, LastPiece(s[i + 1..], sep), sep);
    }
  }

  /** Splitting and joining back with the same separator gives the input. */
  lemma {:induction false} JoinSplit(s: string, sep: char)
    ensures Join(Split(s, sep), [sep]) == s
    decreases |s|
  {
    var i := IndexOf(s, sep);
    if i == |s| {
      assert s[..i] == s;
    } else {
      var rest := Split(s[i + 1..], sep);
      var parts := [s[..i]] + rest;
      assert Split(s, sep) == parts;
      assert parts[1..] == rest;
      assert Join(parts, [sep]) == s[..i] + [sep] + Join(rest, [sep]);
      JoinSplit(s[i + 1..], sep);
      assert s == s[..i] + [sep] + s[i + 1..];
    }
  }

  /** The first separator after a separator-free prefix is the one right after it. */
  lemma IndexAfterPrefix(p: string, c: char, rest: string)
    requires c !in p
    ensures IndexOf(p + [c] + rest, c) == |p|
  {
    var s := p + [c] + rest;
    assert forall j :: 0 <= j < |p| ==> s[j] == p[j];
    assert s[|p|] == c;
    assert s[..|p| + 1] == p + [c];
  }

  /** Splitting separator-free parts joined by the separator gives the parts back. */
  lemma {:induction false} SplitJoin(parts: seq<string>, sep: char)
    requires |parts| >= 1
    requires forall k :: 0 <= k < |parts| ==> sep !in parts[k]
    ensures Split(Join(parts, [sep]), sep) == parts
    decreases |parts|
  {
    var s := Join(parts, [sep]);
    if |parts| == 1 {
      assert s == parts[0];
    } else {
      var rest := Join(parts[1..], [sep]);
      assert s == parts[0] + [sep] + rest;
      IndexAfterPrefix(parts[0], sep, rest);
      SplitPastSep(s, sep);
      assert s[..|parts[0]|] == parts[0];
      assert s[|parts[0]| + 1..] == rest;
      assert forall k :: 0 <= k < |parts| - 1 ==> parts[1..][k] == parts[k + 1];
      SplitJoin(parts[1..], sep);
      assert parts == [parts[0]] + parts[1..];
    }
  }

  /** `s.replace(pattern, "")`: every non-overlapping occurrence, scanned left to right, removed. */
  function RemoveAll(s: string, pattern: string): (r: string)
    requires |pattern| > 0
    decreases |s|
  {
    if |s| == 0 then ""
    else if StartsWith(s, pattern) then RemoveAll(s[|pattern|..], pattern)
    else [s[0]] + RemoveAll(s[1..], pattern)
  }

  /** Removing a pattern whose first character never occurs changes nothing. */
  lemma {:induction false} RemoveAbsent(s: string, pattern: string)
    requires |pattern| > 0 && pattern[0] !in s
    ensures RemoveAll(s, pattern) == s
    decreases |s|
  {
    if |s| > 0 {
      assert !StartsWith(s, pattern) by { assert s[0] != pattern[0]; }
      RemoveAbsent(s[1..], pattern);
    }
  }

  /** `c.lower()` for an ASCII upper-case letter; every other character is left as it is. */
  function LowerChar(c: char): char {
    if 'A' <= c <= 'Z' then c - 'A' + 'a' else c
  }

  /** `s.lower()` restricted to ASCII letters. */
  function LowerAscii(s: string): (r: string)
    ensures |r| == |s|
    ensures forall i :: 0 <= i < |s| ==> r[i] == LowerChar(s[i])
  {
    seq(|s|, i requires 0 <= i < |s| => LowerChar(s[i]))
  }

  predicate IsAsciiLetter(c: char) {
    ('a' <= c <= 'z') || ('A' <= c <= 'Z')
  }

  /** A pattern occurs in `s` at `i` exactly when each of its characters matches there. */
  lemma StartsWithAt(s: string, i: nat, pattern: string)
    requires i + |pattern| <= |s|
    ensures StartsWith(s[i..], pattern) <==> forall k :: 0 <= k < |pattern| ==> s[i + k] == pattern[k]
  {
    if forall k :: 0 <= k < |pattern| ==> s[i + k] == pattern[k] {
      assert s[i..][..|pattern|] == pattern;
    }
    if StartsWith(s[i..], pattern) {
      forall k | 0 <= k < |pattern| ensures s[i + k] == pattern[k] {
        assert s[i..][..|pattern|][k] == pattern[k];
      }
    }
  }

  /** At one position, lowering keeps a letter-free pattern's match or mismatch. */
  lemma LowerMatchAt(s: string, i: nat, pattern: string)
    requires forall k :: 0 <= k < |pattern| ==> !IsAsciiLetter(pattern[k])
    requires i + |pattern| <= |s|
    ensures StartsWith(LowerAscii(s)[i..], pattern) <==> StartsWith(s[i..], pattern)
  {
    var t := LowerAscii(s);
    StartsWithAt(s, i, pattern);
    StartsWithAt(t, i, pattern);
  }

  /**
   * Lowering cannot create or destroy an occurrence of a pattern that has no
   * ASCII letters (such as a Hangul keyword).
   */
  lemma LowerKeepsLetterFreeMatches(s: string, pattern: string)
    requires forall k :: 0 <= k < |pattern| ==> !IsAsciiLetter(pattern[k])
    ensures Contains(LowerAscii(s), pattern) <==> Contains(s, pattern)
  {
    var t := LowerAscii(s);
    ContainsAt(s, pattern);
    ContainsAt(t, pattern);
    if Contains(s, pattern) {
      var i :| 0 <= i <= |s| - |pattern| && StartsWith(s[i..], pattern);
      LowerMatchAt(s, i, pattern);
    }
    if Contains(t, pattern) {
      var i :| 0 <= i <= |t| - |pattern| && StartsWith(t[i..], pattern);
      LowerMatchAt(s, i, pattern);
    }
  }
}
