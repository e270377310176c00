/** The string operations the lookup and table-building code relies on:
    `String.prototype.trim`, `slice(0, n)` and `toUpperCase`, modelled over
    Dafny's `string` (a sequence of Unicode scalar values). */
module Text {

  /** The characters `trim` removes: ECMAScript's WhiteSpace (TAB, VT, FF,
      SPACE, NO-BREAK SPACE, ZERO WIDTH NO-BREAK SPACE and the Unicode
      category Zs) and LineTerminator (LF, CR, LINE SEPARATOR, PARAGRAPH
      SEPARATOR). */
  const WhitespaceChars: set<char> := {
    '\t', '\n', '\U{000B}', '\U{000C}', '\r', ' ', '\U{00A0}', '\U{1680}',
    '\U{2000}', '\U{2001}', '\U{2002}', '\U{2003}', '\U{2004}', '\U{2005}',
    '\U{2006}', '\U{2007}', '\U{2008}', '\U{2009}', '\U{200A}',
    '\U{2028}', '\U{2029}', '\U{202F}', '\U{205F}', '\U{3000}', '\U{FEFF}'
  }

  predicate IsWhitespace(c: char) {
    c in WhitespaceChars
  }

  predicate AllWhitespace(s: string) {
    forall i :: 0 <= i < |s| ==> IsWhitespace(s[i])
  }

  /** `s` with its leading whitespace removed. */
  function TrimStart(s: string): (r: string)
    ensures |r| <= |s| && r == s[|s| - |r|..]
    ensures AllWhitespace(s[..|s| - |r|])
    ensures r == [] || !IsWhitespace(r[0])
  {
    if |s| > 0 && IsWhitespace(s[0]) then
      var r := TrimStart(s[1..]);
      assert s[1..][..|s| - 1 - |r|] == s[1..|s| - |r|];
      r
    else
      s
  }

  /** `s` with its trailing whitespace removed. */
  function TrimEnd(s: string): (r: string)
    ensures |r| <= |s| && r == s[..|r|]
    ensures AllWhitespace(s[|r|..])
    ensures r == [] || !IsWhitespace(r[|r| - 1])
  {
    if |s| > 0 && IsWhitespace(s[|s| - 1]) then
      var r := TrimEnd(s[..|s| - 1]);
      assert s[|r|..] == s[..|s| - 1][|r|..] + [s[|s| - 1]];
      r
    else
      s
  }

  /** `String.prototype.trim`: `s` without whitespace at either end. */
  function Trim(s: string): (r: string)
    ensures |r| <= |s|
    ensures r == [] || (!IsWhitespace(r[0]) && !IsWhitespace(r[|r| - 1]))
  {
    TrimEnd(TrimStart(s))
  }

  /** `trim` splits `s` into whitespace, the result, and whitespace: it
      removes nothing else and keeps the characters in their order. */
  lemma TrimRemovesOnlyWhitespace(s: string)
    ensures exists a, b :: AllWhitespace(a) && AllWhitespace(b) && s == a + Trim(s) + b
  {
    assert Trim(s) == TrimEnd(TrimStart(s));
    TrimEndOfTrimStartSplits(s);
  }

  lemma TrimEndOfTrimStartSplits(s: string)
    ensures exists a, b :: AllWhitespace(a) && AllWhitespace(b) && s == a + TrimEnd(TrimStart(s)) + b
  {
    var t := TrimStart(s);
    var r := TrimEnd(t);
    TrimStartSplits(s);
    TrimEndSplits(t);
    ConcatAssociates(s, t, r, s[..|s| - |t|], t[|r|..]);
    SplitWitness(s, s[..|s| - |t|], r, t[|r|..]);
  }

  lemma SplitWitness(s: string, a: string, r: string, b: string)
    requires AllWhitespace(a) && AllWhitespace(b) && s == a + r + b
    ensures exists a', b' :: AllWhitespace(a') && AllWhitespace(b') && s == a' + r + b'
  {
  }

  lemma TrimStartSplits(s: string)
    ensures AllWhitespace(s[..|s| - |TrimStart(s)|]) && s == s[..|s| - |TrimStart(s)|] + TrimStart(s)
  {
  }

  lemma TrimEndSplits(t: string)
    ensures AllWhitespace(t[|TrimEnd(t)|..]) && t == TrimEnd(t) + t[|TrimEnd(t)|..]
  {
  }

  lemma ConcatAssociates(s: string, t: string, r: string, a: string, b: string)
    requires s == a + t && t == r + b
    ensures s == a + r + b
  {
  }

  lemma {:induction false} TrimStartPadded(a: string, s: string)
    requires AllWhitespace(a)
    ensures TrimStart(a + s) == TrimStart(s)
    decreases |a|
  {
    if |a| > 0 {
      assert (a + s)[1..] == a[1..] + s;
      TrimStartPadded(a[1..], s);
    } else {
      assert a + s == s;
    }
  }

  lemma {:induction false} TrimEndPadded(s: string, b: string)
    requires AllWhitespace(b)
    ensures TrimEnd(s + b) == TrimEnd(s)
    decreases |b|
  {
    if |b| > 0 {
      var b' := b[..|b| - 1];
      assert (s + b)[..|s + b| - 1] == s + b';
      TrimEndPadded(s, b');
    } else {
      assert s + b == s;
    }
  }

  lemma {:induction false} TrimStartThenPad(s: string, b: string)
    requires AllWhitespace(b)
    ensures TrimStart(s + b) == (if TrimStart(s) == [] then [] else TrimStart(s) + b)
    decreases |s|
  {
    if |s| == 0 {
      assert s + b == b;
    } else if IsWhitespace(s[0]) {
      assert (s + b)[1..] == s[1..] + b;
      TrimStartThenPad(s[1..], b);
    }
  }

  /** Whitespace added around a string does not change what `trim` yields. */
  lemma TrimPadded(a: string, s: string, b: string)
    requires AllWhitespace(a) && AllWhitespace(b)
    ensures Trim(a + s + b) == Trim(s)
  {
    var sb := s + b;
    assert a + s + b == a + sb;
    TrimStartPadded(a, sb);
    TrimStartThenPad(s, b);
    var t := TrimStart(s);
    if t != [] {
      TrimEndPadded(t, b);
      assert TrimStart(a + s + b) == t + b;
    } else {
      assert TrimStart(a + s + b) == [];
    }
  }

  /** A string without whitespace at either end is left as it is. */
  lemma TrimOfClean(s: string)
    requires s == [] || (!IsWhitespace(s[0]) && !IsWhitespace(s[|s| - 1]))
    ensures Trim(s) == s
  {
    TrimStartOfClean(s);
    TrimEndOfClean(s);
  }

  lemma TrimStartOfClean(s: string)
    requires s == [] || !IsWhitespace(s[0])
    ensures TrimStart(s) == s
  {
  }

  lemma TrimEndOfClean(s: string)
    requires s == [] || !IsWhitespace(s[|s| - 1])
    ensures TrimEnd(s) == s
  {
  }

  /** `trim` applied twice removes nothing more. */
  lemma TrimIdempotent(s: string)
    ensures Trim(Trim(s)) == Trim(s)
  {
    TrimOfClean(Trim(s));
  }

  predicate IsAsciiLower(c: char) {
    'a' <= c <= 'z'
  }

  /** `toUpperCase` restricted to ASCII: a-z become A-Z, all else is kept. */
  function AsciiUpper(c: char): char {
    if IsAsciiLower(c) then (c as int - 32) as char else c
  }

  function UpperAscii(s: string): (r: string)
    ensures |r| == |s|
    ensures forall i :: 0 <= i < |s| ==> !IsAsciiLower(r[i]) && SameIgnoringCase(r[i], s[i])
  {
    seq(|s|, i requires 0 <= i < |s| => AsciiUpper(s[i]))
  }

  /** Two characters that are the same letter up to ASCII case, or equal. */
  predicate SameIgnoringCase(c: char, d: char) {
    || c == d
    || (IsAsciiLower(c) && d as int == c as int - 32)
    || (IsAsciiLower(d) && c as int == d as int - 32)
  }

  /** Upper-casing identifies exactly the characters that agree up to case. */
  lemma UpperIdentifiesCase(c: char, d: char)
    ensures AsciiUpper(c) == AsciiUpper(d) <==> SameIgnoringCase(c, d)
  {
  }

  /** `slice(0, n)`: the first `n` characters, or all of `s` when shorter. */
  function Take(s: string, n: nat): (r: string)
    ensures |r| == (if |s| < n then |s| else n)
    ensures s == r + s[|r|..]
  {
    if |s| <= n then s else s[..n]
  }
}
