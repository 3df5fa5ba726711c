/**
 * The Python `str` operations that the extractors are built from, with the
 * semantics CPython gives them: `isdigit`, `isspace`, `lower`, `upper`,
 * `strip`, `find`, `in`, `split`, `replace`, `join`, and the accent-folding
 * `normalizar` (NFKD, then drop what is not ASCII).  Digits are ASCII digits;
 * case mapping and NFKD folding are modelled for ASCII and Latin-1.
 */
module Strings {

  // ---------------------------------------------------------------------------
  // Character classes
  // ---------------------------------------------------------------------------

  /** `str.isdigit` on one character (ASCII digits). */
  predicate IsDigit(c: char) { '0' <= c <= '9' }

  /** `str.isdigit` on a string: non-empty and every character a digit. */
  predicate AllDigits(s: string) {
    |s| > 0 && forall i :: 0 <= i < |s| ==> IsDigit(s[i])
  }

  /** The characters for which `str.isspace` holds (what `strip()` and `split()` remove). */
  const Whitespace: set<char> := {
    ' ', '\t', '\n', '\U{000B}', '\U{000C}', '\r', '\U{001C}', '\U{001D}', '\U{001E}', '\U{001F}',
    '\U{0085}', '\U{00A0}', '\U{1680}', '\U{2000}', '\U{2001}', '\U{2002}', '\U{2003}', '\U{2004}',
    '\U{2005}', '\U{2006}', '\U{2007}', '\U{2008}', '\U{2009}', '\U{200A}', '\U{2028}', '\U{2029}',
    '\U{202F}', '\U{205F}', '\U{3000}'
  }

  predicate IsSpace(c: char) { c in Whitespace }

  lemma DigitNotSpace(c: char)
    requires IsDigit(c)
    ensures !IsSpace(c)
  {
  }

  /**
   * `str.isalnum` on ASCII and Latin-1: digits, letters, the ordinal
   * indicators, the superscript digits, the micro sign and the vulgar
   * fractions (which Python counts as numeric).
   */
  predicate IsAlnum(c: char) {
    IsDigit(c) || ('a' <= c <= 'z') || ('A' <= c <= 'Z')
    || c == '\U{00AA}' || c == '\U{00BA}' || c == '\U{00B2}' || c == '\U{00B3}' || c == '\U{00B9}'
    || c == '\U{00B5}' || ('\U{00BC}' <= c <= '\U{00BE}')
    || ('\U{00C0}' <= c <= '\U{00FF}' && c != '\U{00D7}' && c != '\U{00F7}')
  }

  // ---------------------------------------------------------------------------
  // Case mapping
  // ---------------------------------------------------------------------------

  predicate IsUpperLatin(c: char) {
    ('A' <= c <= 'Z') || ('\U{00C0}' <= c <= '\U{00DE}' && c != '\U{00D7}')
  }

  /** `str.lower` on one character. */
  function LowerChar(c: char): (r: char)
    ensures !IsUpperLatin(r)
    ensures !IsUpperLatin(c) ==> r == c
  {
    if IsUpperLatin(c) then (c as int + 32) as char else c
  }

  /** `str.upper` on one character. */
  function UpperChar(c: char): char {
    if ('a' <= c <= 'z') || ('\U{00E0}' <= c <= '\U{00FE}' && c != '\U{00F7}') then (c as int - 32) as char
    else if c == '\U{00FF}' then '\U{0178}'
    else if c == '\U{00B5}' then '\U{039C}'
    else c
  }

  function Lower(s: string): (r: string)
    ensures |r| == |s|
    ensures forall i :: 0 <= i < |s| ==> r[i] == LowerChar(s[i])
  {
    seq(|s|, i requires 0 <= i < |s| => LowerChar(s[i]))
  }

  /** `str.upper` on one character as text: the sharp s becomes "SS", every other character one character. */
  function UpperText(c: char): (r: string)
    ensures c == '\U{00DF}' ==> r == "SS"
    ensures c != '\U{00DF}' ==> r == [UpperChar(c)]
  {
    if c == '\U{00DF}' then "SS" else [UpperChar(c)]
  }

  /**
   * `str.upper`: each character's upper case in order. It is never
   * shorter than the text, empty only for the empty text, and without
   * a sharp s it maps character by character.
   */
  function Upper(s: string): (r: string)
    ensures |r| >= |s|
    ensures r == [] <==> s == []
    ensures (forall i :: 0 <= i < |s| ==> s[i] != '\U{00DF}') ==>
      |r| == |s| && forall i :: 0 <= i < |s| ==> r[i] == UpperChar(s[i])
  {
    if s == [] then [] else UpperText(s[0]) + Upper(s[1..])
  }

  lemma LowerAppend(a: string, b: string)
    ensures Lower(a + b) == Lower(a) + Lower(b)
  {
  }

  /** Lower-casing is idempotent. */
  lemma LowerIdempotent(s: string)
    ensures Lower(Lower(s)) == Lower(s)
  {
  }

  // ---------------------------------------------------------------------------
  // normalizar: NFKD, drop non-ASCII, lower-case
  // ---------------------------------------------------------------------------

  predicate IsAsciiLower(c: char) { c < '\U{0080}' && !('A' <= c <= 'Z') }

  /**
   * What NFKD followed by `encode("ASCII", "ignore")` leaves of one
   * character: ASCII is kept, a Latin-1 letter with a diacritic becomes its
   * base letter, a few compatibility characters become their ASCII
   * decomposition, and everything else is dropped.
   */
  function FoldChar(c: char): (r: string)
    ensures forall i :: 0 <= i < |r| ==> r[i] < '\U{0080}'
    ensures c < '\U{0080}' ==> r == [c]
  {
    if c < '\U{0080}' then [c]
    else if c == '\U{00A0}' || c == '\U{00A8}' || c == '\U{00AF}' || c == '\U{00B4}' || c == '\U{00B8}' then " "
    else if c == '\U{00AA}' then "a"
    else if c == '\U{00BA}' then "o"
    else if c == '\U{00B9}' then "1"
    else if c == '\U{00B2}' then "2"
    else if c == '\U{00B3}' then "3"
    else if c == '\U{00BC}' then "14"
    else if c == '\U{00BD}' then "12"
    else if c == '\U{00BE}' then "34"
    else if '\U{00C0}' <= c <= '\U{00C5}' then "A"
    else if c == '\U{00C7}' then "C"
    else if '\U{00C8}' <= c <= '\U{00CB}' then "E"
    else if '\U{00CC}' <= c <= '\U{00CF}' then "I"
    else if c == '\U{00D1}' then "N"
    else if '\U{00D2}' <= c <= '\U{00D6}' then "O"
    else if '\U{00D9}' <= c <= '\U{00DC}' then "U"
    else if c == '\U{00DD}' then "Y"
    else if '\U{00E0}' <= c <= '\U{00E5}' then "a"
    else if c == '\U{00E7}' then "c"
    else if '\U{00E8}' <= c <= '\U{00EB}' then "e"
    else if '\U{00EC}' <= c <= '\U{00EF}' then "i"
    else if c == '\U{00F1}' then "n"
    else if '\U{00F2}' <= c <= '\U{00F6}' then "o"
    else if '\U{00F9}' <= c <= '\U{00FC}' then "u"
    else if c == '\U{00FD}' || c == '\U{00FF}' then "y"
    else ""
  }

  /** `normalizar(s)`: fold to ASCII, then lower-case. */
  function Normalize(s: string): (r: string)
    ensures forall i :: 0 <= i < |r| ==> IsAsciiLower(r[i])
    decreases |s|
  {
    if s == [] then [] else Lower(FoldChar(s[0])) + Normalize(s[1..])
  }

  lemma {:induction false} NormalizeAppend(a: string, b: string)
    ensures Normalize(a + b) == Normalize(a) + Normalize(b)
    decreases |a|
  {
    if a == [] {
      assert a + b == b;
    } else {
      assert (a + b)[1..] == a[1..] + b;
      NormalizeAppend(a[1..], b);
    }
  }

  /** Accent folding keeps occurrences: if `w` occurs in `s`, its folded form occurs in the folded `s`. */
  lemma NormalizeKeepsOccurrence(s: string, w: string)
    requires Contains(s, w)
    ensures Contains(Normalize(s), Normalize(w))
  {
    var k :| 0 <= k <= |s| - |w| && IsAt(s, k, w);
    assert s == s[..k] + w + s[k + |w|..];
    NormalizeAppend(s[..k] + w, s[k + |w|..]);
    NormalizeAppend(s[..k], w);
    var n := Normalize(w);
    assert IsAt(n, 0, n);
    ContainsExtend(Normalize(s[..k]), n, Normalize(s[k + |w|..]), n);
  }

  /** A string of ASCII lower-case characters is a fixed point of `Normalize`. */
  lemma {:induction false} NormalizeOfAsciiLower(s: string)
    requires forall i :: 0 <= i < |s| ==> IsAsciiLower(s[i])
    ensures Normalize(s) == s
    decreases |s|
  {
    if s != [] {
      NormalizeOfAsciiLower(s[1..]);
      assert Lower(FoldChar(s[0])) == [s[0]];
    }
  }

  /** `normalizar(normalizar(s)) == normalizar(s)`. */
  lemma NormalizeIdempotent(s: string)
    ensures Normalize(Normalize(s)) == Normalize(s)
  {
    NormalizeOfAsciiLower(Normalize(s));
  }

  // ---------------------------------------------------------------------------
  // Searching
  // ---------------------------------------------------------------------------

  /** `sub` occurs in `s` at index `i`. */
  predicate IsAt(s: string, i: int, sub: string) {
    0 <= i && i + |sub| <= |s| && s[i..i + |sub|] == sub
  }

  /** Python's `sub in s`. */
  predicate Contains(s: string, sub: string) {
    exists k :: 0 <= k <= |s| - |sub| && IsAt(s, k, sub)
  }

  predicate StartsWith(s: string, p: string) { IsAt(s, 0, p) }

  /** Python's `s.find(sub, start)`: the first occurrence at or after `start`, or -1. */
  function FindFrom(s: string, sub: string, start: nat): (r: int)
    ensures r == -1 || (start <= r && IsAt(s, r, sub))
    ensures r != -1 ==> forall k :: start <= k < r ==> !IsAt(s, k, sub)
    ensures r == -1 ==> forall k :: start <= k ==> !IsAt(s, k, sub)
    decreases |s| - start
  {
    if start + |sub| > |s| then -1
    else if IsAt(s, start, sub) then start
    else FindFrom(s, sub, start + 1)
  }

  function Find(s: string, sub: string): (r: int)
    ensures r == -1 <==> !Contains(s, sub)
    ensures r != -1 ==> IsAt(s, r, sub) && forall k :: 0 <= k < r ==> !IsAt(s, k, sub)
  {
    FindFrom(s, sub, 0)
  }

  lemma SliceOfSlice(s: string, i: int, j: int, k: int, l: int)
    requires 0 <= i <= j <= |s|
    requires 0 <= k <= l <= j - i
    ensures s[i..j][k..l] == s[i + k..i + l]
  {
    var a := s[i..j][k..l];
    var b := s[i + k..i + l];
    forall m | 0 <= m < |a| ensures a[m] == b[m] {
      assert a[m] == s[i..j][k + m];
    }
  }

  /** An occurrence of `sub` in a slice of `s` is an occurrence in `s`. */
  lemma ContainsInPart(s: string, i: nat, j: nat, sub: string)
    requires i <= j <= |s|
    requires Contains(s[i..j], sub)
    ensures Contains(s, sub)
  {
    var k :| 0 <= k <= j - i - |sub| && IsAt(s[i..j], k, sub);
    SliceOfSlice(s, i, j, k, k + |sub|);
    assert IsAt(s, i + k, sub);
  }

  /** An occurrence stays an occurrence when text is added on either side. */
  lemma ContainsExtend(a: string, s: string, b: string, sub: string)
    requires Contains(s, sub)
    ensures Contains(a + s + b, sub)
  {
    var k :| 0 <= k <= |s| - |sub| && IsAt(s, k, sub);
    var t := a + s + b;
    assert t[|a| + k..|a| + k + |sub|] == s[k..k + |sub|];
    assert IsAt(t, |a| + k, sub);
  }

  /** Where a word occurs, so does every prefix of it. */
  lemma ContainsPrefix(s: string, w: string, p: string)
    requires Contains(s, w) && StartsWith(w, p)
    ensures Contains(s, p)
  {
    var k :| 0 <= k <= |s| - |w| && IsAt(s, k, w);
    forall i | 0 <= i < |p| ensures s[k + i] == p[i] {
      assert s[k + i] == s[k..k + |w|][i];
      assert w[i] == w[..|p|][i];
    }
    assert s[k..k + |p|] == p;
    assert IsAt(s, k, p);
  }

  /** The text before the first occurrence of `sub` does not contain it. */
  lemma NotInPrefixBeforeFirst(s: string, sub: string, k: int)
    requires 0 <= k <= |s| && |sub| > 0
    requires forall m :: 0 <= m < k ==> !IsAt(s, m, sub)
    ensures !Contains(s[..k], sub)
  {
    if Contains(s[..k], sub) {
      var j :| 0 <= j <= k - |sub| && IsAt(s[..k], j, sub);
      SliceOfSlice(s, 0, k, j, j + |sub|);
      assert IsAt(s, j, sub);
    }
  }

  // ---------------------------------------------------------------------------
  // Stripping
  // ---------------------------------------------------------------------------

  /** `s.lstrip(chars)` with the character set `cs`. */
  function LStripSet(s: string, cs: set<char>): (r: string)
    ensures |r| <= |s|
    ensures r != [] ==> r[0] !in cs
    decreases |s|
  {
    if s != [] && s[0] in cs then LStripSet(s[1..], cs) else s
  }

  /** `s.rstrip(chars)` with the character set `cs`. */
  function RStripSet(s: string, cs: set<char>): (r: string)
    ensures |r| <= |s|
    ensures r != [] ==> r[|r| - 1] !in cs
    decreases |s|
  {
    if s != [] && s[|s| - 1] in cs then RStripSet(s[..|s| - 1], cs) else s
  }

  /** `lstrip` keeps a suffix. */
  lemma {:induction false} LStripSetSuffix(s: string, cs: set<char>)
    ensures LStripSet(s, cs) == s[|s| - |LStripSet(s, cs)|..]
    decreases |s|
  {
    if s != [] && s[0] in cs {
      LStripSetSuffix(s[1..], cs);
    }
  }

  /** `rstrip` keeps a prefix. */
  lemma {:induction false} RStripSetPrefix(s: string, cs: set<char>)
    ensures RStripSet(s, cs) == s[..|RStripSet(s, cs)|]
    decreases |s|
  {
    if s != [] && s[|s| - 1] in cs {
      RStripSetPrefix(s[..|s| - 1], cs);
    }
  }

  /** Everything `lstrip` removes is in the set. */
  lemma {:induction false} LStripSetRemoved(s: string, cs: set<char>)
    ensures forall i :: 0 <= i < |s| - |LStripSet(s, cs)| ==> s[i] in cs
    decreases |s|
  {
    if s != [] && s[0] in cs {
      LStripSetRemoved(s[1..], cs);
    }
  }

  /** Everything `rstrip` removes is in the set. */
  lemma {:induction false} RStripSetRemoved(s: string, cs: set<char>)
    ensures forall i :: |RStripSet(s, cs)| <= i < |s| ==> s[i] in cs
    decreases |s|
  {
    if s != [] && s[|s| - 1] in cs {
      RStripSetRemoved(s[..|s| - 1], cs);
    }
  }

  /** `s.strip(chars)`. */
  function StripSet(s: string, cs: set<char>): string {
    RStripSet(LStripSet(s, cs), cs)
  }

  /** `s.strip()`. */
  function Strip(s: string): string { StripSet(s, Whitespace) }

  function LStrip(s: string): string { LStripSet(s, Whitespace) }

  /** The result of `strip(chars)` is a middle slice of `s`, with no stripped character at either end. */
  lemma StripSetShape(s: string, cs: set<char>)
    ensures exists i, j :: 0 <= i <= j <= |s| && StripSet(s, cs) == s[i..j]
    ensures StripSet(s, cs) != [] ==> StripSet(s, cs)[0] !in cs && StripSet(s, cs)[|StripSet(s, cs)| - 1] !in cs
  {
    var l := LStripSet(s, cs);
    var r := RStripSet(l, cs);
    var i := |s| - |l|;
    LStripSetSuffix(s, cs);
    RStripSetPrefix(l, cs);
    assert r == s[i..i + |r|];
    if r != [] {
      assert r[0] == l[0];
    }
  }

  /** Nothing is stripped from text whose two ends are outside the set. */
  lemma StripSetNoop(s: string, cs: set<char>)
    requires s != [] && s[0] !in cs && s[|s| - 1] !in cs
    ensures StripSet(s, cs) == s
  {
    assert LStripSet(s, cs) == s;
  }

  /** Stripping is idempotent. */
  lemma StripSetIdempotent(s: string, cs: set<char>)
    ensures StripSet(StripSet(s, cs), cs) == StripSet(s, cs)
  {
    StripSetShape(s, cs);
    var t := StripSet(s, cs);
    if t != [] {
      assert LStripSet(t, cs) == t;
      assert RStripSet(t, cs) == t;
    }
  }

  // ---------------------------------------------------------------------------
  // Splitting, joining, replacing
  // ---------------------------------------------------------------------------

  /** `sep.join(parts)`. */
  function Join(sep: string, parts: seq<string>): string
    decreases |parts|
  {
    if |parts| == 0 then ""
    else if |parts| == 1 then parts[0]
    else parts[0] + sep + Join(sep, parts[1..])
  }

  /** `s.split(sep)` for a non-empty separator: the pieces between the leftmost non-overlapping occurrences. */
  function Split(s: string, sep: string): (parts: seq<string>)
    requires |sep| > 0
    ensures |parts| >= 1
    ensures Join(sep, parts) == s
    ensures forall i :: 0 <= i < |parts| ==> !Contains(parts[i], sep)
    decreases |s|
  {
    var k := Find(s, sep);
    if k < 0 then [s]
    else
      var rest := Split(s[k + |sep|..], sep);
      NotInPrefixBeforeFirst(s, sep, k);
      assert s == s[..k] + sep + s[k + |sep|..];
      [s[..k]] + rest
  }

  /** Splitting `a + sep + b` where the one-character `sep` does not occur in `a`. */
  lemma SplitAfterFree(a: string, c: char, b: string)
    requires forall i :: 0 <= i < |a| ==> a[i] != c
    ensures Split(a + [c] + b, [c]) == [a] + Split(b, [c])
  {
    var s := a + [c] + b;
    assert IsAt(s, |a|, [c]);
    forall k | 0 <= k < |a| ensures !IsAt(s, k, [c]) {
      assert s[k..k + 1] == [a[k]];
    }
    assert Find(s, [c]) == |a|;
    assert s[|a| + 1..] == b;
  }

  /** Text without the one-character separator splits into itself alone. */
  lemma SplitFree(a: string, c: char)
    requires forall i :: 0 <= i < |a| ==> a[i] != c
    ensures Split(a, [c]) == [a]
  {
    forall k | 0 <= k < |a| ensures !IsAt(a, k, [c]) {
      assert a[k..k + 1] == [a[k]];
    }
    assert !Contains(a, [c]);
  }

  /** Text in which character `c` never appears does not contain `c`, nor any word starting with it. */
  lemma NotContainsChar(s: string, c: char, w: string)
    requires forall i :: 0 <= i < |s| ==> s[i] != c
    requires |w| > 0 && w[0] == c
    ensures !Contains(s, w)
  {
    forall k | 0 <= k <= |s| - |w| ensures !IsAt(s, k, w) {
      assert s[k] != w[0];
    }
  }

  /** `s.split(sep, 1)[1]` when `sep` occurs: the text after its first occurrence. */
  function AfterFirst(s: string, sep: string): (r: string)
    requires |sep| > 0 && Contains(s, sep)
    ensures exists k :: IsAt(s, k, sep) && r == s[k + |sep|..] && !Contains(s[..k], sep)
  {
    var k := Find(s, sep);
    NotInPrefixBeforeFirst(s, sep, k);
    s[k + |sep|..]
  }

  /** `s.replace(pat, rep)`: every leftmost non-overlapping occurrence replaced. */
  function Replace(s: string, pat: string, rep: string): (r: string)
    requires |pat| > 0
    ensures !Contains(s, pat) ==> r == s
    decreases |s|
  {
    var k := Find(s, pat);
    if k < 0 then s else s[..k] + rep + Replace(s[k + |pat|..], pat, rep)
  }

  /** `s.replace("\r", "")`. */
  function RemoveCR(s: string): string { Replace(s, "\r", "") }

  lemma NonSpaceOfSpace(c: char)
    requires IsSpace(c)
    ensures NonSpace([c]) == []
  {
    assert [c][1..] == [];
  }

  /** Replacing one whitespace character by another keeps the non-whitespace characters. */
  lemma {:induction false} NonSpaceReplaceSpace(s: string, c: char, d: char)
    requires IsSpace(c) && IsSpace(d)
    ensures NonSpace(Replace(s, [c], [d])) == NonSpace(s)
    decreases |s|
  {
    var k := Find(s, [c]);
    if k >= 0 {
      var pre, rest := s[..k], s[k + 1..];
      var tail := Replace(rest, [c], [d]);
      assert Replace(s, [c], [d]) == pre + [d] + tail;
      NonSpaceReplaceSpace(rest, c, d);
      assert s == pre + [c] + rest by {
        assert s[k..k + 1] == [c];
      }
      NonSpaceOfSpace(c);
      NonSpaceOfSpace(d);
      NonSpaceAppend(pre + [c], rest);
      NonSpaceAppend(pre, [c]);
      NonSpaceAppend(pre + [d], tail);
      NonSpaceAppend(pre, [d]);
    }
  }

  /** Replacing is splitting on the pat text and joining with the rep one. */
  lemma {:induction false} ReplaceIsSplitJoin(s: string, pat: string, rep: string)
    requires |pat| > 0
    ensures Replace(s, pat, rep) == Join(rep, Split(s, pat))
    decreases |s|
  {
    var k := Find(s, pat);
    if k >= 0 {
      ReplaceIsSplitJoin(s[k + |pat|..], pat, rep);
    }
  }

  /** `s.split()`'s way of reading one word: the longest prefix without whitespace. */
  function TakeWord(s: string): (w: string)
    ensures |w| <= |s| && w == s[..|w|]
    ensures forall i :: 0 <= i < |w| ==> !IsSpace(w[i])
    ensures |w| < |s| ==> IsSpace(s[|w|])
    decreases |s|
  {
    if s == [] || IsSpace(s[0]) then [] else [s[0]] + TakeWord(s[1..])
  }

  /** The characters of `s` that are not whitespace, in order. */
  function NonSpace(s: string): string
    decreases |s|
  {
    if s == [] then [] else (if IsSpace(s[0]) then [] else [s[0]]) + NonSpace(s[1..])
  }

  function Concat(parts: seq<string>): string
    decreases |parts|
  {
    if parts == [] then [] else parts[0] + Concat(parts[1..])
  }

  lemma {:induction false} NonSpaceAppend(a: string, b: string)
    ensures NonSpace(a + b) == NonSpace(a) + NonSpace(b)
    decreases |a|
  {
    if a == [] {
      assert a + b == b;
    } else {
      var h := if IsSpace(a[0]) then [] else [a[0]];
      assert (a + b)[0] == a[0];
      assert (a + b)[1..] == a[1..] + b;
      assert NonSpace(a + b) == h + NonSpace(a[1..] + b);
      assert NonSpace(a) == h + NonSpace(a[1..]);
      NonSpaceAppend(a[1..], b);
      assert h + (NonSpace(a[1..]) + NonSpace(b)) == (h + NonSpace(a[1..])) + NonSpace(b);
    }
  }

  lemma {:induction false} NonSpaceOfWord(w: string)
    requires forall i :: 0 <= i < |w| ==> !IsSpace(w[i])
    ensures NonSpace(w) == w
    decreases |w|
  {
    if w != [] {
      NonSpaceOfWord(w[1..]);
    }
  }

  /** `s.split()`: the maximal runs of non-whitespace characters, in order. */
  function Words(s: string): (ws: seq<string>)
    ensures forall i :: 0 <= i < |ws| ==> ws[i] != [] && forall j :: 0 <= j < |ws[i]| ==> !IsSpace(ws[i][j])
    ensures Concat(ws) == NonSpace(s)
    decreases |s|
  {
    if s == [] then []
    else if IsSpace(s[0]) then Words(s[1..])
    else
      var w := TakeWord(s);
      var rest := Words(s[|w|..]);
      assert s == w + s[|w|..];
      NonSpaceAppend(w, s[|w|..]);
      NonSpaceOfWord(w);
      [w] + rest
  }

  /** `" ".join(s.split())`, which is also `re.sub(r"\s+", " ", s).strip()`. */
  function CollapseSpaces(s: string): string {
    Join(" ", Words(s))
  }

  /**
   * No whitespace at either end, and every whitespace character is a single
   * space between two non-space characters.
   */
  predicate SingleSpaced(r: string) {
    && (r != [] ==> !IsSpace(r[0]) && !IsSpace(r[|r| - 1]))
    && (forall i :: 0 <= i < |r| && IsSpace(r[i]) ==> r[i] == ' ' && 0 < i < |r| - 1 && !IsSpace(r[i + 1]))
  }

  /** Joining non-empty, whitespace-free words with one space. */
  lemma {:induction false} JoinWordsShape(ws: seq<string>)
    requires forall i :: 0 <= i < |ws| ==> ws[i] != [] && forall j :: 0 <= j < |ws[i]| ==> !IsSpace(ws[i][j])
    ensures |ws| > 0 ==> Join(" ", ws) != []
    ensures SingleSpaced(Join(" ", ws))
    ensures NonSpace(Join(" ", ws)) == Concat(ws)
    decreases |ws|
  {
    if |ws| == 0 {
    } else if |ws| == 1 {
      NonSpaceOfWord(ws[0]);
      assert Concat(ws[1..]) == [];
    } else {
      var tail := Join(" ", ws[1..]);
      JoinWordsShape(ws[1..]);
      assert Join(" ", ws) == ws[0] + " " + tail;
      assert Concat(ws) == ws[0] + Concat(ws[1..]);
      SpacedWordThenText(ws[0], tail);
    }
  }

  /** One step of `JoinWordsShape`: a word, a space, then single-spaced text. */
  lemma SpacedWordThenText(w: string, tail: string)
    requires w != [] && forall j :: 0 <= j < |w| ==> !IsSpace(w[j])
    requires tail != [] && SingleSpaced(tail)
    ensures SingleSpaced(w + " " + tail)
    ensures NonSpace(w + " " + tail) == w + NonSpace(tail)
  {
    SpacedWordThenTextShape(w, tail);
    NonSpaceAppend(w + " ", tail);
    NonSpaceAppend(w, " ");
    NonSpaceOfWord(w);
    assert NonSpace(" ") == [] by { assert " "[1..] == []; }
    assert NonSpace(w + " ") == w;
  }

  lemma SpacedWordThenTextShape(w: string, tail: string)
    requires w != [] && forall j :: 0 <= j < |w| ==> !IsSpace(w[j])
    requires tail != [] && SingleSpaced(tail)
    ensures SingleSpaced(w + " " + tail)
  {
    var r := w + " " + tail;
    assert r[0] == w[0];
    assert r[|r| - 1] == tail[|tail| - 1];
    forall i | 0 <= i < |r|
      ensures IsSpace(r[i]) ==> r[i] == ' ' && 0 < i < |r| - 1 && !IsSpace(r[i + 1])
    {
      if i < |w| {
        assert r[i] == w[i];
      } else if i > |w| {
        var i' := i - |w| - 1;
        assert r[i] == tail[i'];
        if IsSpace(r[i]) {
          assert r[i + 1] == tail[i' + 1];
        }
      } else {
        assert r[i + 1] == tail[0];
      }
    }
  }

  /**
   * The collapsed text has no whitespace at either end, every whitespace
   * character in it is a single space between two non-space characters, and
   * it keeps every non-whitespace character of the input, in order.
   */
  lemma CollapseSpacesShape(s: string)
    ensures SingleSpaced(CollapseSpaces(s))
    ensures NonSpace(CollapseSpaces(s)) == NonSpace(s)
  {
    JoinWordsShape(Words(s));
    assert CollapseSpaces(s) == Join(" ", Words(s));
  }

  /** The longest prefix of `s` whose characters are all in `cs` (a `for c in s: ... else: break` loop). */
  function TakeWhileIn(s: string, cs: set<char>): (r: string)
    ensures |r| <= |s| && r == s[..|r|]
    ensures forall i :: 0 <= i < |r| ==> r[i] in cs
    ensures |r| < |s| ==> s[|r|] !in cs
    decreases |s|
  {
    if s != [] && s[0] in cs then [s[0]] + TakeWhileIn(s[1..], cs) else []
  }

  // ---------------------------------------------------------------------------
  // Decimal numbers
  // ---------------------------------------------------------------------------

  function DigitValue(c: char): nat requires IsDigit(c) { c as int - '0' as int }

  function DigitChar(d: nat): (c: char)
    requires d < 10
    ensures IsDigit(c) && DigitValue(c) == d
  {
    ('0' as int + d) as char
  }

  /** `int(s)` for a string of ASCII digits. */
  function DigitsValue(s: string): nat
    requires forall i :: 0 <= i < |s| ==> IsDigit(s[i])
    decreases |s|
  {
    if s == [] then 0 else DigitsValue(s[..|s| - 1]) * 10 + DigitValue(s[|s| - 1])
  }

  /** `str(n)` for a natural number. */
  function NatToString(n: nat): (s: string)
    ensures AllDigits(s)
    ensures DigitsValue(s) == n
    decreases n
  {
    if n < 10 then [DigitChar(n)]
    else
      var p := NatToString(n / 10);
      var s := p + [DigitChar(n % 10)];
      assert s[..|s| - 1] == p;
      s
  }

  /** `str(i)` for an integer. */
  function IntToString(i: int): string {
    if i < 0 then "-" + NatToString(-i) else NatToString(i)
  }

  /** `f"{n:02d}"` for `n < 100`. */
  function Pad2(n: nat): (s: string)
    requires n < 100
    ensures |s| == 2 && AllDigits(s) && DigitsValue(s) == n
  {
    var s := [DigitChar(n / 10), DigitChar(n % 10)];
    assert s[..1] == [s[0]] && [s[0]][..0] == [];
    assert DigitsValue(s[..1]) == n / 10;
    s
  }

  /** Two digits are the zero-padded form of their own value. */
  lemma Pad2OfDigits(s: string)
    requires |s| == 2 && AllDigits(s)
    ensures DigitsValue(s) < 100 && Pad2(DigitsValue(s)) == s
  {
    assert s[..|s| - 1] == [s[0]] && [s[0]][..0] == [];
    assert DigitsValue([s[0]]) == DigitValue(s[0]);
    var v := DigitsValue(s);
    assert v == DigitValue(s[0]) * 10 + DigitValue(s[1]);
    assert v / 10 == DigitValue(s[0]) && v % 10 == DigitValue(s[1]);
  }

  // ---------------------------------------------------------------------------
  // Searching
  // ---------------------------------------------------------------------------

  /** The first index from `i` on that is marked, or `|ms|`. */
  function FirstMarked(ms: seq<bool>, i: nat): (k: nat)
    requires i <= |ms|
    ensures i <= k <= |ms|
    ensures forall m :: i <= m < k ==> !ms[m]
    ensures k < |ms| ==> ms[k]
    decreases |ms| - i
  {
    if i == |ms| || ms[i] then i else FirstMarked(ms, i + 1)
  }
}
