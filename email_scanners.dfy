/**
 * The hand-written character scanners of the e-mail importer: the CNJ
 * process number (`NNNNNNN-DD.AAAA.J.TR.OOOO`), the `DD/MM/YYYY` date, the
 * time tokens read as `HH:MM`, and the search for a hearing's or exam's
 * date and time near the keyword that announces it.
 */
module EmailScanners {
  import opened Wrappers
  import opened Strings

  /** `k` ASCII digits start at index `p` of `s`. */
  predicate DigitRun(s: string, p: int, k: nat) {
    0 <= p && p + k <= |s| && forall m :: p <= m < p + k ==> IsDigit(s[m])
  }

  /** `s[p:p+k].isdigit()` for a slice that fits: the same as a digit run. */
  lemma DigitRunSlice(s: string, p: nat, k: nat)
    requires k > 0 && p + k <= |s|
    ensures DigitRun(s, p, k) <==> AllDigits(s[p..p + k])
  {
    var t := s[p..p + k];
    forall m | 0 <= m < k ensures t[m] == s[p + m] {
    }
  }

  // ---------------------------------------------------------------------------
  // extrair_numero_processo_do_corpo
  // ---------------------------------------------------------------------------

  /** A CNJ number, seven digits, dash, then 2.4.1.2.4 digits, starts at index `i`. */
  predicate IsCnjAt(s: string, i: int) {
    && 0 <= i && i + 25 <= |s|
    && DigitRun(s, i, 7) && s[i + 7] == '-' && DigitRun(s, i + 8, 2) && s[i + 10] == '.'
    && DigitRun(s, i + 11, 4) && s[i + 15] == '.' && DigitRun(s, i + 16, 1) && s[i + 17] == '.'
    && DigitRun(s, i + 18, 2) && s[i + 20] == '.' && DigitRun(s, i + 21, 4)
  }

  /** The first index at or after `i` where a CNJ number starts, or -1. */
  function FirstCnjFrom(s: string, i: nat): (r: int)
    ensures r == -1 || (i <= r && IsCnjAt(s, r))
    ensures r == -1 ==> forall k :: i <= k ==> !IsCnjAt(s, k)
    ensures r != -1 ==> forall k :: i <= k < r ==> !IsCnjAt(s, k)
    decreases |s| - i
  {
    if i + 25 > |s| then -1
    else if IsCnjAt(s, i) then i
    else FirstCnjFrom(s, i + 1)
  }

  /**
   * The leftmost CNJ number in `s` (what `re.search` of the CNJ pattern
   * finds): always 25 characters, the empty string when there is none.
   */
  function FirstCnj(s: string): (r: string)
    ensures r == "" <==> forall k :: !IsCnjAt(s, k)
    ensures r != "" ==> |r| == 25 && exists k :: IsCnjAt(s, k) && r == s[k..k + 25] && forall k' :: 0 <= k' < k ==> !IsCnjAt(s, k')
  {
    var k := FirstCnjFrom(s, 0);
    if k == -1 then "" else s[k..k + 25]
  }

  /**
   * `take_digits(k)` inside `match_proc`: when `k` digits start at `j`,
   * they are returned and the cursor moves past them; otherwise nothing moves.
   */
  method TakeDigits(s: string, j: nat, k: nat) returns (ok: bool, val: string, j': nat)
    requires k > 0
    ensures ok <==> DigitRun(s, j, k)
    ensures ok ==> val == s[j..j + k] && j' == j + k
    ensures !ok ==> j' == j
  {
    if j + k > |s| {
      return false, "", j;
    }
    DigitRunSlice(s, j, k);
    if !AllDigits(s[j..j + k]) {
      return false, "", j;
    }
    return true, s[j..j + k], j + k;
  }

  /** `match_proc(i)`: the CNJ number starting at `i`, read piece by piece. */
  method MatchProc(s: string, i: nat) returns (r: Option<string>)
    ensures r.Some? <==> IsCnjAt(s, i)
    ensures r.Some? ==> r.value == s[i..i + 25]
  {
    var j := i;
    var ok, d, v;
    ok, v, j := TakeDigits(s, j, 7);
    if !ok { return None; }
    ok, d, j := TakeSepDigits(s, i, v, j, '-', 2);
    if !ok { return None; }
    v := v + "-" + d;
    ok, d, j := TakeSepDigits(s, i, v, j, '.', 4);
    if !ok { return None; }
    v := v + "." + d;
    ok, d, j := TakeSepDigits(s, i, v, j, '.', 1);
    if !ok { return None; }
    v := v + "." + d;
    ok, d, j := TakeSepDigits(s, i, v, j, '.', 2);
    if !ok { return None; }
    v := v + "." + d;
    ok, d, j := TakeSepDigits(s, i, v, j, '.', 4);
    if !ok { return None; }
    v := v + "." + d;
    return Some(v);
  }

  /**
   * One separator of `match_proc` and the digits after it. With `v` the text
   * read so far (`s[i..j]`), the extended text is again a slice of `s`.
   */
  method TakeSepDigits(s: string, i: nat, v: string, j: nat, sep: char, k: nat)
    returns (ok: bool, d: string, j': nat)
    requires k > 0 && i <= j <= |s| && v == s[i..j]
    ensures ok <==> j < |s| && s[j] == sep && DigitRun(s, j + 1, k)
    ensures ok ==> j' == j + 1 + k && v + [sep] + d == s[i..j']
  {
    if j >= |s| || s[j] != sep { return false, "", j; }
    ok, d, j' := TakeDigits(s, j + 1, k);
    if ok {
      assert s[i..j'] == s[i..j] + [s[j]] + s[j + 1..j'];
    }
  }

  /**
   * `extrair_numero_processo_do_corpo(texto)`: tries every start index from
   * the left and returns the first CNJ number found.
   */
  method ExtractProcessNumber(s: string) returns (r: string)
    ensures r == FirstCnj(s)
  {
    if s == [] {
      return "";
    }
    var n := |s|;
    var i := 0;
    while i < n - 24
      invariant 0 <= i && (n >= 25 ==> i <= n - 24)
      invariant forall k :: 0 <= k < i ==> !IsCnjAt(s, k)
    {
      if IsDigit(s[i]) {
        var got := MatchProc(s, i);
        if got.Some? {
          return got.value;
        }
      }
      i := i + 1;
    }
    return "";
  }

  // ---------------------------------------------------------------------------
  // _scan_date_simple
  // ---------------------------------------------------------------------------

  /** A `DD/MM/YYYY` shape (digits and slashes only, no calendar check) starts at index `i`. */
  predicate IsDateAt(s: string, i: int) {
    && 0 <= i && i + 10 <= |s|
    && DigitRun(s, i, 2) && s[i + 2] == '/' && DigitRun(s, i + 3, 2) && s[i + 5] == '/' && DigitRun(s, i + 6, 4)
  }

  function FirstDateFrom(s: string, i: nat): (r: int)
    ensures r == -1 || (i <= r && IsDateAt(s, r))
    ensures r == -1 ==> forall k :: i <= k ==> !IsDateAt(s, k)
    ensures r != -1 ==> forall k :: i <= k < r ==> !IsDateAt(s, k)
    decreases |s| - i
  {
    if i + 10 > |s| then -1
    else if IsDateAt(s, i) then i
    else FirstDateFrom(s, i + 1)
  }

  /** The leftmost `DD/MM/YYYY` shape in `s`, or the empty string. */
  function FirstDate(s: string): (r: string)
    ensures r == "" <==> forall k :: !IsDateAt(s, k)
    ensures r != "" ==> |r| == 10 && IsDateAt(r, 0) && exists k :: IsDateAt(s, k) && r == s[k..k + 10] && forall k' :: 0 <= k' < k ==> !IsDateAt(s, k')
  {
    var k := FirstDateFrom(s, 0);
    if k == -1 then ""
    else
      var r := s[k..k + 10];
      assert forall m :: 0 <= m < 10 ==> r[m] == s[k + m];
      r
  }

  /** `_scan_date_simple(window)`. */
  method ScanDate(w: string) returns (r: string)
    ensures r == FirstDate(w)
  {
    if w == [] {
      return "";
    }
    var n := |w|;
    var i := 0;
    while i + 9 < n
      invariant 0 <= i && (n >= 10 ==> i <= n - 9)
      invariant forall k :: 0 <= k < i ==> !IsDateAt(w, k)
    {
      DigitRunSlice(w, i, 2);
      DigitRunSlice(w, i + 3, 2);
      DigitRunSlice(w, i + 6, 4);
      if AllDigits(w[i..i + 2]) && i + 2 < n && w[i + 2] == '/' && AllDigits(w[i + 3..i + 5])
        && i + 5 < n && w[i + 5] == '/' && AllDigits(w[i + 6..i + 10])
      {
        assert IsDateAt(w, i);
        assert w[i..i + 10] == w[i..i + 2] + "/" + w[i + 3..i + 5] + "/" + w[i + 6..i + 10];
        return w[i..i + 2] + "/" + w[i + 3..i + 5] + "/" + w[i + 6..i + 10];
      }
      i := i + 1;
    }
    return "";
  }

  /** A digit run inside a slice is a digit run of the whole text. */
  lemma DigitRunOfSlice(s: string, a: nat, b: nat, p: nat, k: nat)
    requires a <= b <= |s| && DigitRun(s[a..b], p, k)
    ensures DigitRun(s, a + p, k)
  {
    var t := s[a..b];
    forall m | a + p <= m < a + p + k ensures IsDigit(s[m]) {
      assert s[m] == t[m - a];
    }
  }

  /** A date shape inside a slice of `s` is a date shape of `s`, so a slice of date-free text is date-free. */
  lemma FirstDateOfSlice(s: string, a: nat, b: nat)
    requires a <= b <= |s|
    requires FirstDate(s) == ""
    ensures FirstDate(s[a..b]) == ""
  {
    var t := s[a..b];
    forall k | IsDateAt(t, k) ensures IsDateAt(s, a + k) {
      DigitRunOfSlice(s, a, b, k, 2);
      DigitRunOfSlice(s, a, b, k + 3, 2);
      DigitRunOfSlice(s, a, b, k + 6, 4);
      assert s[a + k + 2] == t[k + 2] && s[a + k + 5] == t[k + 5];
    }
  }

  // ---------------------------------------------------------------------------
  // _std_time_token
  // ---------------------------------------------------------------------------

  /** `HH:MM` with an hour 0..23 and a minute 0..59. */
  predicate IsClock(r: string) {
    && |r| == 5 && r[2] == ':' && AllDigits(r[..2]) && AllDigits(r[3..])
    && DigitsValue(r[..2]) <= 23 && DigitsValue(r[3..]) <= 59
  }

  /** `f"{h:02d}:{m:02d}"`. */
  function Clock(h: nat, m: nat): (r: string)
    requires h <= 23 && m <= 59
    ensures IsClock(r) && DigitsValue(r[..2]) == h && DigitsValue(r[3..]) == m
  {
    var r := Pad2(h) + ":" + Pad2(m);
    assert r[..2] == Pad2(h) && r[3..] == Pad2(m);
    r
  }

  /** The clock text when hour and minute are in range. */
  function ClockIfValid(h: int, m: int): (r: Option<string>)
    ensures r.Some? <==> 0 <= h <= 23 && 0 <= m <= 59
  {
    if 0 <= h <= 23 && 0 <= m <= 59 then Some(Clock(h, m)) else None
  }

  /** The `"h" in tl` branch: `14h`, `14h30`, `14h30min` on the folded token. */
  function HourLetterForm(tl: string): Option<string> {
    if !Contains(tl, "h") then None
    else
      var p := Split(tl, "h");
      if !AllDigits(p[0]) then None
      else
        var m :=
          if |p| > 1 && p[1] != "" then
            var mp := Replace(Replace(p[1], "min", ""), "m", "");
            if AllDigits(mp) then DigitsValue(mp) else 0
          else 0;
        ClockIfValid(DigitsValue(p[0]), m)
  }

  /** The `":" in t` branch: `14:30`, also `14:30h`, on the unfolded token. */
  function ColonForm(t: string): Option<string> {
    if !Contains(t, ":") then None
    else
      var parts := Split(Replace(Replace(t, "h", ""), "H", ""), ":");
      if |parts| >= 2 && AllDigits(parts[0]) && AllDigits(parts[1]) then
        ClockIfValid(DigitsValue(parts[0]), DigitsValue(parts[1]))
      else None
  }

  /** The digits of `s`, in order. */
  function DigitsOf(s: string): (r: string)
    ensures forall i :: 0 <= i < |r| ==> IsDigit(r[i])
    decreases |s|
  {
    if s == [] then [] else (if IsDigit(s[0]) then [s[0]] else []) + DigitsOf(s[1..])
  }

  /** The `"hora" in tl` branch: `14horas`, on the folded token. */
  function HoursWordForm(tl: string): Option<string> {
    if !(Contains(tl, "horas") || Contains(tl, "hora")) then None
    else
      var nums := DigitsOf(tl);
      if AllDigits(nums) then ClockIfValid(DigitsValue(nums), 0) else None
  }

  /**
   * `_std_time_token(tok)`: the token without its whitespace, tried as
   * `14h30`, then as `14:30`, then as `14 horas`; the empty string when no
   * form gives a time in range.
   */
  function StdTimeToken(tok: string): (r: string)
    ensures r == "" || IsClock(r)
  {
    if tok == "" then ""
    else
      var t := Concat(Words(tok));
      var tl := Normalize(t);
      var a := HourLetterForm(tl);
      if a.Some? then a.value
      else
        var b := ColonForm(t);
        if b.Some? then b.value else HoursWordForm(tl).GetOr("")
  }

  /** Text made of digits and colons is the same after whitespace removal and folding. */
  lemma PlainTokenText(s: string)
    requires forall i :: 0 <= i < |s| ==> IsDigit(s[i]) || s[i] == ':' || s[i] == 'h'
    ensures Concat(Words(s)) == s && Normalize(s) == s
  {
    forall i | 0 <= i < |s| ensures !IsSpace(s[i]) && IsAsciiLower(s[i]) {
      if IsDigit(s[i]) {
        DigitNotSpace(s[i]);
      }
    }
    NonSpaceOfWord(s);
    NormalizeOfAsciiLower(s);
  }

  /** How `HH:MM` is split by the colon branch. */
  lemma ColonFormOfPair(h: string, m: string)
    requires |h| == 2 && |m| == 2 && AllDigits(h) && AllDigits(m)
    ensures ColonForm(h + ":" + m) == ClockIfValid(DigitsValue(h), DigitsValue(m))
  {
    var s := h + ":" + m;
    assert IsAt(s, 2, ":");
    NotContainsChar(s, 'h', "h");
    NotContainsChar(s, 'H', "H");
    assert s == h + [':'] + m;
    SplitAfterFree(h, ':', m);
    SplitFree(m, ':');
  }

  /** A time already in `HH:MM` form is its own normal form, so normalising twice changes nothing. */
  lemma StdTimeTokenOfClock(h: nat, m: nat)
    requires h <= 23 && m <= 59
    ensures StdTimeToken(Clock(h, m)) == Clock(h, m)
  {
    var c := Clock(h, m);
    PlainTokenText(c);
    NotContainsChar(c, 'h', "h");
    ColonFormOfPair(Pad2(h), Pad2(m));
  }

  lemma StdTimeTokenIdempotent(tok: string)
    ensures StdTimeToken(StdTimeToken(tok)) == StdTimeToken(tok)
  {
    var r := StdTimeToken(tok);
    if r != "" {
      Pad2OfDigits(r[..2]);
      Pad2OfDigits(r[3..]);
      assert r == Clock(DigitsValue(r[..2]), DigitsValue(r[3..]));
      StdTimeTokenOfClock(DigitsValue(r[..2]), DigitsValue(r[3..]));
    }
  }

  /** `HH:MM` with an hour past 23 or a minute past 59 is rejected. */
  lemma StdTimeTokenRejectsOutOfRange(h: nat, m: nat)
    requires h < 100 && m < 100 && (h > 23 || m > 59)
    ensures StdTimeToken(Pad2(h) + ":" + Pad2(m)) == ""
  {
    var s := Pad2(h) + ":" + Pad2(m);
    PlainTokenText(s);
    NotContainsChar(s, 'h', "h");
    NotContainsChar(s, 'h', "hora");
    NotContainsChar(s, 'h', "horas");
    ColonFormOfPair(Pad2(h), Pad2(m));
  }

  /** `9h`, `14h`: a whole hour. */
  lemma StdTimeTokenHourOnly(h: nat)
    requires h <= 23
    ensures StdTimeToken(NatToString(h) + "h") == Clock(h, 0)
  {
    var s := NatToString(h) + "h";
    PlainTokenText(s);
    HourLetterOfHourOnly(h);
  }

  lemma HourLetterOfHourOnly(h: nat)
    requires h <= 23
    ensures HourLetterForm(NatToString(h) + "h") == Some(Clock(h, 0))
  {
    var d := NatToString(h);
    var s := d + "h";
    assert s == d + ['h'] + [];
    SplitAfterFree(d, 'h', []);
    SplitFree([], 'h');
    assert IsAt(s, |d|, "h");
    assert Split(s, "h") == [d, ""];
  }

  /** `9h05`, `14h30`: the hour-letter form with minutes. */
  lemma StdTimeTokenHourMinute(h: nat, m: nat)
    requires h <= 23 && m <= 59
    ensures StdTimeToken(NatToString(h) + "h" + Pad2(m)) == Clock(h, m)
  {
    var d := NatToString(h);
    var mm := Pad2(m);
    var s := d + "h" + mm;
    PlainTokenText(s);
    assert s == d + ['h'] + mm;
    SplitAfterFree(d, 'h', mm);
    SplitFree(mm, 'h');
    assert IsAt(s, |d|, "h");
    NotContainsChar(mm, 'm', "min");
    NotContainsChar(mm, 'm', "m");
    assert Split(s, "h") == [d, mm];
    assert HourLetterForm(s) == Some(Clock(h, m));
  }

  // ---------------------------------------------------------------------------
  // _scan_time_simple
  // ---------------------------------------------------------------------------

  /** The characters a time token is made of. */
  predicate IsTokenChar(c: char) { IsAlnum(c) || c == ':' || c == 'h' || c == 'H' }

  /**
   * The tokenizer after reading `w`: the finished tokens and the token being
   * read.  A character outside the token set closes the current token.
   */
  function TokenizeState(w: string): (seq<string>, string)
    decreases |w|
  {
    if w == [] then ([], [])
    else
      var st := TokenizeState(w[..|w| - 1]);
      var c := w[|w| - 1];
      if IsTokenChar(c) then (st.0, st.1 + [c])
      else if st.1 != [] then (st.0 + [st.1], [])
      else (st.0, [])
  }

  /** The tokens of `w`: the maximal runs of token characters, in order. */
  function Tokens(w: string): seq<string> {
    var st := TokenizeState(w);
    if st.1 != [] then st.0 + [st.1] else st.0
  }

  /** The characters of `w` that belong to tokens, in order. */
  function TokenChars(w: string): string
    decreases |w|
  {
    if w == [] then [] else TokenChars(w[..|w| - 1]) + (if IsTokenChar(w[|w| - 1]) then [w[|w| - 1]] else [])
  }

  predicate IsTokenText(t: string) {
    t != [] && forall j :: 0 <= j < |t| ==> IsTokenChar(t[j])
  }

  lemma {:induction false} ConcatSnoc(ts: seq<string>, t: string)
    ensures Concat(ts + [t]) == Concat(ts) + t
    decreases |ts|
  {
    if ts == [] {
      assert [t][1..] == [];
    } else {
      assert (ts + [t])[1..] == ts[1..] + [t];
      ConcatSnoc(ts[1..], t);
    }
  }

  lemma {:induction false} TokenizeStateShape(w: string)
    ensures forall i :: 0 <= i < |TokenizeState(w).0| ==> IsTokenText(TokenizeState(w).0[i])
    ensures forall j :: 0 <= j < |TokenizeState(w).1| ==> IsTokenChar(TokenizeState(w).1[j])
    ensures Concat(TokenizeState(w).0) + TokenizeState(w).1 == TokenChars(w)
    decreases |w|
  {
    if w != [] {
      var p := w[..|w| - 1];
      TokenizeStateShape(p);
      var st := TokenizeState(p);
      var c := w[|w| - 1];
      if !IsTokenChar(c) && st.1 != [] {
        ConcatSnoc(st.0, st.1);
      }
    }
  }

  /**
   * Every token is a non-empty run of token characters, and the tokens
   * together hold exactly the token characters of `w`, in order.
   */
  lemma TokensShape(w: string)
    ensures forall i :: 0 <= i < |Tokens(w)| ==> IsTokenText(Tokens(w)[i])
    ensures Concat(Tokens(w)) == TokenChars(w)
  {
    TokenizeStateShape(w);
    var st := TokenizeState(w);
    if st.1 != [] {
      ConcatSnoc(st.0, st.1);
    } else {
      assert Concat(st.0) + [] == Concat(st.0);
    }
  }

  /**
   * Tokens are maximal: a run of token characters is one token, and no
   * token crosses a character outside the token set.  With `Tokens("") ==
   * []` these two facts fix the tokens of every text.
   */
  lemma TokensMaximal(a: string, c: char, b: string, t: string)
    requires !IsTokenChar(c) && IsTokenText(t)
    ensures Tokens([]) == []
    ensures Tokens(t) == [t]
    ensures Tokens(a + [c] + b) == Tokens(a) + Tokens(b)
  {
    TokenizeRun(t);
    TokenizeAfter(a, c, b);
  }

  lemma {:induction false} TokenizeRun(t: string)
    requires forall j :: 0 <= j < |t| ==> IsTokenChar(t[j])
    ensures TokenizeState(t) == ([], t)
    decreases |t|
  {
    if t != [] {
      TokenizeRun(t[..|t| - 1]);
      assert t[..|t| - 1] + [t[|t| - 1]] == t;
    }
  }

  lemma {:induction false} TokenizeAfter(a: string, c: char, b: string)
    requires !IsTokenChar(c)
    ensures TokenizeState(a + [c] + b) == (Tokens(a) + TokenizeState(b).0, TokenizeState(b).1)
    decreases |b|
  {
    var x := a + [c] + b;
    if b == [] {
      assert x[..|x| - 1] == a && x[|x| - 1] == c;
      assert TokenizeState(b) == ([], []);
      assert Tokens(a) + [] == Tokens(a);
    } else {
      var b', d := b[..|b| - 1], b[|b| - 1];
      TokenizeAfter(a, c, b');
      assert x[..|x| - 1] == a + [c] + b' && x[|x| - 1] == d;
      var st := TokenizeState(b');
      if !IsTokenChar(d) && st.1 != [] {
        assert Tokens(a) + st.0 + [st.1] == Tokens(a) + (st.0 + [st.1]);
      }
    }
  }

  /** What each token reads as, in order (`""` for a token that is no time). */
  function Readings(ts: seq<string>): (rs: seq<string>)
    ensures |rs| == |ts| && forall j :: 0 <= j < |ts| ==> rs[j] == StdTimeToken(ts[j])
  {
    seq(|ts|, j requires 0 <= j < |ts| => StdTimeToken(ts[j]))
  }

  /** The index of the first non-empty reading from `i` on, or the number of readings. */
  function FirstNonEmpty(rs: seq<string>, i: nat): (k: nat)
    requires i <= |rs|
    ensures i <= k <= |rs|
    ensures forall j :: i <= j < k ==> rs[j] == ""
    ensures k < |rs| ==> rs[k] != ""
    decreases |rs| - i
  {
    if i == |rs| || rs[i] != "" then i else FirstNonEmpty(rs, i + 1)
  }

  /** The first token that reads as a time, normalised; empty when none does. */
  function FirstClock(ts: seq<string>): (r: string)
    ensures r == "" || IsClock(r)
    ensures r == "" <==> forall i :: 0 <= i < |ts| ==> StdTimeToken(ts[i]) == ""
    ensures r != "" ==> exists i :: 0 <= i < |ts| && r == StdTimeToken(ts[i]) && forall j :: 0 <= j < i ==> StdTimeToken(ts[j]) == ""
  {
    var rs := Readings(ts);
    var k := FirstNonEmpty(rs, 0);
    if k == |rs| then "" else rs[k]
  }

  /** `_scan_time_simple(window)`: tokenize, then the first token that reads as a time. */
  method ScanTime(w: string) returns (r: string)
    ensures r == FirstClock(Tokens(w))
  {
    if w == [] {
      return "";
    }
    var tokens: seq<string> := [];
    var cur: string := [];
    for i := 0 to |w|
      invariant (tokens, cur) == TokenizeState(w[..i])
    {
      assert w[..i + 1][..i] == w[..i];
      var ch := w[i];
      if IsTokenChar(ch) {
        cur := cur + [ch];
      } else if cur != [] {
        tokens := tokens + [cur];
        cur := [];
      }
    }
    assert w[..|w|] == w;
    if cur != [] {
      tokens := tokens + [cur];
    }
    for k := 0 to |tokens|
      invariant FirstNonEmpty(Readings(tokens), k) == FirstNonEmpty(Readings(tokens), 0)
    {
      var tm := StdTimeToken(tokens[k]);
      if tm != "" {
        return tm;
      }
    }
    return "";
  }
}
