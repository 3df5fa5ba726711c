/**
 * `extrair_data_hora_evento`: locate the hearing or expert-examination
 * keyword in a publication, cut a window of at most 600 characters from
 * there, and read the first `DD/MM/YYYY` date in it and the first time
 * after that date.
 */
module EmailEvents {
  import opened Wrappers
  import opened Strings
  import opened EmailScanners
  import opened EmailText

  const HearingStem := "audien"
  const ExamStem := "peric"
  const WindowSize := 600
  const TimeReach := 120
  const DateReach := 160

  /** The stem searched first: the hearing one when the record type starts with "aud". */
  function PreferredStem(tipo: string): (r: string)
    ensures r == HearingStem || r == ExamStem
    ensures r == HearingStem <==> StartsWith(Lower(tipo), "aud")
  {
    if StartsWith(Lower(tipo), "aud") then HearingStem else ExamStem
  }

  /**
   * The position in the folded text `tn` the window starts from: the first
   * occurrence of the preferred stem, else the first occurrence of the other
   * one, else -1.
   */
  function KeywordPosition(tn: string, tipo: string): (r: int)
    ensures r == -1 <==> !Contains(tn, HearingStem) && !Contains(tn, ExamStem)
    ensures Contains(tn, PreferredStem(tipo)) ==>
      IsAt(tn, r, PreferredStem(tipo)) && forall k :: 0 <= k < r ==> !IsAt(tn, k, PreferredStem(tipo))
    ensures !Contains(tn, PreferredStem(tipo)) && r != -1 ==>
      var other := if PreferredStem(tipo) == HearingStem then ExamStem else HearingStem;
      IsAt(tn, r, other) && forall k :: 0 <= k < r ==> !IsAt(tn, k, other)
  {
    var pos := Find(tn, PreferredStem(tipo));
    if pos != -1 then pos
    else
      var a := Find(tn, HearingStem);
      var p := Find(tn, ExamStem);
      if a == -1 && p == -1 then -1
      else if a == -1 then p
      else if p == -1 then a
      else if a <= p then a else p
  }

  /** The stem found at `KeywordPosition`. */
  function FoundStem(tn: string, tipo: string): string {
    if Contains(tn, PreferredStem(tipo)) then PreferredStem(tipo)
    else if PreferredStem(tipo) == HearingStem then ExamStem
    else HearingStem
  }

  lemma KeywordAtPosition(tn: string, tipo: string)
    requires KeywordPosition(tn, tipo) != -1
    ensures IsAt(tn, KeywordPosition(tn, tipo), FoundStem(tn, tipo))
    ensures forall k :: 0 <= k < KeywordPosition(tn, tipo) ==> !IsAt(tn, k, FoundStem(tn, tipo))
  {
  }

  /** Python's index clamping for a slice bound of a sequence of length `n`. */
  function SliceBound(i: int, n: nat): (r: nat)
    ensures r <= n
    ensures 0 <= i <= n ==> r == i
    ensures i < 0 && 0 <= i + n ==> r == i + n
    ensures i + n < 0 ==> r == 0
    ensures i > n ==> r == n
  {
    if i < 0 then (if i + n < 0 then 0 else i + n) else if i > n then n else i
  }

  /** `s[i:j]`: negative bounds count from the end, both clamp to the length, an empty range is "". */
  function PySlice(s: string, i: int, j: int): (r: string)
    ensures exists a, b :: 0 <= a <= b <= |s| && r == s[a..b]
    ensures 0 <= i <= j <= |s| ==> r == s[i..j]
  {
    var a := SliceBound(i, |s|);
    var b := SliceBound(j, |s|);
    if a < b then s[a..b] else assert s[a..a] == ""; ""
  }

  /**
   * Negative bounds count from the end of the text, a stop past the end
   * stops at the end, and a range that is empty once the bounds are
   * resolved gives "".
   */
  lemma PySliceBounds(s: string, i: int, j: int)
    ensures i < 0 && 0 <= i + |s| <= j <= |s| ==> PySlice(s, i, j) == s[i + |s|..j]
    ensures j < 0 && 0 <= i <= j + |s| ==> PySlice(s, i, j) == s[i..j + |s|]
    ensures i <= j < 0 && 0 <= i + |s| ==> PySlice(s, i, j) == s[i + |s|..j + |s|]
    ensures 0 <= i <= |s| < j ==> PySlice(s, i, j) == s[i..]
    ensures SliceBound(j, |s|) <= SliceBound(i, |s|) ==> PySlice(s, i, j) == ""
  {
  }

  // ---------------------------------------------------------------------------
  // The window as written: the position in the folded text indexes the raw text
  // ---------------------------------------------------------------------------

  /** The window the code cuts: it starts at the keyword's index in the folded text. */
  function EventWindowAsWritten(texto: string, tipo: string): (r: Option<string>)
    ensures r.None? <==> texto == "" || KeywordPosition(Normalize(RemoveCR(texto)), tipo) == -1
    ensures r.Some? ==> |r.value| <= WindowSize
  {
    if texto == "" then None
    else
      var t := RemoveCR(texto);
      var pos := KeywordPosition(Normalize(t), tipo);
      if pos == -1 then None
      else Some(PySlice(t, pos, if |t| <= pos + WindowSize then |t| else pos + WindowSize))
  }

  // ---------------------------------------------------------------------------
  // The corrected window: the folded position mapped back to the raw text
  // ---------------------------------------------------------------------------

  lemma NormalizeSnoc(t: string, p: nat)
    requires p < |t|
    ensures Normalize(t[..p + 1]) == Normalize(t[..p]) + Lower(FoldChar(t[p]))
  {
    assert t[..p + 1] == t[..p] + [t[p]];
    NormalizeAppend(t[..p], [t[p]]);
    assert [t[p]][1..] == [];
  }

  /** The index of the raw character whose folded text holds folded position `pos`, searching from `p`. */
  function SourceIndexFrom(t: string, pos: nat, p: nat): (r: nat)
    requires p <= |t| && |Normalize(t[..p])| <= pos < |Normalize(t)|
    ensures p <= r < |t|
    ensures |Normalize(t[..r])| <= pos < |Normalize(t[..r + 1])|
    decreases |t| - p
  {
    NotPastEnd(t, pos, p);
    if pos < |Normalize(t[..p + 1])| then p else SourceIndexFrom(t, pos, p + 1)
  }

  /** A folded position inside the folded text has a raw character to come from. */
  lemma NotPastEnd(t: string, pos: nat, p: nat)
    requires p <= |t| && |Normalize(t[..p])| <= pos < |Normalize(t)|
    ensures p < |t|
  {
    assert t[..|t|] == t;
  }

  /** The index of the raw character whose folded text holds folded position `pos`. */
  function SourceIndex(t: string, pos: nat): (r: nat)
    requires pos < |Normalize(t)|
    ensures r < |t|
    ensures |Normalize(t[..r])| <= pos < |Normalize(t[..r + 1])|
  {
    assert t[..0] == [];
    SourceIndexFrom(t, pos, 0)
  }

  /** Only the vulgar fractions fold to more than one character, and those fold to digits. */
  lemma LongFoldIsDigits(c: char)
    requires |Lower(FoldChar(c))| > 1
    ensures forall i :: 0 <= i < |Lower(FoldChar(c))| ==> IsDigit(Lower(FoldChar(c))[i])
  {
  }

  /**
   * When the folded text has a letter at `pos`, the raw character at
   * `SourceIndex` folds to exactly that letter, so the raw text from there
   * folds to the folded text from `pos`.
   */
  lemma SourceIndexAtLetter(t: string, pos: nat)
    requires pos < |Normalize(t)| && !IsDigit(Normalize(t)[pos])
    ensures Normalize(t[..SourceIndex(t, pos)]) == Normalize(t)[..pos]
    ensures Normalize(t[SourceIndex(t, pos)..]) == Normalize(t)[pos..]
  {
    var p := SourceIndex(t, pos);
    var f := Lower(FoldChar(t[p]));
    var np := Normalize(t[..p]);
    var nq := Normalize(t[p..]);
    NormalizeAround(t, p);
    assert Normalize(t) == np + nq;
    assert |np| <= pos < |np| + |f|;
    assert nq[..|f|] == f;
    if |f| > 1 {
      LongFoldIsDigits(t[p]);
      assert false;
    }
  }

  /** The folded text around raw index `p`: before it, and from it on (its own fold first). */
  lemma NormalizeAround(t: string, p: nat)
    requires p < |t|
    ensures Normalize(t) == Normalize(t[..p]) + Normalize(t[p..])
    ensures Normalize(t[p..]) == Lower(FoldChar(t[p])) + Normalize(t[p + 1..])
    ensures Normalize(t[..p + 1]) == Normalize(t[..p]) + Lower(FoldChar(t[p]))
  {
    assert t == t[..p] + t[p..];
    NormalizeAppend(t[..p], t[p..]);
    NormalizeSnoc(t, p);
  }

  /**
   * The raw index the window starts from, or -1 when neither stem occurs:
   * the raw text folds, from there on, to text that starts with the stem
   * found, and the raw text before it folds to text without that stem.
   */
  function KeywordStart(t: string, tipo: string): (p: int)
    ensures p == -1 <==> KeywordPosition(Normalize(t), tipo) == -1
    ensures p != -1 ==>
      && 0 <= p < |t|
      && p == SourceIndex(t, KeywordPosition(Normalize(t), tipo))
      && StartsWith(Normalize(t[p..]), FoundStem(Normalize(t), tipo))
      && !Contains(Normalize(t[..p]), FoundStem(Normalize(t), tipo))
  {
    var tn := Normalize(t);
    var pos := KeywordPosition(tn, tipo);
    if pos == -1 then -1
    else
      KeywordAtPosition(tn, tipo);
      var stem := FoundStem(tn, tipo);
      assert stem[0] == 'a' || stem[0] == 'p';
      StemSource(t, stem, pos);
      SourceIndex(t, pos)
  }

  /**
   * The raw index of the character whose fold holds the first letter of the
   * first occurrence of `stem`: from it the raw text folds to text starting
   * with the stem, and before it the folded text has no occurrence.
   */
  lemma StemSource(t: string, stem: string, pos: nat)
    requires pos < |Normalize(t)| && IsAt(Normalize(t), pos, stem) && |stem| > 0 && !IsDigit(stem[0])
    requires forall k :: 0 <= k < pos ==> !IsAt(Normalize(t), k, stem)
    ensures StartsWith(Normalize(t[SourceIndex(t, pos)..]), stem)
    ensures !Contains(Normalize(t[..SourceIndex(t, pos)]), stem)
  {
    var tn := Normalize(t);
    assert tn[pos..pos + |stem|] == stem;
    assert tn[pos] == stem[0];
    SourceIndexAtLetter(t, pos);
    var p := SourceIndex(t, pos);
    assert Normalize(t[p..])[..|stem|] == tn[pos..][..|stem|];
    NotInPrefixBeforeFirst(tn, stem, pos);
  }

  /** The window starting at the raw character the keyword comes from. */
  function EventWindow(texto: string, tipo: string): (r: Option<string>)
    ensures r.None? <==> texto == "" || KeywordPosition(Normalize(RemoveCR(texto)), tipo) == -1
    ensures r.Some? ==> var t := RemoveCR(texto); var p := KeywordStart(t, tipo);
      && |r.value| <= WindowSize
      && r.value == t[p..if |t| <= p + WindowSize then |t| else p + WindowSize]
  {
    if texto == "" then None
    else
      var t := RemoveCR(texto);
      var p := KeywordStart(t, tipo);
      if p == -1 then None
      else Some(PySlice(t, p, if |t| <= p + WindowSize then |t| else p + WindowSize))
  }

  // ---------------------------------------------------------------------------
  // Reading the date and the time from the window
  // ---------------------------------------------------------------------------

  /** The date's text starts exactly where the scanner found it, so `window.find(data)` is that index. */
  lemma FindFirstDate(w: string)
    requires FirstDate(w) != ""
    ensures Find(w, FirstDate(w)) == FirstDateFrom(w, 0)
  {
    var d := FirstDate(w);
    var k := FirstDateFrom(w, 0);
    assert d == w[k..k + 10];
    assert IsAt(w, k, d);
    var r := Find(w, d);
    if r < k {
      DateCopyIsDate(w, r, d);
      assert false;
    }
  }

  /** A copy of a date's text is a date. */
  lemma DateCopyIsDate(w: string, r: int, d: string)
    requires IsAt(w, r, d) && |d| == 10 && IsDateAt(d, 0)
    ensures IsDateAt(w, r)
  {
    forall m | 0 <= m < 10 ensures w[r + m] == d[m] {
      assert w[r..r + 10][m] == w[r + m];
    }
  }

  /** The part of the window the time is read from: 120 characters from the first date on. */
  lemma TimeSliceAfterDate(w: string)
    requires FirstDate(w) != ""
    ensures var k := FirstDateFrom(w, 0);
      PySlice(w, Find(w, FirstDate(w)), Find(w, FirstDate(w)) + TimeReach)
        == w[k..if |w| <= k + TimeReach then |w| else k + TimeReach]
  {
    FindFirstDate(w);
  }

  /** Any slice of a window without a date is without a date. */
  lemma NoDateInSlice(w: string, i: int, j: int)
    requires FirstDate(w) == ""
    ensures FirstDate(PySlice(w, i, j)) == ""
  {
    var a, b :| 0 <= a <= b <= |w| && PySlice(w, i, j) == w[a..b];
    FirstDateOfSlice(w, a, b);
  }

  /**
   * The date and time the search reports, read off the corrected window as
   * `EventDateTime` does: nothing without a keyword, else the window's
   * first date, and a time only alongside a date.
   */
  function EventFields(texto: string, tipo: string): (r: (string, string))
    ensures EventWindow(texto, tipo).None? ==> r == ("", "")
    ensures EventWindow(texto, tipo).Some? ==> r.0 == FirstDate(EventWindow(texto, tipo).value)
    ensures r.0 == "" ==> r.1 == ""
  {
    var win := EventWindow(texto, tipo);
    if win.None? then ("", "")
    else
      WindowFieldsSpec(win.value);
      WindowFields(win.value)
  }

  /** The date and time the code as written reports: the same reading, off the as-written window. */
  function EventFieldsAsWritten(texto: string, tipo: string): (r: (string, string))
    ensures EventWindowAsWritten(texto, tipo).None? ==> r == ("", "")
    ensures EventWindowAsWritten(texto, tipo).Some? ==> r.0 == FirstDate(EventWindowAsWritten(texto, tipo).value)
    ensures r.0 == "" ==> r.1 == ""
  {
    var win := EventWindowAsWritten(texto, tipo);
    if win.None? then ("", "")
    else
      WindowFieldsSpec(win.value);
      WindowFields(win.value)
  }

  /** The date and time read off one window. */
  function WindowFields(w: string): (string, string) {
    var k := FirstDateFrom(w, 0);
    if k == -1 then ("", "")
    else (w[k..k + 10], FirstClock(Tokens(w[k..if |w| <= k + TimeReach then |w| else k + TimeReach])))
  }

  /**
   * No keyword, no result; otherwise the date is the window's first
   * `DD/MM/YYYY` shape, a time comes only with a date, and that time is
   * the first one in the 120 characters from the date on.
   */
  lemma EventFieldsSpec(texto: string, tipo: string)
    ensures EventWindow(texto, tipo).None? ==> EventFields(texto, tipo) == ("", "")
    ensures EventWindow(texto, tipo).Some? ==>
      var w := EventWindow(texto, tipo).value;
      var k := FirstDateFrom(w, 0);
      var (data, hora) := EventFields(texto, tipo);
      && data == FirstDate(w)
      && (data == "" ==> hora == "")
      && (data != "" ==> hora == FirstClock(Tokens(w[k..if |w| <= k + TimeReach then |w| else k + TimeReach])))
  {
    var win := EventWindow(texto, tipo);
    if win.Some? {
      FieldsOfWindow(texto, tipo, win.value);
    }
  }

  lemma FieldsOfWindow(texto: string, tipo: string, w: string)
    requires EventWindow(texto, tipo) == Some(w)
    ensures EventFields(texto, tipo) == WindowFields(w)
    ensures var k := FirstDateFrom(w, 0);
      && WindowFields(w).0 == FirstDate(w)
      && (WindowFields(w).0 == "" ==> WindowFields(w).1 == "")
      && (WindowFields(w).0 != "" ==> WindowFields(w).1 == FirstClock(Tokens(w[k..if |w| <= k + TimeReach then |w| else k + TimeReach])))
  {
    WindowFieldsSpec(w);
  }

  lemma WindowFieldsSpec(w: string)
    ensures var k := FirstDateFrom(w, 0);
      && WindowFields(w).0 == FirstDate(w)
      && (WindowFields(w).0 == "" ==> WindowFields(w).1 == "")
      && (WindowFields(w).0 != "" ==> WindowFields(w).1 == FirstClock(Tokens(w[k..if |w| <= k + TimeReach then |w| else k + TimeReach])))
  {
  }

  /**
   * `extrair_data_hora_evento(texto, tipo)`: no window gives two empty
   * strings; otherwise the date is the window's first date, and the time is
   * the first time in the 120 characters from that date.  A window without a
   * date yields no time either: the fallback that looks for a time first
   * searches for the date in a part of the same window.
   */
  method EventDateTime(texto: string, tipo: string) returns (data: string, hora: string)
    ensures (data, hora) == EventFields(texto, tipo)
  {
    if texto == "" {
      return "", "";
    }
    var win := EventWindow(texto, tipo);
    if win.None? {
      return "", "";
    }
    data, hora := ReadWindow(win.value);
  }

  /** The date, then the time after it, or the fallback search when the window has no date. */
  method ReadWindow(w: string) returns (data: string, hora: string)
    ensures (data, hora) == WindowFields(w)
  {
    data := ScanDate(w);
    if data != "" {
      hora := TimeAfterDate(w, data);
      return data, hora;
    }
    hora := ScanTime(w);
    if hora != "" {
      var d := DateNearTime(w, hora);
      if d != "" {
        assert false;
        return d, hora;
      }
    }
    return "", "";
  }

  /** `texto[idx:idx+120]` after the date, then the first time token in it. */
  method TimeAfterDate(w: string, data: string) returns (hora: string)
    requires data == FirstDate(w) && data != ""
    ensures hora == WindowFields(w).1
  {
    var idx := Find(w, data);
    var sub := PySlice(w, idx, idx + TimeReach);
    TimeOfWindowSlice(w, data, sub);
    hora := ScanTime(sub);
  }

  /** The time of `WindowFields` is the first time token of the slice the code cuts after the date. */
  lemma TimeOfWindowSlice(w: string, data: string, sub: string)
    requires data == FirstDate(w) && data != ""
    requires sub == PySlice(w, Find(w, data), Find(w, data) + TimeReach)
    ensures WindowFields(w).1 == FirstClock(Tokens(sub))
  {
    TimeSliceAfterDate(w);
    WindowFieldsSpec(w);
  }

  /** The time-first fallback: on a window without a date it never finds one. */
  method DateNearTime(w: string, hora: string) returns (d: string)
    requires FirstDate(w) == ""
    ensures d == ""
  {
    var idx := Find(w, hora);
    var sub := PySlice(w, idx, idx + DateReach);
    NoDateInSlice(w, idx, idx + DateReach);
    d := ScanDate(sub);
  }

  // ---------------------------------------------------------------------------
  // The index skew, on a concrete text
  // ---------------------------------------------------------------------------

  lemma {:induction false} NormalizeSigns(s: string)
    requires forall i :: 0 <= i < |s| ==> s[i] == '\U{00A7}'
    ensures Normalize(s) == ""
    decreases |s|
  {
    if s != [] {
      NormalizeSigns(s[1..]);
    }
  }

  /** Ten section signs, which fold to nothing, then a date, then the keyword. */
  const SkewSigns := seq(10, _ => '\U{00A7}')
  const SkewRest := "01/01/2024audiencia"
  const SkewText := SkewSigns + SkewRest

  lemma SkewRestAscii()
    ensures forall i :: 0 <= i < |SkewRest| ==> IsAsciiLower(SkewRest[i])
  {
    forall i | 0 <= i < |SkewRest| ensures IsAsciiLower(SkewRest[i]) { }
  }

  /**
   * On `SkewText` the keyword is at index 10 of the folded text but at index
   * 20 of the raw text: the window as written starts at the date that comes
   * before the keyword and reports it, while the corrected window starts at
   * the keyword and holds no date.
   */
  lemma WindowSkew()
    ensures EventWindowAsWritten(SkewText, "audiencia") == Some(SkewRest)
    ensures FirstDate(SkewRest) == "01/01/2024"
    ensures EventWindow(SkewText, "audiencia") == Some("audiencia")
    ensures FirstDate("audiencia") == ""
  {
    SkewAsWritten();
    SkewDate();
    SkewCorrected();
    NoDateInKeyword();
  }

  /**
   * On `SkewText` the code as written reports the date "01/01/2024", which
   * lies before the keyword, while the corrected search reports nothing.
   */
  lemma FieldsSkew()
    ensures EventFieldsAsWritten(SkewText, "audiencia").0 == "01/01/2024"
    ensures EventFields(SkewText, "audiencia") == ("", "")
  {
    WindowSkew();
  }

  lemma SkewAsWritten()
    ensures EventWindowAsWritten(SkewText, "audiencia") == Some(SkewRest)
  {
    SkewNoCR();
    SkewFolded();
    SkewKeywordPosition();
    var t := SkewText;
    assert t[10..] == SkewRest;
    assert PySlice(t, 10, |t|) == SkewRest;
  }

  lemma SkewCorrected()
    ensures EventWindow(SkewText, "audiencia") == Some("audiencia")
  {
    SkewNoCR();
    SkewStart();
    SkewTail();
    WindowToEnd(SkewText, "audiencia", 20);
  }

  /** A window that reaches the end of a text without carriage returns is the text's tail. */
  lemma WindowToEnd(texto: string, tipo: string, p: nat)
    requires texto != "" && RemoveCR(texto) == texto && KeywordStart(texto, tipo) == p
    requires |texto| <= p + WindowSize
    ensures EventWindow(texto, tipo) == Some(texto[p..])
  {
    assert PySlice(texto, p, |texto|) == texto[p..];
  }

  lemma SkewTail()
    ensures SkewText[20..] == "audiencia"
  {
    assert SkewText[20..] == SkewRest[10..];
  }

  lemma SkewNoCR()
    ensures RemoveCR(SkewText) == SkewText
  {
    var t := SkewText;
    forall i | 0 <= i < |t| ensures t[i] != '\r' {
      if i < 10 {
        assert t[i] == SkewSigns[i];
      } else {
        assert t[i] == SkewRest[i - 10];
      }
    }
    NotContainsChar(t, '\r', "\r");
  }

  /** `SkewText` folds to `SkewRest`. */
  lemma SkewFolded()
    ensures Normalize(SkewText) == SkewRest
  {
    SkewRestAscii();
    NormalizeSigns(SkewSigns);
    NormalizeAppend(SkewSigns, SkewRest);
    NormalizeOfAsciiLower(SkewRest);
  }

  lemma SkewKeywordPosition()
    ensures KeywordPosition(SkewRest, "audiencia") == 10
  {
    var tn := SkewRest;
    assert PreferredStem("audiencia") == HearingStem;
    assert IsAt(tn, 10, HearingStem);
    forall k | 0 <= k < 10 ensures !IsAt(tn, k, HearingStem) {
      assert tn[k] != 'a';
    }
  }

  lemma SkewDate()
    ensures FirstDate(SkewRest) == "01/01/2024"
  {
    assert IsDateAt(SkewRest, 0);
    assert FirstDateFrom(SkewRest, 0) == 0;
  }

  /** The keyword's raw index in `SkewText` is 20. */
  lemma SkewStart()
    ensures KeywordStart(SkewText, "audiencia") == 20
  {
    SkewFolded();
    SkewKeywordPosition();
    var t := SkewText;
    var p := KeywordStart(t, "audiencia");
    assert p == SourceIndex(t, 10);
    SkewPrefixLength(p);
    SkewPrefixLength(p + 1);
  }

  lemma NoDateInKeyword()
    ensures FirstDate("audiencia") == ""
  {
    var w := "audiencia";
    forall k | 0 <= k ensures !IsDateAt(w, k) { }
  }

  /** The folded length of each prefix of `SkewText`: the signs count for nothing. */
  lemma SkewPrefixLength(q: nat)
    requires q <= |SkewText|
    ensures |Normalize(SkewText[..q])| == if q <= 10 then 0 else q - 10
  {
    var t := SkewText;
    if q <= 10 {
      assert t[..q] == SkewSigns[..q];
      NormalizeSigns(t[..q]);
    } else {
      var r := SkewRest[..q - 10];
      assert t[..q] == SkewSigns + r;
      SkewRestAscii();
      NormalizeSigns(SkewSigns);
      NormalizeAppend(SkewSigns, r);
      NormalizeOfAsciiLower(r);
    }
  }

  // ---------------------------------------------------------------------------
  // extrair_tipo_audiencia_pericia
  // ---------------------------------------------------------------------------

  /** The spellings `Audi[eê]ncia` and `Per[ií]cia` match, once lower-cased. */
  const HearingForms: set<string> := {"audiencia", "audi\U{00EA}ncia"}
  const ExamForms: set<string> := {"pericia", "per\U{00ED}cia"}

  /** The characters that end the description after the keyword: `[^.\n)]`. */
  const TitleStops: set<char> := {'.', '\n', ')'}

  /**
   * `re.search(r"(Form[^.\n)]+)", t, re.IGNORECASE)` can match at `i`: a spelling
   * of `n` characters, then at least one character that is not a stop.
   */
  predicate TitleAt(t: string, i: nat, n: nat, forms: set<string>) {
    i + n < |t| && Lower(t[i..i + n]) in forms && t[i + n] !in TitleStops
  }

  /** The leftmost index from `i` on where the description can match, or `|t|`. */
  function FirstTitle(t: string, i: nat, n: nat, forms: set<string>): (k: nat)
    requires i <= |t|
    ensures i <= k <= |t|
    ensures k < |t| ==> TitleAt(t, k, n, forms)
    ensures forall j :: i <= j < k ==> !TitleAt(t, j, n, forms)
    decreases |t| - i
  {
    if i == |t| || TitleAt(t, i, n, forms) then i else FirstTitle(t, i + 1, n, forms)
  }

  /** The end of the greedy run of non-stop characters from `i`. */
  function StopFrom(t: string, i: nat): (e: nat)
    requires i <= |t|
    ensures i <= e <= |t|
    ensures forall j :: i <= j < e ==> t[j] !in TitleStops
    ensures e < |t| ==> t[e] in TitleStops
    decreases |t| - i
  {
    if i == |t| || t[i] in TitleStops then i else StopFrom(t, i + 1)
  }

  /** The stripped description at the leftmost match, if there is one. */
  function TitleText(t: string, n: nat, forms: set<string>): Option<string> {
    var k := FirstTitle(t, 0, n, forms);
    if k == |t| then None else Some(Strip(t[k..StopFrom(t, k + n)]))
  }

  /**
   * `extrair_tipo_audiencia_pericia(texto)`: the hearing description, else
   * the exam description, else the bare kind the detector reports.
   */
  function TipoAudienciaPericia(texto: string): string {
    if texto == "" then ""
    else
      var t := RemoveCR(texto);
      var a := TitleText(t, 9, HearingForms);
      if a.Some? then a.value
      else
        var b := TitleText(t, 7, ExamForms);
        if b.Some? then b.value
        else match DetectarAudienciaPericia(texto)
          case Some(Audiencia) => "Audi\U{00EA}ncia"
          case Some(Pericia) => "Per\U{00ED}cia"
          case None => ""
  }

  /** A spelling that starts with a letter and holds no stop character. */
  predicate PlainForm(f: string) {
    |f| > 0 && !IsSpace(f[0]) && forall c :: c in f ==> c !in TitleStops
  }

  lemma FormsPlain(forms: set<string>)
    requires forms == HearingForms || forms == ExamForms
    ensures forall f :: f in forms ==> PlainForm(f)
  {
  }

  /** The characters a spelling matches are no stop characters, and the first is no space. */
  lemma FormsShape(t: string, i: nat, n: nat, forms: set<string>)
    requires forms == HearingForms || forms == ExamForms
    requires i + n <= |t| && Lower(t[i..i + n]) in forms
    ensures n > 0 && !IsSpace(t[i])
    ensures forall j :: i <= j < i + n ==> t[j] !in TitleStops
  {
    var l := Lower(t[i..i + n]);
    FormsPlain(forms);
    assert PlainForm(l);
    assert l[0] == LowerChar(t[i]);
    forall j | i <= j < i + n ensures t[j] !in TitleStops {
      assert l[j - i] == LowerChar(t[j]);
      assert l[j - i] in l;
    }
  }

  /** A description that was found is non-empty and has no stop character in it. */
  lemma TitleTextShape(t: string, n: nat, forms: set<string>)
    requires forms == HearingForms || forms == ExamForms
    requires TitleText(t, n, forms).Some?
    ensures TitleText(t, n, forms).value != ""
    ensures forall c :: c in TitleText(t, n, forms).value ==> c !in TitleStops
  {
    var k := FirstTitle(t, 0, n, forms);
    var e := StopFrom(t, k + n);
    var s := t[k..e];
    FormsShape(t, k, n, forms);
    assert s[0] == t[k];
    assert forall j :: 0 <= j < |s| ==> s[j] !in TitleStops;
    StrippedRunShape(s);
  }

  /** Stripping a run without stop characters that starts with a non-space. */
  lemma StrippedRunShape(s: string)
    requires s != [] && !IsSpace(s[0]) && forall j :: 0 <= j < |s| ==> s[j] !in TitleStops
    ensures Strip(s) != ""
    ensures forall c :: c in Strip(s) ==> c !in TitleStops
  {
    assert LStripSet(s, Whitespace) == s;
    RStripSetRemoved(s, Whitespace);
    StripSetShape(s, Whitespace);
  }

  /**
   * Once the detector sees a hearing or an exam, the description is never
   * empty, so the caller's fallback to the bare kind is never taken; and
   * no description holds a stop character.
   */
  lemma TipoAudienciaPericiaShape(texto: string)
    ensures DetectarAudienciaPericia(texto).Some? ==> TipoAudienciaPericia(texto) != ""
    ensures forall c :: c in TipoAudienciaPericia(texto) ==> c !in TitleStops
  {
    if texto != "" {
      var t := RemoveCR(texto);
      if TitleText(t, 9, HearingForms).Some? {
        TitleTextShape(t, 9, HearingForms);
      } else if TitleText(t, 7, ExamForms).Some? {
        TitleTextShape(t, 7, ExamForms);
      }
    }
  }
}
