/**
 * The small text rules of the e-mail importer: the IMAP `SINCE` date, the
 * lenient date reader used for every stored date, the accent repair table,
 * `_find_after`, the removal of the "Data Evento" stamp, and the keyword
 * classifiers (hearing or exam, financial sector, election notices).
 */
module EmailText {
  import opened Wrappers
  import opened Strings
  import opened Dates

  // ---------------------------------------------------------------------------
  // format_imap_date
  // ---------------------------------------------------------------------------

  /** The English month abbreviations IMAP requires, whatever the locale. */
  const MonthAbbrevs: seq<string> :=
    ["Jan", "Feb", "Mar", "Apr", "May", "Jun", "Jul", "Aug", "Sep", "Oct", "Nov", "Dec"]

  /** The month (1..12) an IMAP abbreviation stands for. */
  function MonthOfAbbrev(a: string): (m: Option<int>)
    ensures m.Some? ==> 1 <= m.value <= 12 && MonthAbbrevs[m.value - 1] == a
  {
    if a == "Jan" then Some(1) else if a == "Feb" then Some(2) else if a == "Mar" then Some(3)
    else if a == "Apr" then Some(4) else if a == "May" then Some(5) else if a == "Jun" then Some(6)
    else if a == "Jul" then Some(7) else if a == "Aug" then Some(8) else if a == "Sep" then Some(9)
    else if a == "Oct" then Some(10) else if a == "Nov" then Some(11) else if a == "Dec" then Some(12)
    else None
  }

  /** `format_imap_date(dt)`: the zero-padded day, a dash, the English month, a dash, the year. */
  function FormatImapDate(d: CivilDate): (r: string)
    requires Valid(d)
    ensures 8 <= |r| && r[2] == '-' && r[6] == '-'
    ensures r[..2] == Pad2(d.day) && r[3..6] == MonthAbbrevs[d.month - 1] && r[7..] == NatToString(d.year)
  {
    Pad2(d.day) + "-" + MonthAbbrevs[d.month - 1] + "-" + NatToString(d.year)
  }

  /** Reading an IMAP date back (the server's side of the `SINCE` criterion). */
  function ParseImapDate(s: string): Option<CivilDate> {
    if |s| < 8 || s[2] != '-' || s[6] != '-' || !AllDigits(s[..2]) || !AllDigits(s[7..]) then None
    else
      var m := MonthOfAbbrev(s[3..6]);
      if m.None? then None else MakeDate(DigitsValue(s[7..]), m.value, DigitsValue(s[..2]))
  }

  /** The IMAP date names the date it was made from, so two dates never share one. */
  lemma ImapDateRoundTrip(d: CivilDate)
    requires Valid(d)
    ensures ParseImapDate(FormatImapDate(d)) == Some(d)
  {
    var r := FormatImapDate(d);
    assert MonthOfAbbrev(MonthAbbrevs[d.month - 1]) == Some(d.month);
  }

  // ---------------------------------------------------------------------------
  // to_date_or_none
  // ---------------------------------------------------------------------------

  /** The values handed to `to_date_or_none`: nothing, a date object, or text. */
  datatype DateInput = NoValue | DateValue(date: CivilDate) | Text(text: string)

  /**
   * `to_date_or_none(v)`: `DD/MM/YYYY`, then `DD/MM/YY`, then ISO
   * `YYYY-MM-DD`, on the trimmed text; a date object is returned as it is.
   */
  function ToDateOrNone(v: DateInput): (r: Option<CivilDate>)
    ensures v.NoValue? || v == Text("") ==> r.None?
    ensures v.DateValue? ==> r == Some(v.date)
    ensures r.Some? && v.Text? ==> Valid(r.value)
  {
    match v
    case NoValue => None
    case DateValue(d) => Some(d)
    case Text(t) => if t == "" then None else ParseDateText(Strip(t))
  }

  /** The three formats `to_date_or_none` tries on trimmed text, in its order. */
  function ParseDateText(s: string): (r: Option<CivilDate>)
    ensures r.Some? ==> Valid(r.value)
  {
    var a := ParseDayMonthYear(s, false);
    if a.Some? then a
    else
      var b := ParseDayMonthYear(s, true);
      if b.Some? then b else ParseIsoDateTime(s)
  }

  /** `f"{d:%d/%m/%y}"`, the form the importer stores an e-mail's date in. */
  function FormatShortDate(d: CivilDate): string
    requires Valid(d)
  {
    Pad2(d.day) + "/" + Pad2(d.month) + "/" + Pad2(d.year % 100)
  }

  /** Text that starts and ends with a digit is left alone by `strip()`. */
  lemma StripDigitEnds(s: string)
    requires |s| > 0 && IsDigit(s[0]) && IsDigit(s[|s| - 1])
    ensures Strip(s) == s
  {
    DigitNotSpace(s[0]);
    DigitNotSpace(s[|s| - 1]);
    StripSetNoop(s, Whitespace);
  }

  /** A date written as `DD/MM/YYYY` is read back by `ToDateOrNone`. */
  lemma ToDateOrNoneReadsDayMonthYear(d: CivilDate)
    requires Valid(d)
    ensures ToDateOrNone(Text(FormatDayMonthYear(d))) == Some(d)
  {
    var a := FormatDayMonthYear(d);
    StripDigitEnds(a);
    ParseFormatDayMonthYear(d);
    assert ParseDayMonthYear(Strip(a), false) == Some(d);
  }

  /** A date written as `YYYY-MM-DD` is read back by `ToDateOrNone`. */
  lemma ToDateOrNoneReadsIso(d: CivilDate)
    requires Valid(d)
    ensures ToDateOrNone(Text(FormatIso(d))) == Some(d)
  {
    var b := FormatIso(d);
    IsoHasNoSlash(d);
    ParseFormatIso(d);
    StripDigitEnds(b);
  }

  /**
   * A date and a time of day, as `datetime.isoformat(sep)` writes them
   * with any separator but a slash, are read back as the date.
   */
  lemma ToDateOrNoneReadsIsoDateTime(d: CivilDate, sep: char, t: string)
    requires Valid(d) && sep != '/' && IsoTime(t)
    ensures ToDateOrNone(Text(FormatIso(d) + [sep] + t)) == Some(d)
  {
    var a := FormatIso(d);
    var s := a + [sep] + t;
    assert |a| == 10;
    assert s[..10] == a && s[11..] == t;
    assert IsDigit(s[0]) && IsDigit(s[|s| - 1]);
    StripDigitEnds(s);
    assert forall i :: 0 <= i < |a| ==> a[i] != '/';
    assert forall i :: 0 <= i < |t| ==> t[i] != '/';
    assert forall i :: 0 <= i < |s| ==> s[i] != '/';
    SplitFree(s, '/');
    ParseFormatIso(d);
  }

  /** The short form splits into its three two-digit fields. */
  lemma SplitShortDate(d: CivilDate)
    requires Valid(d)
    ensures Split(FormatShortDate(d), "/") == [Pad2(d.day), Pad2(d.month), Pad2(d.year % 100)]
  {
    var dd, mm, yy := Pad2(d.day), Pad2(d.month), Pad2(d.year % 100);
    assert FormatShortDate(d) == dd + ['/'] + (mm + ['/'] + yy);
    SplitAfterFree(dd, '/', mm + ['/'] + yy);
    SplitAfterFree(mm, '/', yy);
    SplitFree(yy, '/');
  }

  /** How the three parsers of `ToDateOrNone` read the short form. */
  lemma ParseShortDate(d: CivilDate)
    requires Valid(d)
    ensures ParseDayMonthYear(FormatShortDate(d), false) == None
    ensures ParseDayMonthYear(FormatShortDate(d), true) == MakeDate(TwoDigitYear(d.year % 100), d.month, d.day)
    ensures ParseIsoDate(FormatShortDate(d)) == None
  {
    var s := FormatShortDate(d);
    SplitShortDate(d);
    DayTokenOfPad2(d.day);
    MonthTokenOfPad2(d.month);

  }

  /** `ToDateOrNone` reads the short form with the century `%y` assigns. */
  lemma ToDateOrNoneShortDate(d: CivilDate)
    requires Valid(d)
    ensures ToDateOrNone(Text(FormatShortDate(d))) == MakeDate(TwoDigitYear(d.year % 100), d.month, d.day)
  {
    ParseShortDate(d);
    StripDigitEnds(FormatShortDate(d));
  }

  /**
   * A two-digit year reads back as the same date exactly in the window
   * 1969..2068 that `%y` covers; outside it the century changes.
   */
  lemma ToDateOrNoneReadsShortDates(d: CivilDate)
    requires Valid(d)
    ensures 1969 <= d.year <= 2068 ==> ToDateOrNone(Text(FormatShortDate(d))) == Some(d)
    ensures !(1969 <= d.year <= 2068) ==> ToDateOrNone(Text(FormatShortDate(d))) != Some(d)
  {
    ToDateOrNoneShortDate(d);
    TwoDigitYearWindow(d.year);
  }

  // ---------------------------------------------------------------------------
  // corrigir_acentos
  // ---------------------------------------------------------------------------

  /** The repair table, in the order the dictionary lists it: wrong spelling, right spelling. */
  const Corrections: seq<(string, string)> := [
    ("Percia", "Per\U{00ED}cia"), ("Mdica", "M\U{00E9}dica"), ("Audiencia", "Audi\U{00EA}ncia"),
    ("Servio", "Servi\U{00E7}o"), ("Servico", "Servi\U{00E7}o"), ("Majorao", "Majora\U{00E7}\U{00E3}o"),
    ("Majora\U{00E7}ao", "Majora\U{00E7}\U{00E3}o"), ("Itaborai", "Itabora\U{00ED}")
  ]

  predicate NonEmptyPatterns(cs: seq<(string, string)>) {
    forall k :: 0 <= k < |cs| ==> |cs[k].0| > 0
  }

  /** Each `replace` of the table applied in turn. */
  function ApplyCorrections(t: string, cs: seq<(string, string)>): (r: string)
    requires NonEmptyPatterns(cs)
    decreases |cs|
  {
    if cs == [] then t else ApplyCorrections(Replace(t, cs[0].0, cs[0].1), cs[1..])
  }

  /** Text that holds none of the wrong spellings passes through unchanged. */
  lemma {:induction false} ApplyCorrectionsUnchanged(t: string, cs: seq<(string, string)>)
    requires NonEmptyPatterns(cs)
    requires forall k :: 0 <= k < |cs| ==> !Contains(t, cs[k].0)
    ensures ApplyCorrections(t, cs) == t
    decreases |cs|
  {
    if cs != [] {
      assert Replace(t, cs[0].0, cs[0].1) == t;
      ApplyCorrectionsUnchanged(t, cs[1..]);
    }
  }

  /**
   * `corrigir_acentos(texto)`: every `replace` of the table in turn, after
   * which no wrong spelling of the table is left in the text.
   */
  function CorrigirAcentos(t: string): (r: string)
    ensures forall k :: 0 <= k < |Corrections| ==> !Contains(r, Corrections[k].0)
  {
    assert NonEmptyPatterns(Corrections);
    CorrectionsSafe();
    ApplyCorrectionsLeavesNone(t, [], Corrections);
    ApplyCorrections(t, Corrections)
  }

  predicate IsCapital(c: char) { 'A' <= c <= 'Z' }

  /** A capital letter first and nowhere else. */
  predicate CapitalOnlyFirst(w: string) {
    |w| > 0 && IsCapital(w[0]) && forall m :: 1 <= m < |w| ==> !IsCapital(w[m])
  }

  /** `w` and `v` differ within their common length, so `w` cannot start where `v` starts. */
  predicate DiffersEarly(w: string, v: string) {
    exists m :: 0 <= m < |w| && m < |v| && w[m] != v[m]
  }

  /** Around the first match of `pat`, neither side holds `w` when `s` does not, and the text before it never holds `pat`. */
  lemma FirstMatchParts(s: string, pat: string, w: string)
    requires |pat| > 0 && Find(s, pat) >= 0 && (w == pat || !Contains(s, w))
    ensures !Contains(s[..Find(s, pat)], w)
    ensures w == pat || !Contains(s[Find(s, pat) + |pat|..], w)
  {
    var k := Find(s, pat);
    if w == pat {
      NotInPrefixBeforeFirst(s, pat, k);
    } else {
      if Contains(s[k + |pat|..], w) {
        assert s[k + |pat|..|s|] == s[k + |pat|..];
        ContainsInPart(s, k + |pat|, |s|, w);
      }
      if Contains(s[..k], w) {
        ContainsInPart(s, 0, k, w);
      }
    }
  }

  /**
   * After `s.replace(pat, rep)` a word `w` (the pattern itself, or a word
   * the text lacked) does not occur: a new occurrence would have to start
   * at the capital that opens `rep`, where `w` and `rep` disagree, or run
   * into it, where `w` has no capital.
   */
  lemma {:induction false} ReplaceLeavesNone(s: string, pat: string, rep: string, w: string)
    requires |pat| > 0 && CapitalOnlyFirst(rep) && CapitalOnlyFirst(w) && DiffersEarly(w, rep)
    requires w == pat || !Contains(s, w)
    ensures !Contains(Replace(s, pat, rep), w)
    decreases |s|
  {
    var k := Find(s, pat);
    if k >= 0 {
      var rest := s[k + |pat|..];
      FirstMatchParts(s, pat, w);
      ReplaceLeavesNone(rest, pat, rep, w);
      NoneAcrossCapital(s[..k], rep, Replace(rest, pat, rep), w);
    }
  }

  /** Gluing `rep` between two texts without `w` makes no occurrence of `w`. */
  lemma NoneAcrossCapital(pre: string, rep: string, tail: string, w: string)
    requires CapitalOnlyFirst(rep) && CapitalOnlyFirst(w) && DiffersEarly(w, rep)
    requires !Contains(pre, w) && !Contains(tail, w)
    ensures !Contains(pre + rep + tail, w)
  {
    var r := pre + rep + tail;
    var k := |pre|;
    forall p | 0 <= p <= |r| - |w| ensures !IsAt(r, p, w) {
      var seg := r[p..p + |w|];
      if p + |w| <= k {
        assert seg == pre[p..p + |w|];
        assert !IsAt(pre, p, w);
      } else if p < k {
        assert r[k] == (pre + rep)[k] == rep[0];
        assert seg[k - p] == r[k];
        assert seg[k - p] != w[k - p];
      } else if p == k {
        var m :| 0 <= m < |w| && m < |rep| && w[m] != rep[m];
        assert r[k + m] == (pre + rep)[k + m] == rep[m];
        assert seg[m] == r[k + m];
      } else if p < k + |rep| {
        assert r[p] == (pre + rep)[p] == rep[p - k];
        assert seg[0] == r[p];
        assert seg[0] != w[0];
      } else {
        var q := p - k - |rep|;
        assert !IsAt(tail, q, w);
        assert seg == tail[q..q + |w|];
      }
    }
  }

  /**
   * The conditions under which a table of corrections leaves none of its
   * wrong spellings (nor any of the words in `done`): every key and every
   * right spelling has its capital first and only there, and every right
   * spelling differs early from the earlier keys, its own, and `done`.
   */
  predicate SafeTable(done: seq<string>, cs: seq<(string, string)>) {
    && (forall j :: 0 <= j < |done| ==> CapitalOnlyFirst(done[j]))
    && (forall i :: 0 <= i < |cs| ==> CapitalOnlyFirst(cs[i].0) && CapitalOnlyFirst(cs[i].1))
    && (forall i, j :: 0 <= i < |cs| && 0 <= j < |done| ==> DiffersEarly(done[j], cs[i].1))
    && (forall i, j :: 0 <= j <= i < |cs| ==> DiffersEarly(cs[j].0, cs[i].1))
  }

  lemma {:induction false} ApplyCorrectionsLeavesNone(t: string, done: seq<string>, cs: seq<(string, string)>)
    requires NonEmptyPatterns(cs) && SafeTable(done, cs)
    requires forall j :: 0 <= j < |done| ==> !Contains(t, done[j])
    ensures forall j :: 0 <= j < |done| ==> !Contains(ApplyCorrections(t, cs), done[j])
    ensures forall i :: 0 <= i < |cs| ==> !Contains(ApplyCorrections(t, cs), cs[i].0)
    decreases |cs|
  {
    if cs != [] {
      var (pat, rep) := cs[0];
      var t' := Replace(t, pat, rep);
      var done' := done + [pat];
      forall j | 0 <= j < |done'| ensures !Contains(t', done'[j]) {
        if j < |done| {
          ReplaceLeavesNone(t, pat, rep, done[j]);
        } else {
          ReplaceLeavesNone(t, pat, rep, pat);
        }
      }
      assert SafeTable(done', cs[1..]) by {
        forall i, j | 0 <= i < |cs[1..]| && 0 <= j < |done'| ensures DiffersEarly(done'[j], cs[1..][i].1) {
          if j == |done| {
            assert cs[1..][i] == cs[i + 1];
          }
        }
      }
      ApplyCorrectionsLeavesNone(t', done', cs[1..]);
      assert forall j :: 0 <= j < |done| ==> done'[j] == done[j];
      forall i | 0 <= i < |cs| ensures !Contains(ApplyCorrections(t, cs), cs[i].0) {
        if i == 0 {
          assert done'[|done|] == pat;
        } else {
          assert cs[i] == cs[1..][i - 1];
        }
      }
    }
  }

  /** The repair table meets `SafeTable`. */
  lemma CorrectionsSafe()
    ensures SafeTable([], Corrections)
  {
    var cs := Corrections;
    forall i | 0 <= i < |cs| ensures CapitalOnlyFirst(cs[i].0) && CapitalOnlyFirst(cs[i].1) {
    }
    forall i, j | 0 <= j <= i < |cs| ensures DiffersEarly(cs[j].0, cs[i].1) {
      var w, v := cs[j].0, cs[i].1;
      if w[0] != v[0] {
        assert 0 < |w| && 0 < |v|;
      } else if j == 0 || (j == 1 && i == 1) {
        assert w[1] != v[1] || w[3] != v[3];
      } else {
        assert w[1] != v[1] || w[4] != v[4] || w[5] != v[5] || w[6] != v[6] || w[7] != v[7];
      }
    }
  }

  /** Text with none of the wrong spellings is not touched by `corrigir_acentos`. */
  lemma CorrigirAcentosUnchanged(t: string)
    requires forall k :: 0 <= k < |Corrections| ==> !Contains(t, Corrections[k].0)
    ensures CorrigirAcentos(t) == t
  {
    ApplyCorrectionsUnchanged(t, Corrections);
  }

  // ---------------------------------------------------------------------------
  // _find_after
  // ---------------------------------------------------------------------------

  /**
   * `_find_after(h, needle, start)`: the index just past the first
   * occurrence of `needle` at or after `start`, or -1 when there is none.
   */
  function FindAfter(h: string, needle: string, start: nat): (r: int)
    ensures r == -1 <==> forall k :: start <= k ==> !IsAt(h, k, needle)
    ensures r != -1 ==> start + |needle| <= r <= |h| && IsAt(h, r - |needle|, needle)
    ensures r != -1 ==> forall k :: start <= k < r - |needle| ==> !IsAt(h, k, needle)
  {
    var idx := FindFrom(h, needle, start);
    if idx == -1 then -1 else idx + |needle|
  }

  // ---------------------------------------------------------------------------
  // limpar_data_evento
  // ---------------------------------------------------------------------------

  const StampLabel := "Data Evento "

  predicate DigitsIn(s: string, from: int, to: int)
    requires 0 <= from <= to <= |s|
  {
    forall i :: from <= i < to ==> IsDigit(s[i])
  }

  /** `s` starts with `Data Evento DD/MM/YYYY HH:MM` (28 characters). */
  predicate HasEventStamp(s: string) {
    && |s| >= 28 && s[..12] == StampLabel
    && DigitsIn(s, 12, 14) && s[14] == '/' && DigitsIn(s, 15, 17) && s[17] == '/' && DigitsIn(s, 18, 22)
    && s[22] == ' ' && DigitsIn(s, 23, 25) && s[25] == ':' && DigitsIn(s, 26, 28)
  }

  /**
   * `limpar_data_evento(texto)`: the trimmed text without a leading event
   * stamp and the whitespace after it.
   */
  function LimparDataEvento(t: string): (r: string)
    ensures r != [] ==> !IsSpace(r[0]) && !IsSpace(r[|r| - 1])
    ensures !HasEventStamp(Strip(t)) ==> r == Strip(t)
  {
    var s := Strip(t);
    StripEdges(t);
    if HasEventStamp(s) then
      StampRestEdges(s);
      LStrip(s[28..])
    else s
  }

  /** `strip` leaves no space at either end. */
  lemma StripEdges(t: string)
    ensures Strip(t) != [] ==> !IsSpace(Strip(t)[0]) && !IsSpace(Strip(t)[|Strip(t)| - 1])
  {
    StripSetShape(t, Whitespace);
  }

  /** What follows a stamp, left-stripped, keeps the stripped text's last character. */
  lemma StampRestEdges(s: string)
    requires |s| >= 28 && !IsSpace(s[|s| - 1])
    ensures LStrip(s[28..]) != [] ==> !IsSpace(LStrip(s[28..])[0]) && !IsSpace(LStrip(s[28..])[|LStrip(s[28..])| - 1])
  {
    var rest := s[28..];
    LStripSetSuffix(rest, Whitespace);
    var r := LStrip(rest);
    if r != [] {
      assert r[|r| - 1] == rest[|rest| - 1] == s[|s| - 1];
    }
  }

  /** A stamp followed by a space and already-trimmed text leaves exactly that text. */
  lemma LimparDataEventoRemovesStamp(p: string, b: string)
    requires |p| == 28 && HasEventStamp(p)
    requires b == [] || (!IsSpace(b[0]) && !IsSpace(b[|b| - 1]))
    ensures LimparDataEvento(p + " " + b) == b
  {
    var t := p + " " + b;
    StampedStrip(p, b);
    if b == [] {
      assert Strip(t) == p;
      assert p[28..] == [];
    } else {
      assert Strip(t) == t;
      StampPrefix(p, " " + b);
      assert t == p + (" " + b);
      assert t[28..] == " " + b;
      assert (" " + b)[1..] == b;
      assert LStripSet(b, Whitespace) == b;
      assert LStrip(" " + b) == b;
    }
  }

  /** A stamp stays a stamp whatever follows it. */
  lemma StampPrefix(p: string, rest: string)
    requires |p| == 28 && HasEventStamp(p)
    ensures HasEventStamp(p + rest)
  {
    var t := p + rest;
    assert t[..28] == p;
    assert t[..12] == p[..12];
    forall k | 0 <= k < 28 ensures t[k] == p[k] { }
  }

  lemma StampedStrip(p: string, b: string)
    requires |p| == 28 && HasEventStamp(p)
    requires b == [] || (!IsSpace(b[0]) && !IsSpace(b[|b| - 1]))
    ensures b == [] ==> Strip(p + " " + b) == p
    ensures b != [] ==> Strip(p + " " + b) == p + " " + b
  {
    var t := p + " " + b;
    assert !IsSpace(t[0]) && !IsSpace(p[27]);
    assert LStripSet(t, Whitespace) == t;
    if b == [] {
      assert t[..|t| - 1] == p;
      assert RStripSet(p, Whitespace) == p;
    } else {
      assert t[|t| - 1] == b[|b| - 1];
    }
  }

  // ---------------------------------------------------------------------------
  // detectar_audiencia_pericia
  // ---------------------------------------------------------------------------

  /** The two kinds of scheduled event the importer recognises. */
  datatype EventKind = Audiencia | Pericia

  /**
   * `detectar_audiencia_pericia(texto)`: a hearing when the folded text
   * mentions "audiencia" anywhere, else an exam when it mentions "pericia".
   */
  function DetectarAudienciaPericia(t: string): (r: Option<EventKind>)
    ensures r == Some(Audiencia) <==> Contains(Normalize(t), "audiencia")
    ensures r == Some(Pericia) <==> !Contains(Normalize(t), "audiencia") && Contains(Normalize(t), "pericia")
    ensures r == None <==> !Contains(Normalize(t), "audiencia") && !Contains(Normalize(t), "pericia")
  {
    var tl := Normalize(t);
    if Contains(tl, "audiencia") then Some(Audiencia)
    else if Contains(tl, "pericia") then Some(Pericia)
    else None
  }

  /**
   * Any spelling that folds to "audiencia" (`Audiência`, `AUDIÊNCIA`, ...)
   * makes the text a hearing, wherever it occurs and whatever else the text says.
   */
  lemma HearingSpellingsDetected(t: string, w: string)
    requires Contains(t, w) && Normalize(w) == "audiencia"
    ensures DetectarAudienciaPericia(t) == Some(Audiencia)
  {
    NormalizeKeepsOccurrence(t, w);
  }

  /** Likewise any spelling that folds to "pericia" makes it at least an exam. */
  lemma ExamSpellingsDetected(t: string, w: string)
    requires Contains(t, w) && Normalize(w) == "pericia"
    ensures DetectarAudienciaPericia(t) != None
  {
    NormalizeKeepsOccurrence(t, w);
  }

  // ---------------------------------------------------------------------------
  // checar_palavra_chave
  // ---------------------------------------------------------------------------

  /** `PALAVRAS_CHAVE`: the words that send a message to the financial sector. */
  const FinanceKeywords: seq<string> := [
    "rpv", "alvar\U{00E1}", "alvara", "precat\U{00F3}rio", "precatorio", "acordo homologado",
    "expedi\U{00E7}\U{00E3}o de rpv", "expedicao de rpv", "expedido", "pagamento"
  ]

  const FinanceSector := "Setor Financeiro"
  const DefaultSector := "Taina"

  /** Some word of `ws` occurs in `s`. */
  predicate AnyOccurs(s: string, ws: seq<string>) {
    exists k :: 0 <= k < |ws| && Contains(s, ws[k])
  }

  /**
   * `checar_palavra_chave(corpo)`: the financial sector when a keyword
   * occurs in the lower-cased body, the default sector otherwise.
   */
  function ChecarPalavraChave(corpo: string): (r: string)
    ensures r == FinanceSector || r == DefaultSector
    ensures r == FinanceSector <==> AnyOccurs(Lower(corpo), FinanceKeywords)
  {
    if AnyOccurs(Lower(corpo), FinanceKeywords) then FinanceSector else DefaultSector
  }

  /**
   * Adding text around a body never takes it out of the financial sector:
   * the routing only looks for occurrences.
   */
  lemma FinanceRoutingMonotone(a: string, corpo: string, b: string)
    requires ChecarPalavraChave(corpo) == FinanceSector
    ensures ChecarPalavraChave(a + corpo + b) == FinanceSector
  {
    var k :| 0 <= k < |FinanceKeywords| && Contains(Lower(corpo), FinanceKeywords[k]);
    LowerAppend(a + corpo, b);
    LowerAppend(a, corpo);
    ContainsExtend(Lower(a), Lower(corpo), Lower(b), FinanceKeywords[k]);
    assert Lower(a + corpo + b) == Lower(a) + Lower(corpo) + Lower(b);
  }

  /** Upper-case `ALVARÁ` is found, because the body is lower-cased first. */
  lemma UpperCaseAlvaraRoutes(corpo: string)
    requires Contains(corpo, "ALVAR\U{00C1}")
    ensures ChecarPalavraChave(corpo) == FinanceSector
  {
    var k :| 0 <= k <= |corpo| - 6 && IsAt(corpo, k, "ALVAR\U{00C1}");
    var l := Lower(corpo);
    forall i | 0 <= i < 6 ensures l[k + i] == FinanceKeywords[1][i] {
      assert corpo[k + i] == corpo[k..k + 6][i];
    }
    assert l[k..k + 6] == FinanceKeywords[1];
    assert IsAt(l, k, FinanceKeywords[1]);
  }

  // ---------------------------------------------------------------------------
  // is_edital_nomeacao_publicacao
  // ---------------------------------------------------------------------------

  /** The phrases that mark an election-duty notice, which the importer skips. */
  const EditalKeywords: seq<string> := [
    "edital nomeacao", "edital nomea\U{00E7}\U{00E3}o", "edital nomeacao funcao especial",
    "edital nomeacao mesario", "eleicoes municipais", "foram nomeados mesarios",
    "presidente de mrv", "1\U{00BA} mesario - mrv", "2\U{00BA} mesario - mrv"
  ]

  /** `is_edital_nomeacao_publicacao(texto)`: some phrase occurs in the lower-cased text. */
  function IsEditalNomeacao(t: string): bool
  {
    AnyOccurs(Lower(t), EditalKeywords)
  }

  /**
   * A notice stays a notice when text is added around it, and lower-casing
   * the text first changes nothing: the filter only looks for occurrences
   * in the lower-cased text.
   */
  lemma EditalNoticeMonotone(a: string, t: string, b: string)
    ensures IsEditalNomeacao(t) ==> IsEditalNomeacao(a + t + b)
    ensures IsEditalNomeacao(Lower(t)) == IsEditalNomeacao(t)
  {
    LowerIdempotent(t);
    if IsEditalNomeacao(t) {
      var k :| 0 <= k < |EditalKeywords| && Contains(Lower(t), EditalKeywords[k]);
      LowerAppend(a + t, b);
      LowerAppend(a, t);
      ContainsExtend(Lower(a), Lower(t), Lower(b), EditalKeywords[k]);
      assert Lower(a + t + b) == Lower(a) + Lower(t) + Lower(b);
    }
  }

  /**
   * The two longer "edital nomeacao ..." phrases add nothing: a text is a
   * notice exactly when one of the other seven phrases occurs.
   */
  lemma EditalLongPhrasesRedundant(t: string)
    ensures IsEditalNomeacao(t) <==> AnyOccurs(Lower(t), EditalKeywords[..2] + EditalKeywords[4..])
  {
    var l := Lower(t);
    var short := EditalKeywords[..2] + EditalKeywords[4..];
    assert forall k :: 0 <= k < 2 ==> short[k] == EditalKeywords[k];
    assert forall k :: 2 <= k < |short| ==> short[k] == EditalKeywords[k + 2];
    if Contains(l, EditalKeywords[2]) {
      assert EditalKeywords[2][..15] == EditalKeywords[0];
      ContainsPrefix(l, EditalKeywords[2], EditalKeywords[0]);
    }
    if Contains(l, EditalKeywords[3]) {
      assert EditalKeywords[3][..15] == EditalKeywords[0];
      ContainsPrefix(l, EditalKeywords[3], EditalKeywords[0]);
    }
    if AnyOccurs(l, EditalKeywords) {
      var k :| 0 <= k < |EditalKeywords| && Contains(l, EditalKeywords[k]);
      if k < 4 {
        assert Contains(l, short[0]) || Contains(l, short[1]);
      } else {
        assert Contains(l, short[k - 2]);
      }
    }
    if AnyOccurs(l, short) {
      var k :| 0 <= k < |short| && Contains(l, short[k]);
      if k < 2 {
        assert Contains(l, EditalKeywords[k]);
      } else {
        assert Contains(l, EditalKeywords[k + 2]);
      }
    }
  }
}
