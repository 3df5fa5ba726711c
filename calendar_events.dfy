/**
 * How an agenda row becomes a calendar event (`calendar_integration.py`):
 * the time scanner, the start/end computation, the summary and description
 * texts, the text coercions, and how the outcomes of several deletions are
 * combined.  Dates are day numbers, times of day are minutes since
 * midnight, and an instant is `day * 1440 + minute`.  The calendar service
 * is an oracle from record id to the outcome of one deletion.
 */
module CalendarEvents {
  import opened Wrappers
  import opened Strings

  // ---------------------------------------------------------------------------
  // Row values
  // ---------------------------------------------------------------------------

  /** A value read from an agenda row: missing/None, text, or a number. */
  datatype Datum = Absent | Str(s: string) | Num(n: int)

  type Data = map<string, Datum>

  /** `data.get(key)`. */
  function Get(data: Data, key: string): Datum {
    if key in data then data[key] else Absent
  }

  /** `_clean_text`: "" for None, otherwise `str(value).strip()`. */
  function CleanText(v: Datum): (r: string)
    ensures v.Absent? ==> r == ""
  {
    match v
    case Absent => ""
    case Str(s) => Strip(s)
    case Num(n) => Strip(IntToString(n))
  }

  /** Cleaned text has no blank at either end, and cleaning it again changes nothing. */
  lemma CleanTextTrimmed(v: Datum)
    ensures var r := CleanText(v); r != [] ==> !IsSpace(r[0]) && !IsSpace(r[|r| - 1])
    ensures Strip(CleanText(v)) == CleanText(v)
  {
    match v
    case Absent =>
    case Str(s) =>
      StripSetShape(s, Whitespace);
      StripSetIdempotent(s, Whitespace);
    case Num(n) =>
      StripSetShape(IntToString(n), Whitespace);
      StripSetIdempotent(IntToString(n), Whitespace);
  }

  /** `_coerce_str`: None for None and for blank text, stripped text otherwise, `str(value)` for a number. */
  function CoerceStr(v: Datum): (r: Option<string>)
    ensures v.Absent? ==> r.None?
    ensures v.Num? ==> r == Some(IntToString(v.n))
  {
    match v
    case Absent => None
    case Str(s) => if Strip(s) == "" then None else Some(Strip(s))
    case Num(n) => Some(IntToString(n))
  }

  /** On text, coercion gives None exactly when cleaning gives "", and otherwise the cleaned text. */
  lemma CoerceAgreesWithClean(v: Datum)
    requires v.Absent? || v.Str?
    ensures CoerceStr(v).None? <==> CleanText(v) == ""
    ensures CoerceStr(v).Some? ==> CoerceStr(v).value == CleanText(v) && CoerceStr(v).value != ""
  {
  }

  // ---------------------------------------------------------------------------
  // Scanning times: `(\d{1,2})(?:[:hH](\d{2}))?` with `findall`
  // ---------------------------------------------------------------------------

  const TimeSeparators: set<char> := {':', 'h', 'H'}

  /** One match: where it starts and ends, the hour digits, and the minute digits ("" when the group did not take part). */
  datatype TimeMatch = TimeMatch(pos: nat, end: nat, hourText: string, minuteText: string)

  /** `m` is a match of the time pattern found in `s` at `m.pos`. */
  predicate MatchedIn(s: string, m: TimeMatch) {
    && 1 <= |m.hourText| <= 2
    && AllDigits(m.hourText)
    && IsAt(s, m.pos, m.hourText)
    && (m.minuteText == "" ==> m.end == m.pos + |m.hourText|)
    && (m.minuteText != "" ==>
          (&& |m.minuteText| == 2
           && AllDigits(m.minuteText)
           && m.end == m.pos + |m.hourText| + 3
           && m.end <= |s|
           && s[m.pos + |m.hourText|] in TimeSeparators
           && s[m.end - 2..m.end] == m.minuteText))
  }

  /** The match that starts at a digit: one or two digits (greedy), then the optional separator and two digits. */
  function MatchAt(s: string, i: nat): (m: TimeMatch)
    requires i < |s| && IsDigit(s[i])
    ensures m.pos == i && i < m.end <= |s|
    ensures MatchedIn(s, m)
  {
    var n := if i + 1 < |s| && IsDigit(s[i + 1]) then 2 else 1;
    var j := i + n;
    assert AllDigits(s[i..j]) && IsAt(s, i, s[i..j]) by {
      assert s[i..j][0] == s[i];
      assert n == 2 ==> s[i..j][1] == s[i + 1];
    }
    if j + 2 < |s| && s[j] in TimeSeparators && IsDigit(s[j + 1]) && IsDigit(s[j + 2]) then
      var mm := s[j + 1..j + 3];
      assert mm[0] == s[j + 1] && mm[1] == s[j + 2];
      TimeMatch(i, j + 3, s[i..j], mm)
    else
      TimeMatch(i, j, s[i..j], "")
  }

  /** `findall` from index `i`: the matches left to right, each scan resuming where the last match ended. */
  function MatchesFrom(s: string, i: nat): (r: seq<TimeMatch>)
    requires i <= |s|
    ensures forall k :: 0 <= k < |r| ==> MatchedIn(s, r[k]) && i <= r[k].pos < r[k].end <= |s|
    ensures forall k :: 0 < k < |r| ==> r[k - 1].end <= r[k].pos
    decreases |s| - i
  {
    if i == |s| then []
    else if !IsDigit(s[i]) then MatchesFrom(s, i + 1)
    else
      var m := MatchAt(s, i);
      var rest := MatchesFrom(s, m.end);
      ConsMatches(s, i, m, rest);
      [m] + rest
  }

  /** A match at `i` followed by the matches from its end keeps the shape `MatchesFrom` promises. */
  lemma ConsMatches(s: string, i: nat, m: TimeMatch, rest: seq<TimeMatch>)
    requires MatchedIn(s, m) && i <= m.pos < m.end <= |s|
    requires forall k :: 0 <= k < |rest| ==> MatchedIn(s, rest[k]) && m.end <= rest[k].pos < rest[k].end <= |s|
    requires forall k :: 0 < k < |rest| ==> rest[k - 1].end <= rest[k].pos
    ensures forall k :: 0 <= k < |[m] + rest| ==> MatchedIn(s, ([m] + rest)[k]) && i <= ([m] + rest)[k].pos < ([m] + rest)[k].end <= |s|
    ensures forall k :: 0 < k < |[m] + rest| ==> ([m] + rest)[k - 1].end <= ([m] + rest)[k].pos
  {
    var r := [m] + rest;
    forall k | 0 <= k < |r| ensures r[k] == if k == 0 then m else rest[k - 1] { }
  }

  function FindAll(s: string): seq<TimeMatch> { MatchesFrom(s, 0) }

  /** Some match of `r` spans index `j`. */
  predicate Covers(r: seq<TimeMatch>, j: nat) {
    exists k :: 0 <= k < |r| && r[k].pos <= j < r[k].end
  }

  lemma CoversCons(m: TimeMatch, rest: seq<TimeMatch>, j: nat)
    requires Covers(rest, j) || m.pos <= j < m.end
    ensures Covers([m] + rest, j)
  {
    if m.pos <= j < m.end {
      assert ([m] + rest)[0] == m;
    } else {
      var k :| 0 <= k < |rest| && rest[k].pos <= j < rest[k].end;
      assert ([m] + rest)[k + 1] == rest[k];
    }
  }

  /** No digit is passed over: every digit from `i` on lies inside one of the matches. */
  lemma {:induction false} MatchesCoverDigits(s: string, i: nat, j: nat)
    requires i <= j < |s| && IsDigit(s[j])
    ensures Covers(MatchesFrom(s, i), j)
    decreases |s| - i
  {
    if !IsDigit(s[i]) {
      MatchesCoverDigits(s, i + 1, j);
      assert MatchesFrom(s, i) == MatchesFrom(s, i + 1);
    } else {
      var m := MatchAt(s, i);
      var rest := MatchesFrom(s, m.end);
      assert MatchesFrom(s, i) == [m] + rest;
      if j >= m.end {
        MatchesCoverDigits(s, m.end, j);
      }
      CoversCons(m, rest, j);
    }
  }

  // ---------------------------------------------------------------------------
  // `_extract_times`
  // ---------------------------------------------------------------------------

  datatype Clock = Clock(hour: nat, minute: nat)

  predicate ValidClock(c: Clock) { c.hour < 24 && c.minute < 60 }

  function Minutes(c: Clock): nat { c.hour * 60 + c.minute }

  /** `int(hour_str)` and `int(minute_str) if minute_str else 0`. */
  function ClockOf(m: TimeMatch): Clock
    requires AllDigits(m.hourText) && (m.minuteText == "" || AllDigits(m.minuteText))
  {
    Clock(DigitsValue(m.hourText), if m.minuteText != "" then DigitsValue(m.minuteText) else 0)
  }

  predicate Readable(ms: seq<TimeMatch>) {
    forall k :: 0 <= k < |ms| ==> AllDigits(ms[k].hourText) && (ms[k].minuteText == "" || AllDigits(ms[k].minuteText))
  }

  /** The clocks of the matches, in order, keeping those with hour < 24 and minute < 60. */
  function ValidTimes(ms: seq<TimeMatch>): seq<Clock>
    requires Readable(ms)
    decreases |ms|
  {
    if ms == [] then []
    else
      var c := ClockOf(ms[|ms| - 1]);
      ValidTimes(ms[..|ms| - 1]) + (if ValidClock(c) then [c] else [])
  }

  function TimesOf(horario: string): seq<Clock> {
    ValidTimes(FindAll(horario))
  }

  /** Filtering keeps order: the times of two runs of matches are the times of the first, then of the second. */
  lemma {:induction false} ValidTimesAppend(a: seq<TimeMatch>, b: seq<TimeMatch>)
    requires Readable(a) && Readable(b)
    ensures Readable(a + b) && ValidTimes(a + b) == ValidTimes(a) + ValidTimes(b)
    decreases |b|
  {
    if b != [] {
      var b' := b[..|b| - 1];
      assert (a + b)[..|a + b| - 1] == a + b';
      ValidTimesAppend(a, b');
    } else {
      assert a + b == a;
    }
  }

  /** Some match of `ms` reads as `c`. */
  predicate ReadsAs(ms: seq<TimeMatch>, c: Clock)
    requires Readable(ms)
  {
    exists k :: 0 <= k < |ms| && ClockOf(ms[k]) == c
  }

  lemma ReadsAsSnoc(p: seq<TimeMatch>, m: TimeMatch, c: Clock)
    requires Readable(p + [m])
    ensures Readable(p) && AllDigits(m.hourText) && (m.minuteText == "" || AllDigits(m.minuteText))
    ensures ReadsAs(p + [m], c) <==> ReadsAs(p, c) || ClockOf(m) == c
  {
    var ms := p + [m];
    forall k | 0 <= k < |p| ensures ms[k] == p[k] { }
    assert ms[|p|] == m;
    if ReadsAs(ms, c) {
      var k :| 0 <= k < |ms| && ClockOf(ms[k]) == c;
      if k < |p| {
        assert ClockOf(p[k]) == c;
      }
    }
    if ReadsAs(p, c) {
      var k :| 0 <= k < |p| && ClockOf(p[k]) == c;
      assert ClockOf(ms[k]) == c;
    }
  }

  /** A clock is returned iff it is a valid clock read from some match. */
  lemma {:induction false} ValidTimesMembers(ms: seq<TimeMatch>, c: Clock)
    requires Readable(ms)
    ensures c in ValidTimes(ms) <==> ValidClock(c) && ReadsAs(ms, c)
    decreases |ms|
  {
    if ms != [] {
      var p := ms[..|ms| - 1];
      var m := ms[|ms| - 1];
      assert ms == p + [m];
      ReadsAsSnoc(p, m, c);
      ValidTimesMembers(p, c);
      var x := ClockOf(m);
      assert ValidTimes(ms) == ValidTimes(p) + (if ValidClock(x) then [x] else []);
    }
  }

  /** Every time returned has hour < 24 and minute < 60. */
  lemma TimesOfValid(horario: string)
    ensures forall k :: 0 <= k < |TimesOf(horario)| ==> ValidClock(TimesOf(horario)[k])
  {
    forall k | 0 <= k < |TimesOf(horario)|
      ensures ValidClock(TimesOf(horario)[k])
    {
      ValidTimesMembers(FindAll(horario), TimesOf(horario)[k]);
    }
  }

  /** A match without minutes reads as minute 0; hours and minutes are at most two digits. */
  lemma ClockOfShape(s: string, m: TimeMatch)
    requires MatchedIn(s, m)
    ensures m.minuteText == "" ==> ClockOf(m).minute == 0
    ensures ClockOf(m).hour < 100 && ClockOf(m).minute < 100
  {
    DigitsBelow(m.hourText);
    if m.minuteText != "" {
      DigitsBelow(m.minuteText);
    }
  }

  lemma DigitsBelow(t: string)
    requires 1 <= |t| <= 2 && AllDigits(t)
    ensures DigitsValue(t) < 100
  {
    if |t| == 2 {
      assert t[..1] == [t[0]] && [t[0]][..0] == [];
      assert DigitsValue(t[..1]) == DigitValue(t[0]);
      assert DigitsValue(t) == DigitValue(t[0]) * 10 + DigitValue(t[1]);
    } else {
      assert t[..0] == [];
    }
  }

  /** "14h30" reads as 14:30. */
  lemma TimesExampleMinutes()
    ensures TimesOf("14h30") == [Clock(14, 30)]
  {
    var s := "14h30";
    assert MatchAt(s, 0) == TimeMatch(0, 5, "14", "30");
    assert MatchesFrom(s, 5) == [];
    assert DigitsValue("14") == 14 by { assert "14"[..1] == "1"; }
    assert DigitsValue("30") == 30 by { assert "30"[..1] == "3"; }
  }

  /** "25h" gives no time, since hour 25 is dropped; "9h", which has no minutes, reads as 9:00. */
  lemma TimesExampleDropped()
    ensures TimesOf("25h") == []
    ensures TimesOf("9h") == [Clock(9, 0)]
  {
    var t := "25h";
    assert MatchAt(t, 0) == TimeMatch(0, 2, "25", "");
    assert MatchesFrom(t, 2) == [] by { assert MatchesFrom(t, 3) == []; }
    assert DigitsValue("25") == 25 by { assert "25"[..1] == "2"; }
    var ms := [TimeMatch(0, 2, "25", "")];
    assert FindAll(t) == ms;
    assert ms[..0] == [];
    var u := "9h";
    assert MatchAt(u, 0) == TimeMatch(0, 1, "9", "");
    assert MatchesFrom(u, 1) == [] by { assert MatchesFrom(u, 2) == []; }
    assert DigitsValue("9") == 9;
    var ns := [TimeMatch(0, 1, "9", "")];
    assert FindAll(u) == ns;
    assert ns[..0] == [];
  }

  /**
   * `_extract_times`: the matches of the time pattern, read as clocks and
   * filtered to valid times of day, in order of appearance.
   */
  method ExtractTimes(horario: string) returns (times: seq<Clock>)
    ensures times == TimesOf(horario)
  {
    var matches := FindAll(horario);
    times := [];
    for k := 0 to |matches|
      invariant times == ValidTimes(matches[..k])
    {
      var m := matches[k];
      var hour := DigitsValue(m.hourText);
      var minute := if m.minuteText != "" then DigitsValue(m.minuteText) else 0;
      assert matches[..k + 1][..k] == matches[..k];
      if hour < 24 && minute < 60 {
        times := times + [Clock(hour, minute)];
      }
    }
    assert matches[..|matches|] == matches;
  }

  // ---------------------------------------------------------------------------
  // `_compute_event_times`
  // ---------------------------------------------------------------------------

  const DayMinutes := 1440
  const DefaultDuration := 60

  /** All-day from one day to another (exclusive), or timed between two instants. */
  datatype EventTimes = AllDay(startDay: int, endDay: int) | Timed(start: int, end: int)

  function HorarioTimes(horario: Option<string>): seq<Clock> {
    if horario.Some? && horario.value != "" then TimesOf(horario.value) else []
  }

  /**
   * `_compute_event_times` once the times are read: the first time starts
   * the event; the second ends it, else the time of day one hour later; an
   * end not after the start is replaced by start + 60 minutes.
   */
  function EventFromTimes(eventDay: int, ts: seq<Clock>): EventTimes {
    if |ts| == 0 then AllDay(eventDay, eventDay + 1)
    else
      var startTime := Minutes(ts[0]);
      var endTime := if |ts| > 1 then Minutes(ts[1]) else (startTime + DefaultDuration) % DayMinutes;
      var startAt := eventDay * DayMinutes + startTime;
      var endAt := eventDay * DayMinutes + endTime;
      if endAt <= startAt then Timed(startAt, startAt + DefaultDuration) else Timed(startAt, endAt)
  }

  /** `_compute_event_times`: the times are read only from a non-empty `horario`. */
  function ComputeEventTimes(eventDay: int, horario: Option<string>): EventTimes {
    EventFromTimes(eventDay, HorarioTimes(horario))
  }

  /** Without a valid time the event is all-day from its day to the next day. */
  lemma AllDayWithoutTimes(eventDay: int, horario: Option<string>)
    ensures ComputeEventTimes(eventDay, horario).AllDay? <==> HorarioTimes(horario) == []
    ensures HorarioTimes(horario) == [] ==> ComputeEventTimes(eventDay, horario) == AllDay(eventDay, eventDay + 1)
  {
  }

  /** The start/end rule on a valid first clock. */
  lemma TimedFromTimes(eventDay: int, ts: seq<Clock>)
    requires ts != [] && ValidClock(ts[0])
    ensures var r := EventFromTimes(eventDay, ts);
            && r.Timed?
            && r.start == eventDay * DayMinutes + Minutes(ts[0])
            && eventDay * DayMinutes <= r.start < (eventDay + 1) * DayMinutes
            && r.end > r.start
            && (|ts| == 1 ==> r.end == r.start + DefaultDuration)
            && (|ts| > 1 && Minutes(ts[1]) > Minutes(ts[0]) ==> r.end == eventDay * DayMinutes + Minutes(ts[1]))
            && (|ts| > 1 && Minutes(ts[1]) <= Minutes(ts[0]) ==> r.end == r.start + DefaultDuration)
  {
    var s := Minutes(ts[0]);
    assert s < DayMinutes;
    if |ts| == 1 {
      if s + DefaultDuration >= DayMinutes {
        assert (s + DefaultDuration) % DayMinutes == s + DefaultDuration - DayMinutes;
      } else {
        assert (s + DefaultDuration) % DayMinutes == s + DefaultDuration;
      }
    }
  }

  /**
   * With a time, the event starts at the first time on its day and ends
   * strictly later: at the second time when that is later, otherwise one
   * hour after the start (also when there is no second time, even across
   * midnight).
   */
  lemma TimedEvent(eventDay: int, horario: Option<string>)
    requires HorarioTimes(horario) != []
    ensures var r := ComputeEventTimes(eventDay, horario);
            var ts := HorarioTimes(horario);
            && r.Timed?
            && r.start == eventDay * DayMinutes + Minutes(ts[0])
            && eventDay * DayMinutes <= r.start < (eventDay + 1) * DayMinutes
            && r.end > r.start
            && (|ts| == 1 ==> r.end == r.start + DefaultDuration)
            && (|ts| > 1 && Minutes(ts[1]) > Minutes(ts[0]) ==> r.end == eventDay * DayMinutes + Minutes(ts[1]))
            && (|ts| > 1 && Minutes(ts[1]) <= Minutes(ts[0]) ==> r.end == r.start + DefaultDuration)
  {
    TimesOfValid(horario.value);
    TimedFromTimes(eventDay, HorarioTimes(horario));
  }

  // ---------------------------------------------------------------------------
  // `_build_summary`
  // ---------------------------------------------------------------------------

  function Field(data: Data, key: string): string { CleanText(Get(data, key)) }

  /** The title without its status: "tipo - cliente", cliente, tipo, materia, then "Compromisso". */
  function SummaryBase(tipo: string, cliente: string, materia: string): string {
    if tipo != "" && cliente != "" then tipo + " - " + cliente
    else if cliente != "" then cliente
    else if tipo != "" then tipo
    else if materia != "" then materia
    else "Compromisso"
  }

  /** `_build_summary`: the base, prefixed by "[STATUS] " when there is a status. */
  function BuildSummary(data: Data): string {
    var status := Upper(Field(data, "status"));
    var base := SummaryBase(Field(data, "tipo_audiencia_pericia"), Field(data, "cliente"), Field(data, "materia"));
    if status != "" then "[" + status + "] " + base else base
  }

  /**
   * The base is never empty; it names the client and the kind whenever
   * they are given, and falls back to the subject, then to "Compromisso",
   * only when both are missing.
   */
  lemma SummaryBaseChoice(tipo: string, cliente: string, materia: string)
    ensures SummaryBase(tipo, cliente, materia) != ""
    ensures cliente != "" ==> Contains(SummaryBase(tipo, cliente, materia), cliente)
    ensures tipo != "" ==> StartsWith(SummaryBase(tipo, cliente, materia), tipo)
    ensures tipo == "" && cliente == "" && materia != "" ==> SummaryBase(tipo, cliente, materia) == materia
    ensures tipo == "" && cliente == "" && materia == "" ==> SummaryBase(tipo, cliente, materia) == "Compromisso"
  {
    var b := SummaryBase(tipo, cliente, materia);
    if cliente != "" {
      var k := if tipo != "" then |tipo| + 3 else 0;
      assert b[k..k + |cliente|] == cliente;
      assert IsAt(b, k, cliente);
    }
    if tipo != "" {
      assert b[..|tipo|] == tipo;
    }
  }

  /** A status becomes an upper-case bracketed prefix in front of the base; without one the summary is the base. */
  lemma SummaryStatusPrefix(data: Data)
    ensures var status := Upper(Field(data, "status"));
            var base := SummaryBase(Field(data, "tipo_audiencia_pericia"), Field(data, "cliente"), Field(data, "materia"));
            && (status == "" ==> BuildSummary(data) == base)
            && (status != "" ==> (StartsWith(BuildSummary(data), "[" + status + "] ")
                                  && BuildSummary(data)[|status| + 3..] == base))
  {
    var status := Upper(Field(data, "status"));
    var base := SummaryBase(Field(data, "tipo_audiencia_pericia"), Field(data, "cliente"), Field(data, "materia"));
    if status != "" {
      var p := "[" + status + "] ";
      assert BuildSummary(data) == p + base;
      assert (p + base)[..|p|] == p;
      assert (p + base)[|p|..] == base;
    }
  }

  // ---------------------------------------------------------------------------
  // `_build_description`
  // ---------------------------------------------------------------------------

  const SyncLine := "Sincronizado automaticamente pela Planilha de Prazos Geral."

  function IdLine(recordId: int): string { "ID interno da agenda: " + IntToString(recordId) }

  /** One optional line: present only for a non-empty value. */
  function OptLine(title: string, value: string): seq<string> {
    if value == "" then [] else [title + value]
  }

  /** The index line: omitted for None and "", otherwise `str(idx)` unstripped. */
  function IdxLine(idx: Datum): seq<string> {
    match idx
    case Absent => []
    case Str(s) => if s == "" then [] else ["\U{00CD}ndice interno: " + s]
    case Num(n) => ["\U{00CD}ndice interno: " + IntToString(n)]
  }

  /** The optional fields of the description, as (caption, cleaned value), in the order they are appended. */
  function DescribedValues(data: Data): (r: seq<(string, string)>)
    ensures |r| == 8
  {
    [ ("Cliente avisado: ", Field(data, "cliente_avisado")),
      ("Anotado na agenda: ", Field(data, "anotado_na_agenda")),
      ("N\U{00FA}mero do processo: ", Field(data, "numero_processo")),
      ("Tipo: ", Field(data, "tipo_audiencia_pericia")),
      ("Mat\U{00E9}ria: ", Field(data, "materia")),
      ("Parte adversa: ", Field(data, "parte_adversa")),
      ("Observa\U{00E7}\U{00F5}es: ", Field(data, "observacao")),
      ("Origem: ", Field(data, "sistema")) ]
  }

  /** The guarded appends: a line `caption + value` for each non-empty value, in order. */
  function PresentLines(pairs: seq<(string, string)>): seq<string>
    decreases |pairs|
  {
    if pairs == [] then []
    else PresentLines(pairs[..|pairs| - 1]) + OptLine(pairs[|pairs| - 1].0, pairs[|pairs| - 1].1)
  }

  /** The lines of `_build_description`. */
  function DescriptionLines(data: Data, recordId: int): seq<string> {
    PresentLines(DescribedValues(data)) + IdxLine(Get(data, "idx")) + [IdLine(recordId), SyncLine]
  }

  /** `"\n".join(lines)`. */
  function BuildDescription(data: Data, recordId: int): string {
    Join("\n", DescriptionLines(data, recordId))
  }

  /** The lines of earlier fields come before those of later fields. */
  lemma {:induction false} PresentLinesAppend(a: seq<(string, string)>, b: seq<(string, string)>)
    ensures PresentLines(a + b) == PresentLines(a) + PresentLines(b)
    decreases |b|
  {
    if b == [] {
      assert a + b == a;
    } else {
      assert (a + b)[..|a + b| - 1] == a + b[..|b| - 1];
      PresentLinesAppend(a, b[..|b| - 1]);
    }
  }

  /** Exactly one line `caption + value` per non-empty value, and nothing else. */
  lemma {:induction false} PresentLinesMembers(pairs: seq<(string, string)>, line: string)
    ensures |PresentLines(pairs)| <= |pairs|
    ensures line in PresentLines(pairs) <==>
              exists k :: 0 <= k < |pairs| && pairs[k].1 != "" && line == pairs[k].0 + pairs[k].1
    decreases |pairs|
  {
    if pairs != [] {
      var p := pairs[..|pairs| - 1];
      PresentLinesMembers(p, line);
      if exists k :: 0 <= k < |p| && p[k].1 != "" && line == p[k].0 + p[k].1 {
        var k :| 0 <= k < |p| && p[k].1 != "" && line == p[k].0 + p[k].1;
        assert pairs[k] == p[k];
      }
      if exists k :: 0 <= k < |pairs| && pairs[k].1 != "" && line == pairs[k].0 + pairs[k].1 {
        var k :| 0 <= k < |pairs| && pairs[k].1 != "" && line == pairs[k].0 + pairs[k].1;
        if k < |p| {
          assert p[k] == pairs[k];
        }
      }
    }
  }

  /** The last two lines are always the record id and the sync note; at most nine optional lines come before. */
  lemma DescriptionEnds(data: Data, recordId: int)
    ensures var ls := DescriptionLines(data, recordId);
            2 <= |ls| <= 11 && ls[|ls| - 2] == IdLine(recordId) && ls[|ls| - 1] == SyncLine
  {
    PresentLinesMembers(DescribedValues(data), "");
  }

  /** Joining two non-empty runs of lines puts one separator between them. */
  lemma {:induction false} JoinAppend(sep: string, a: seq<string>, b: seq<string>)
    requires a != [] && b != []
    ensures Join(sep, a + b) == Join(sep, a) + sep + Join(sep, b)
    decreases |a|
  {
    if |a| == 1 {
      assert (a + b)[1..] == b;
    } else {
      assert (a + b)[1..] == a[1..] + b;
      JoinAppend(sep, a[1..], b);
    }
  }

  /** Lines followed by two more lines, joined. */
  lemma JoinWithTrailer(head: seq<string>, x: string, y: string)
    ensures Join("\n", head + [x, y]) == (if head == [] then "" else Join("\n", head) + "\n") + x + "\n" + y
  {
    var tail := [x, y];
    assert tail[1..] == [y];
    if head == [] {
      assert head + tail == tail;
    } else {
      JoinAppend("\n", head, tail);
    }
  }

  /** The description text: the optional lines (if any) each followed by a newline, then the id line, a newline and the sync note. */
  lemma DescriptionText(data: Data, recordId: int)
    ensures var head := PresentLines(DescribedValues(data)) + IdxLine(Get(data, "idx"));
            BuildDescription(data, recordId)
              == (if head == [] then "" else Join("\n", head) + "\n") + IdLine(recordId) + "\n" + SyncLine
  {
    JoinWithTrailer(PresentLines(DescribedValues(data)) + IdxLine(Get(data, "idx")), IdLine(recordId), SyncLine);
  }

  // ---------------------------------------------------------------------------
  // `delete_events`
  // ---------------------------------------------------------------------------

  /** What `delete_event` returns: success and an optional message. */
  datatype Outcome = Outcome(success: bool, message: Option<string>)

  /** The messages of the failed deletions, in order. */
  function FailureMessages(rs: seq<Outcome>): seq<Option<string>>
    decreases |rs|
  {
    if rs == [] then []
    else FailureMessages(rs[..|rs| - 1]) + (if rs[|rs| - 1].success then [] else [rs[|rs| - 1].message])
  }

  /** The combined outcome: (True, None) with no failure, else False with the last failure's message. */
  function Combined(rs: seq<Outcome>): Outcome {
    var fs := FailureMessages(rs);
    if fs == [] then Outcome(true, None) else Outcome(false, fs[|fs| - 1])
  }

  function Deletions(ids: seq<int>, deleteEvent: int -> Outcome): (rs: seq<Outcome>)
    ensures |rs| == |ids| && forall k :: 0 <= k < |ids| ==> rs[k] == deleteEvent(ids[k])
  {
    seq(|ids|, k requires 0 <= k < |ids| => deleteEvent(ids[k]))
  }

  /** There are no failure messages exactly when every deletion succeeded. */
  lemma {:induction false} NoFailuresIffAllSucceed(rs: seq<Outcome>)
    ensures FailureMessages(rs) == [] <==> forall k :: 0 <= k < |rs| ==> rs[k].success
    decreases |rs|
  {
    if rs != [] {
      var p := rs[..|rs| - 1];
      NoFailuresIffAllSucceed(p);
      assert forall k :: 0 <= k < |p| ==> p[k] == rs[k];
    }
  }

  /** A failure message comes from the last failed deletion: every deletion after it succeeded. */
  lemma {:induction false} LastFailure(rs: seq<Outcome>)
    requires FailureMessages(rs) != []
    ensures exists k :: 0 <= k < |rs| && !rs[k].success
              && rs[k].message == FailureMessages(rs)[|FailureMessages(rs)| - 1]
              && forall j :: k < j < |rs| ==> rs[j].success
    decreases |rs|
  {
    var p := rs[..|rs| - 1];
    var last := rs[|rs| - 1];
    if last.success {
      assert FailureMessages(rs) == FailureMessages(p);
      LastFailure(p);
      var k :| 0 <= k < |p| && !p[k].success && p[k].message == FailureMessages(p)[|FailureMessages(p)| - 1]
                && forall j :: k < j < |p| ==> p[j].success;
      assert rs[k] == p[k];
      assert forall j :: k < j < |rs| ==> rs[j].success by {
        forall j | k < j < |rs| ensures rs[j].success {
          if j < |p| { assert rs[j] == p[j]; }
        }
      }
    } else {
      assert !rs[|rs| - 1].success;
    }
  }

  /** `delete_events` succeeds iff every deletion does, and otherwise reports the last failure's message. */
  lemma CombinedSpec(rs: seq<Outcome>)
    ensures Combined(rs).success <==> forall k :: 0 <= k < |rs| ==> rs[k].success
    ensures Combined(rs).success ==> Combined(rs).message.None?
    ensures !Combined(rs).success ==>
              exists k :: 0 <= k < |rs| && !rs[k].success && rs[k].message == Combined(rs).message
                && forall j :: k < j < |rs| ==> rs[j].success
  {
    NoFailuresIffAllSucceed(rs);
    if FailureMessages(rs) != [] {
      LastFailure(rs);
    }
  }

  /**
   * `delete_events`: deletes every id through the calendar oracle and
   * combines the outcomes (see `CombinedSpec`).
   */
  method DeleteEvents(ids: seq<int>, deleteEvent: int -> Outcome) returns (ok: bool, message: Option<string>)
    ensures Outcome(ok, message) == Combined(Deletions(ids, deleteEvent))
  {
    ghost var rs := Deletions(ids, deleteEvent);
    var anyFailure := false;
    var lastMessage: Option<string> := None;
    for k := 0 to |ids|
      invariant anyFailure <==> FailureMessages(rs[..k]) != []
      invariant anyFailure ==> lastMessage == FailureMessages(rs[..k])[|FailureMessages(rs[..k])| - 1]
    {
      var r := deleteEvent(ids[k]);
      assert rs[..k + 1][..k] == rs[..k] && rs[k] == r;
      if !r.success {
        anyFailure := true;
        lastMessage := r.message;
      }
    }
    assert rs[..|ids|] == rs;
    if anyFailure {
      ok, message := false, lastMessage;
    } else {
      ok, message := true, None;
    }
  }
}
