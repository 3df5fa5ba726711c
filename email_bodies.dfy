/**
 * The per-sender body parsers of the e-mail importer: the TRT1/TRT-SP and
 * TRF2 notices (process number and event text after fixed labels), the
 * Recorte Digital clipping (one record per "Publicação:" block) and the
 * PMF Gestão appointment letter (date, time, client and service type).
 */
module EmailBodies {
  import opened Wrappers
  import opened Strings
  import opened EmailText
  import opened EmailNames

  // ---------------------------------------------------------------------------
  // The body as one line
  // ---------------------------------------------------------------------------

  /** The characters at which `str.splitlines` breaks a line. */
  const LineBreaks: set<char> := {
    '\n', '\r', '\U{000B}', '\U{000C}', '\U{001C}', '\U{001D}', '\U{001E}', '\U{0085}', '\U{2028}', '\U{2029}'
  }

  predicate NoBreak(s: string) {
    forall m :: 0 <= m < |s| ==> s[m] !in LineBreaks
  }

  /** The first line break at or after `i`, or `|s|`. */
  function BreakFrom(s: string, i: nat): (k: nat)
    requires i <= |s|
    ensures i <= k <= |s|
    ensures forall m :: i <= m < k ==> s[m] !in LineBreaks
    ensures k < |s| ==> s[k] in LineBreaks
    decreases |s| - i
  {
    if i == |s| || s[i] in LineBreaks then i else BreakFrom(s, i + 1)
  }

  /**
   * `s.splitlines()`, except that "\r\n" gives an extra empty piece and a
   * final break an empty last piece; every caller drops blank pieces.
   */
  function SplitLines(s: string): (r: seq<string>)
    ensures forall k :: 0 <= k < |r| ==> NoBreak(r[k])
    decreases |s|
  {
    var k := BreakFrom(s, 0);
    if k == |s| then [s] else [s[..k]] + SplitLines(s[k + 1..])
  }

  /** `[l.strip() for l in lines if l.strip()]`. */
  function StrippedLines(lines: seq<string>): (r: seq<string>)
    ensures forall k :: 0 <= k < |r| ==> r[k] != ""
    decreases |lines|
  {
    if lines == [] then []
    else
      var rest := StrippedLines(lines[1..]);
      if Strip(lines[0]) == "" then rest else [Strip(lines[0])] + rest
  }

  /** `" ".join(linha.strip() for linha in corpo.splitlines() if linha.strip())`. */
  function Flatten(corpo: string): string {
    Join(" ", StrippedLines(SplitLines(corpo)))
  }

  lemma StripNoBreak(s: string)
    requires NoBreak(s)
    ensures NoBreak(Strip(s))
  {
    StripSetShape(s, Whitespace);
  }

  lemma {:induction false} StrippedLinesNoBreak(lines: seq<string>)
    requires forall k :: 0 <= k < |lines| ==> NoBreak(lines[k])
    ensures forall k :: 0 <= k < |StrippedLines(lines)| ==> NoBreak(StrippedLines(lines)[k])
    decreases |lines|
  {
    if lines != [] {
      StrippedLinesNoBreak(lines[1..]);
      StripNoBreak(lines[0]);
    }
  }

  lemma {:induction false} JoinSpaceNoBreak(parts: seq<string>)
    requires forall k :: 0 <= k < |parts| ==> NoBreak(parts[k])
    ensures NoBreak(Join(" ", parts))
    decreases |parts|
  {
    if |parts| > 1 {
      JoinSpaceNoBreak(parts[1..]);
      var t := Join(" ", parts[1..]);
      var j := parts[0] + " " + t;
      forall m | 0 <= m < |j| ensures j[m] !in LineBreaks {
        if m < |parts[0]| {
          assert j[m] == parts[0][m];
        } else if m > |parts[0]| {
          assert j[m] == t[m - |parts[0]| - 1];
        }
      }
    }
  }

  /** The flattened body is a single line: no line-break character is left in it. */
  lemma FlattenIsOneLine(corpo: string)
    ensures NoBreak(Flatten(corpo))
  {
    StrippedLinesNoBreak(SplitLines(corpo));
    JoinSpaceNoBreak(StrippedLines(SplitLines(corpo)));
  }

  // ---------------------------------------------------------------------------
  // processar_corpo_trt1 / processar_corpo_trf2
  // ---------------------------------------------------------------------------

  const NumberLabel := "n\U{00FA}mero do processo:"
  const EventsLabel := "eventos:"
  const EventLabel := "evento:"

  /** The end markers of the TRT1 event text, tried in this order. */
  const Trt1Markers: seq<string> := ["Para acessar", "https://", "ATEN\U{00C7}\U{00C3}O"]

  /** The end markers of the TRF2 event text, tried in this order. */
  const Trf2Markers: seq<string> := ["Nome da(s) Parte(s):", "\U{00D3}rg\U{00E3}o Julgador:"]

  /**
   * `texto[idx + len(tag):].lstrip()` where `idx` is the first occurrence
   * of `tag` in `texto.lower()`, or None when the lower-cased text lacks it.
   */
  function LabelTail(texto: string, tag: string): (r: Option<string>)
    ensures r.None? <==> !Contains(Lower(texto), tag)
  {
    var tl := Lower(texto);
    var idx := Find(tl, tag);
    if idx == -1 then None else Some(LStrip(texto[idx + |tag|..]))
  }

  /** The characters a process number is read from. */
  const NumberChars: set<char> := {'0', '1', '2', '3', '4', '5', '6', '7', '8', '9', '-', '.'}

  /** The longest prefix of `s` made of `NumberChars`. */
  function NumberRun(s: string): (r: string)
    ensures |r| <= |s| && r == s[..|r|]
    ensures forall i :: 0 <= i < |r| ==> r[i] in NumberChars
    ensures |r| < |s| ==> s[|r|] !in NumberChars
    decreases |s|
  {
    if s == [] || s[0] !in NumberChars then [] else [s[0]] + NumberRun(s[1..])
  }

  /** The loop `for c in parte: if c in "0123456789-.": num += c else: break`. */
  method TakeNumber(parte: string) returns (num: string)
    ensures num == NumberRun(parte)
  {
    num := "";
    var i := 0;
    while i < |parte| && parte[i] in NumberChars
      invariant i <= |parte| && num == parte[..i]
      invariant forall k :: 0 <= k < i ==> parte[k] in NumberChars
      decreases |parte| - i
    {
      assert parte[..i + 1] == num + [parte[i]];
      num := num + [parte[i]];
      i := i + 1;
    }
    NumberRunIsPrefix(parte, i);
  }

  /** A prefix of number characters that the text ends or breaks after is the run. */
  lemma NumberRunIsPrefix(s: string, i: nat)
    requires i <= |s| && (i == |s| || s[i] !in NumberChars)
    requires forall k :: 0 <= k < i ==> s[k] in NumberChars
    ensures NumberRun(s) == s[..i]
  {
  }

  /** The number is kept only when it has both a dash and a dot. */
  function KeepNumber(num: string): string {
    if '-' in num && '.' in num then num else ""
  }

  /** The process number of a flattened TRT1 or TRF2 body. */
  function NumeroField(texto: string): string {
    match LabelTail(texto, NumberLabel)
    case None => ""
    case Some(p) => KeepNumber(NumberRun(p))
  }

  /**
   * The process number is empty or it is the whole run of number characters
   * that directly follows the tag, and holds both a dash and a dot; a run
   * that has both is always kept.
   */
  lemma NumeroFieldSpec(texto: string)
    ensures !Contains(Lower(texto), NumberLabel) ==> NumeroField(texto) == ""
    ensures NumeroField(texto) != "" ==> '-' in NumeroField(texto) && '.' in NumeroField(texto)
    ensures forall i :: 0 <= i < |NumeroField(texto)| ==> NumeroField(texto)[i] in NumberChars
    ensures LabelTail(texto, NumberLabel).Some? ==>
      var p := LabelTail(texto, NumberLabel).value;
      var r := NumeroField(texto);
      (r == "" || (r == p[..|r|] && (|r| < |p| ==> p[|r|] !in NumberChars))) &&
      ('-' in NumberRun(p) && '.' in NumberRun(p) ==> r == NumberRun(p))
  {
  }

  /** End markers are non-empty words. */
  predicate Markers(markers: seq<string>) {
    forall k :: 0 <= k < |markers| ==> |markers[k]| > 0
  }

  /** No marker before the `k`-th occurs in `parte`. */
  predicate FirstFound(parte: string, markers: seq<string>, k: nat) {
    forall j :: 0 <= j < k <= |markers| ==> !Contains(parte, markers[j])
  }

  /**
   * `parte[:fim]` where `fim` is the first occurrence of the first marker
   * that occurs at all, trying `markers` in order; all of `parte` when none does.
   */
  function CutAtFirst(parte: string, markers: seq<string>): (r: string)
    requires Markers(markers)
    ensures |r| <= |parte| && r == parte[..|r|]
    ensures markers != [] ==> !Contains(r, markers[0])
    ensures r == parte || exists k :: 0 <= k < |markers| && IsAt(parte, |r|, markers[k])
    ensures (forall k :: 0 <= k < |markers| ==> !Contains(parte, markers[k])) ==> r == parte
    ensures forall k :: 0 <= k < |markers| && Contains(parte, markers[k]) && FirstFound(parte, markers, k) ==>
      r == parte[..Find(parte, markers[k])]
    decreases |markers|
  {
    if markers == [] then parte
    else
      var f := Find(parte, markers[0]);
      if f == -1 then
        var r := CutAtFirst(parte, markers[1..]);
        assert !Contains(r, markers[0]) by {
          if Contains(r, markers[0]) {
            ContainsInPart(parte, 0, |r|, markers[0]);
          }
        }
        r
      else
        NotInPrefixBeforeFirst(parte, markers[0], f);
        parte[..f]
  }

  /** The event text of a flattened body, after `tag`, cut at the first marker found. */
  function EventosField(texto: string, tag: string, markers: seq<string>): string
    requires Markers(markers)
  {
    match LabelTail(texto, tag)
    case None => ""
    case Some(p) => Strip(CutAtFirst(p, markers))
  }

  /** What `strip` keeps is a slice, so it holds no word the text lacked. */
  lemma StripKeepsOut(s: string, w: string)
    requires !Contains(s, w)
    ensures !Contains(Strip(s), w)
  {
    StripSetShape(s, Whitespace);
    var i, j :| 0 <= i <= j <= |s| && Strip(s) == s[i..j];
    if Contains(s[i..j], w) {
      ContainsInPart(s, i, j, w);
    }
  }

  /**
   * The event text is empty without the tag; otherwise it is stripped, it
   * never holds the first end marker, and it is the text after the tag cut
   * at the first occurrence of the first marker that occurs at all, trying
   * the markers in order, or not cut when none occurs.
   */
  lemma EventosFieldSpec(texto: string, tag: string, markers: seq<string>)
    requires markers != [] && Markers(markers)
    ensures !Contains(Lower(texto), tag) ==> EventosField(texto, tag, markers) == ""
    ensures !Contains(EventosField(texto, tag, markers), markers[0])
    ensures StripSet(EventosField(texto, tag, markers), Whitespace) == EventosField(texto, tag, markers)
    ensures LabelTail(texto, tag).Some? ==>
      var p := LabelTail(texto, tag).value;
      var c := CutAtFirst(p, markers);
      EventosField(texto, tag, markers) == Strip(c) &&
      (c == p || exists k :: 0 <= k < |markers| && IsAt(p, |c|, markers[k])) &&
      ((forall k :: 0 <= k < |markers| ==> !Contains(p, markers[k])) ==> EventosField(texto, tag, markers) == Strip(p)) &&
      (forall k :: 0 <= k < |markers| && Contains(p, markers[k]) && FirstFound(p, markers, k) ==>
        EventosField(texto, tag, markers) == Strip(p[..Find(p, markers[k])]))
  {
    match LabelTail(texto, tag)
    case None =>
    case Some(p) =>
      var c := CutAtFirst(p, markers);
      StripKeepsOut(c, markers[0]);
      StripSetIdempotent(c, Whitespace);
  }

  /** `processar_corpo_trt1(corpo)` (also `processar_corpo_trtsp`), with its digit loop. */
  method ProcessarCorpoTrt1(corpo: string) returns (numero: string, eventos: string)
    ensures numero == NumeroField(Flatten(corpo))
    ensures eventos == EventosField(Flatten(corpo), EventsLabel, Trt1Markers)
    ensures numero == "" || ('-' in numero && '.' in numero)
    ensures !Contains(eventos, Trt1Markers[0])
  {
    var texto := Flatten(corpo);
    numero := "";
    var tail := LabelTail(texto, NumberLabel);
    if tail.Some? {
      var num := TakeNumber(tail.value);
      numero := KeepNumber(num);
    }
    eventos := EventosField(texto, EventsLabel, Trt1Markers);
    NumeroFieldSpec(texto);
    EventosFieldSpec(texto, EventsLabel, Trt1Markers);
  }

  /** `processar_corpo_trf2(corpo)`, with its digit loop. */
  method ProcessarCorpoTrf2(corpo: string) returns (numero: string, eventos: string)
    ensures numero == NumeroField(Flatten(corpo))
    ensures eventos == EventosField(Flatten(corpo), EventLabel, Trf2Markers)
    ensures numero == "" || ('-' in numero && '.' in numero)
    ensures !Contains(eventos, Trf2Markers[0])
  {
    var texto := Flatten(corpo);
    numero := "";
    var tail := LabelTail(texto, NumberLabel);
    if tail.Some? {
      var num := TakeNumber(tail.value);
      numero := KeepNumber(num);
    }
    eventos := EventosField(texto, EventLabel, Trf2Markers);
    NumeroFieldSpec(texto);
    EventosFieldSpec(texto, EventLabel, Trf2Markers);
  }
}
