/**
 * The label-anchored name extractors of the e-mail reader: the name after
 * "Polo Ativo:" in a publication, and the client names after the
 * author/claimant labels of a court notice, de-duplicated in order.
 */
module EmailNames {
  import opened Wrappers
  import opened Strings
  import opened Dedup
  import opened EmailText

  // ---------------------------------------------------------------------------
  // _collapse_spaces
  // ---------------------------------------------------------------------------

  /** `" ".join(s.replace("\r", " ").replace("\n", " ").split())`. */
  function CollapseText(s: string): string {
    CollapseSpaces(Replace(Replace(s, "\r", " "), "\n", " "))
  }

  /** The collapsed text is single-spaced and keeps every non-whitespace character, in order. */
  lemma CollapseTextShape(s: string)
    ensures SingleSpaced(CollapseText(s))
    ensures NonSpace(CollapseText(s)) == NonSpace(s)
  {
    var s1 := Replace(s, "\r", " ");
    var s2 := Replace(s1, "\n", " ");
    assert IsSpace('\r') && IsSpace('\n') && IsSpace(' ');
    NonSpaceReplaceSpace(s, '\r', ' ');
    NonSpaceReplaceSpace(s1, '\n', ' ');
    CollapseSpacesShape(s2);
  }

  // ---------------------------------------------------------------------------
  // extrair_nome_polo_ativo_publicacao
  // ---------------------------------------------------------------------------

  const PoloKey := "polo ativo:"

  /** The lower-case labels that end the name. */
  const PoloStops: seq<string> := [
    " polo passivo:", " advogado:", " intimacao", " despacho", " ato ordinatorio",
    " classe:", " autor:", " reu:", " parte autora:", " lista de distribuicao",
    " decis\U{00E3}o", " decisao"
  ]

  /** The characters `strip(" -–—.")` removes from both ends of the name. */
  const NameEdge: set<char> := {' ', '-', '\U{2013}', '\U{2014}', '.'}

  /** The endings the clean-up loop removes one at a time. */
  const TrailMarks: set<char> := {'.', '-', '\U{2013}', '\U{2014}'}

  predicate StopAt(tl: string, j: int) {
    exists k :: 0 <= k < |PoloStops| && IsAt(tl, j, PoloStops[k])
  }

  /** The first index from `i` on that is not a space (the `while t[i] == " "` loop). */
  function SkipSpaces(t: string, i: nat): (r: nat)
    requires i <= |t|
    ensures i <= r <= |t|
    ensures forall k :: i <= k < r ==> t[k] == ' '
    ensures r < |t| ==> t[r] != ' '
    decreases |t| - i
  {
    if i < |t| && t[i] == ' ' then SkipSpaces(t, i + 1) else i
  }

  /** The first index from `j` on where a stop label starts, or the length. */
  function NextStop(tl: string, j: nat): (r: nat)
    requires j <= |tl|
    ensures j <= r <= |tl|
    ensures forall k :: j <= k < r ==> !StopAt(tl, k)
    ensures r < |tl| ==> StopAt(tl, r)
    decreases |tl| - j
  {
    if j < |tl| && !StopAt(tl, j) then NextStop(tl, j + 1) else j
  }

  /** The clean-up loop: drop one trailing mark and strip, while a mark ends the name. */
  function TrimTail(nome: string): (r: string)
    ensures r == [] || r[|r| - 1] !in TrailMarks
    decreases |nome|
  {
    if nome != [] && nome[|nome| - 1] in TrailMarks then
      var shorter := nome[..|nome| - 1];
      StripSetShape(shorter, Whitespace);
      TrimTail(Strip(shorter))
    else
      nome
  }

  /** The raw slice the name is cut from: from the label's end and the following spaces to the first stop label. */
  function PoloBounds(t: string): (r: (nat, nat))
    ensures r.0 <= r.1 <= |t|
    ensures forall k :: r.0 <= k < r.1 ==> !StopAt(Lower(t), k)
  {
    var tl := Lower(t);
    var k := FindAfter(tl, PoloKey, 0);
    if k == -1 then (0, 0)
    else
      var i := SkipSpaces(t, k);
      (i, NextStop(tl, i))
  }

  /** `extrair_nome_polo_ativo_publicacao(texto)`. */
  function PoloAtivoName(texto: string): string {
    if texto == "" then ""
    else
      var t := CollapseText(texto);
      if FindAfter(Lower(t), PoloKey, 0) == -1 then ""
      else
        var (i, j) := PoloBounds(t);
        TrimTail(StripSet(t[i..j], NameEdge))
  }

  /** `extrair_nome_polo_ativo_publicacao(texto)`, as the scanning loops compute it. */
  method ExtractPoloAtivo(texto: string) returns (nome: string)
    ensures nome == PoloAtivoName(texto)
  {
    if texto == "" {
      return "";
    }
    var t := CollapseText(texto);
    var tl := Lower(t);
    var i := FindAfter(tl, PoloKey, 0);
    if i == -1 {
      return "";
    }
    ghost var k := i;
    while i < |t| && t[i] == ' '
      invariant k <= i <= |t|
      invariant SkipSpaces(t, i) == SkipSpaces(t, k)
      decreases |t| - i
    {
      i := i + 1;
    }
    var j := i;
    while j < |t|
      invariant i <= j <= |t|
      invariant NextStop(tl, j) == NextStop(tl, i)
      decreases |t| - j
    {
      if StopAt(tl, j) {
        break;
      }
      j := j + 1;
    }
    nome := StripSet(t[i..j], NameEdge);
    while nome != [] && nome[|nome| - 1] in TrailMarks
      invariant TrimTail(nome) == TrimTail(StripSet(t[i..j], NameEdge))
      decreases |nome|
    {
      nome := Strip(nome[..|nome| - 1]);
    }
  }

  /** Without the label there is no name. */
  lemma PoloAtivoNeedsLabel(texto: string)
    requires !Contains(Lower(CollapseText(texto)), PoloKey)
    ensures PoloAtivoName(texto) == ""
  {
  }

  /**
   * `strip(" -–—.")` already removes every mark the clean-up loop looks
   * for, so that loop never runs and the name is the stripped slice.
   */
  lemma TrimTailIdle(s: string)
    ensures TrimTail(StripSet(s, NameEdge)) == StripSet(s, NameEdge)
  {
    StripSetShape(s, NameEdge);
  }

  lemma LowerSlice(t: string, a: nat, b: nat)
    requires a <= b <= |t|
    ensures Lower(t[a..b]) == Lower(t)[a..b]
  {
  }

  /**
   * The name is a piece of the collapsed text between the label and the
   * first stop label, it does not start or end with a space, dash or dot,
   * and no stop label occurs in it (ignoring case).
   */
  lemma PoloAtivoShape(texto: string)
    ensures var r := PoloAtivoName(texto);
      r == [] || (r[0] !in NameEdge && r[|r| - 1] !in NameEdge)
    ensures forall s :: 0 <= s < |PoloStops| ==> !Contains(Lower(PoloAtivoName(texto)), PoloStops[s])
    ensures PoloAtivoName(texto) != "" ==>
      exists a, b :: 0 <= a <= b <= |CollapseText(texto)| && PoloAtivoName(texto) == CollapseText(texto)[a..b]
  {
    var r := PoloAtivoName(texto);
    var t := CollapseText(texto);
    if texto == "" || FindAfter(Lower(t), PoloKey, 0) == -1 {
      assert r == "";
      NoStopInside("", 0, 0, 0, 0);
    } else {
      var (i, j) := PoloBounds(t);
      TrimTailIdle(t[i..j]);
      assert r == StripSet(t[i..j], NameEdge);
      StrippedPiece(t, i, j);
    }
  }

  /** The stripped piece between two indices no stop label starts between. */
  lemma StrippedPiece(t: string, i: nat, j: nat)
    requires i <= j <= |t|
    requires forall k :: i <= k < j ==> !StopAt(Lower(t), k)
    ensures var r := StripSet(t[i..j], NameEdge);
      && (r == [] || (r[0] !in NameEdge && r[|r| - 1] !in NameEdge))
      && (forall s :: 0 <= s < |PoloStops| ==> !Contains(Lower(r), PoloStops[s]))
      && exists a, b :: 0 <= a <= b <= |t| && r == t[a..b]
  {
    StripSetShape(t[i..j], NameEdge);
    var a, b := StrippedBounds(t, i, j);
    LowerSlice(t, a, b);
    NoStopInside(Lower(t), i, j, a, b);
  }

  /** Where the stripped piece lies in the whole text. */
  lemma StrippedBounds(t: string, i: nat, j: nat) returns (a: nat, b: nat)
    requires i <= j <= |t|
    ensures i <= a <= b <= j && StripSet(t[i..j], NameEdge) == t[a..b]
  {
    var x := t[i..j];
    StripSetShape(x, NameEdge);
    var a', b' :| 0 <= a' <= b' <= |x| && StripSet(x, NameEdge) == x[a'..b'];
    SliceOfSlice(t, i, j, a', b');
    a, b := i + a', i + b';
  }

  /** No stop label occurs inside a stretch that no stop label starts in. */
  lemma NoStopInside(tl: string, i: nat, j: nat, a: nat, b: nat)
    requires i <= a <= b <= j <= |tl|
    requires forall k :: i <= k < j ==> !StopAt(tl, k)
    ensures forall s :: 0 <= s < |PoloStops| ==> !Contains(tl[a..b], PoloStops[s])
  {
    var x := tl[a..b];
    forall s | 0 <= s < |PoloStops| ensures !Contains(x, PoloStops[s]) {
      var w := PoloStops[s];
      forall m | 0 <= m <= |x| - |w| ensures !IsAt(x, m, w) {
        assert !StopAt(tl, a + m);
        SliceOfSlice(tl, a, b, m, m + |w|);
      }
    }
  }

  // ---------------------------------------------------------------------------
  // Labels shared by the two client-name extractors
  // ---------------------------------------------------------------------------

  /** The labels that introduce the author's names (order does not matter: any match counts). */
  const HeaderLabels: seq<string> := ["autor:", "autora:", "parte autora:", "reclamante:"]

  /** The labels that end the look-ahead without a name. */
  const EndLabels: set<string> := {
    "advogados do autor:", "advogados do r\U{00E9}u:", "advogados do reu:", "r\U{00E9}u:", "reu:",
    "classe judicial:", "\U{00F3}rg\U{00E3}o julgador:", "orgao julgador:", "eventos:",
    "n\U{00FA}mero do processo:", "numero do processo:", "data de autua\U{00E7}\U{00E3}o:", "data de autuacao:"
  }

  /** `normalize(s)` and `norm(s)`: folded to ASCII, lower-case, stripped. */
  function NormKey(s: string): string { Strip(Normalize(s)) }

  /** The folded line is one of the end labels. */
  predicate IsEndLabel(line: string) { NormKey(line) in EndLabels }

  /** `any(s == h or s.startswith(h) for h in labels)`. */
  predicate StartsWithAny(s: string, labels: seq<string>)
    decreases |labels|
  {
    labels != [] && (StartsWith(s, labels[0]) || StartsWithAny(s, labels[1..]))
  }

  /** The folded line equals or starts with one of the labels. */
  predicate IsHeaderLine(line: string) {
    StartsWithAny(NormKey(line), HeaderLabels)
  }

  /** The first header line at or after `i`, or the number of lines. */
  function FirstHeader(lines: seq<string>, i: nat): (r: nat)
    requires i <= |lines|
    ensures i <= r <= |lines|
    ensures r < |lines| ==> IsHeaderLine(lines[r])
    ensures forall k :: i <= k < r ==> !IsHeaderLine(lines[k])
  {
    FirstMarked(HeaderMarks(lines), i)
  }

  /** Whether each line is a header line. */
  function HeaderMarks(lines: seq<string>): (ms: seq<bool>)
    ensures |ms| == |lines| && forall k :: 0 <= k < |lines| ==> ms[k] == IsHeaderLine(lines[k])
  {
    seq(|lines|, k requires 0 <= k < |lines| => IsHeaderLine(lines[k]))
  }

  /** `line.split(":", 1)[1].strip()` when the line has a colon, else "". */
  function InlineValue(line: string): string {
    if Contains(line, ":") then Strip(AfterFirst(line, ":")) else ""
  }

  /** The first line at or after `j` and before `stop` that is not blank, or `stop`. */
  function FirstNonBlank(lines: seq<string>, j: nat, stop: nat): (k: nat)
    requires j <= stop <= |lines|
    ensures j <= k <= stop
    ensures forall m :: j <= m < k ==> Strip(lines[m]) == ""
    ensures k < stop ==> Strip(lines[k]) != ""
    decreases stop - j
  {
    if j == stop || Strip(lines[j]) != "" then j else FirstNonBlank(lines, j + 1, stop)
  }

  /**
   * The look-ahead over `lines[j..stop]`: the first non-blank line,
   * stripped, unless it is an end label, in which case there is no name.
   */
  function LookAhead(lines: seq<string>, j: nat, stop: nat): (r: string)
    requires j <= stop <= |lines|
    ensures r != "" ==> !IsEndLabel(r)
  {
    var k := FirstNonBlank(lines, j, stop);
    if k == stop || IsEndLabel(Strip(lines[k])) then "" else Strip(lines[k])
  }

  function Min(a: int, b: int): int { if a <= b then a else b }

  /** The value of header line `i` (its text `line`): after the colon, else from the next `reach - 1` lines. */
  function Candidate(line: string, lines: seq<string>, i: nat, reach: nat): string
    requires i < |lines| && reach >= 1
  {
    var c := InlineValue(line);
    if c != "" then c else LookAhead(lines, i + 1, Min(i + reach, |lines|))
  }

  /** The look-ahead loop of both extractors: `while not val and j < stop`, stopping at the first non-blank line. */
  method ScanAhead(lines: seq<string>, i: nat, stop: nat) returns (val: string)
    requires i < stop <= |lines|
    ensures val == LookAhead(lines, i + 1, stop)
  {
    var j := i + 1;
    while j < stop
      invariant i + 1 <= j <= stop
      invariant FirstNonBlank(lines, j, stop) == FirstNonBlank(lines, i + 1, stop)
      decreases stop - j
    {
      var nxt := Strip(lines[j]);
      if nxt != "" {
        if IsEndLabel(nxt) {
          return "";
        }
        return nxt;
      }
      j := j + 1;
    }
    return "";
  }

  // ---------------------------------------------------------------------------
  // extract_client_names_trt1
  // ---------------------------------------------------------------------------

  /** `re.sub(r"\s+", " ", s)`: every run of whitespace becomes one space. */
  function SubSpaces(s: string): (r: string)
    ensures forall k :: 0 <= k < |r| ==> (IsSpace(r[k]) ==> r[k] == ' ') && (r[k] != ' ' ==> r[k] in s)
    decreases |s|
  {
    if s == [] then []
    else if IsSpace(s[0]) then
      var rest := LStrip(s);
      LStripSetSuffix(s, Whitespace);
      assert forall k :: 0 <= k < |rest| ==> rest[k] == s[|s| - |rest| + k];
      " " + SubSpaces(rest)
    else
      assert forall k :: 0 <= k < |s| - 1 ==> s[1..][k] == s[k + 1];
      [s[0]] + SubSpaces(s[1..])
  }

  const DashEdge: set<char> := {' ', '-', '\U{2013}', '\U{2014}', '\t'}
  const NameTail: set<char> := {' ', '.', ';', ':'}

  /** `clean_name(s)`: whitespace runs to one space, then dashes and the punctuation trimmed off both ends. */
  function CleanName(s: string): (r: string)
    ensures r == [] || (r[0] !in NameTail && r[|r| - 1] !in NameTail)
    ensures forall k :: 0 <= k < |r| ==> r[k] != ' ' ==> r[k] in s
  {
    var a := SubSpaces(s);
    var b := StripSet(a, DashEdge);
    var r := StripSet(b, NameTail);
    StripSetShape(b, NameTail);
    SubSpacesChars(s);
    CharsOfStrip(a, DashEdge);
    CharsOfStrip(b, NameTail);
    assert forall k :: 0 <= k < |r| ==> r[k] in r;
    r
  }

  lemma SubSpacesChars(s: string)
    ensures forall c :: c in SubSpaces(s) && c != ' ' ==> c in s
  {
    var a := SubSpaces(s);
    forall c | c in a && c != ' ' ensures c in s {
      var j :| 0 <= j < |a| && a[j] == c;
    }
  }

  lemma CharsOfStrip(s: string, cs: set<char>)
    ensures forall c :: c in StripSet(s, cs) ==> c in s
  {
    StripSetShape(s, cs);
    var t := StripSet(s, cs);
    var a, b :| 0 <= a <= b <= |s| && t == s[a..b];
    forall c | c in t ensures c in s {
      var k :| 0 <= k < |t| && t[k] == c;
      assert t[k] == s[a + k];
    }
  }

  /** `[clean_name(x) for x in parts if clean_name(x)]`. */
  function CleanedParts(parts: seq<string>): (r: seq<string>)
    ensures forall k :: 0 <= k < |r| ==> r[k] != ""
    ensures forall k :: 0 <= k < |r| ==> exists q :: 0 <= q < |parts| && r[k] == CleanName(parts[q])
    decreases |parts|
  {
    if parts == [] then []
    else
      var rest := CleanedParts(parts[1..]);
      assert forall q :: 0 <= q < |parts| - 1 ==> parts[1..][q] == parts[q + 1];
      var c := CleanName(parts[0]);
      if c != "" then [c] + rest else rest
  }

  /** The names `extract_client_names_trt1` joins: those of the first header line only. */
  function TrtNameList(body: string): seq<string> {
    FirstOnes(TrtPieces(body), NormKey)
  }

  lemma TrtPiecesNonEmpty(body: string)
    ensures forall k :: 0 <= k < |TrtPieces(body)| ==> TrtPieces(body)[k] != ""
  {
    if Strip(body) != "" {
      var lines := Split(RemoveCR(body), "\n");
      var i := FirstHeader(lines, 0);
      if i < |lines| {
        var c := CleanName(Candidate(lines[i], lines, i, 6));
        if c != "" {
          assert TrtPieces(body) == CleanedParts(Split(c, ";"));
        }
      }
    }
  }

  /** The cleaned, non-empty pieces of the first header line's value, repeats included. */
  function TrtPieces(body: string): seq<string> {
    if Strip(body) == "" then []
    else
      var lines := Split(RemoveCR(body), "\n");
      var i := FirstHeader(lines, 0);
      if i == |lines| then []
      else
        var c := CleanName(Candidate(lines[i], lines, i, 6));
        if c == "" then [] else CleanedParts(Split(c, ";"))
  }

  /** `extract_client_names_trt1(body)`. */
  function ClientNamesTrt1(body: string): string {
    Join("; ", TrtNameList(body))
  }

  /** `extract_client_names_trt1(body)`, with its line loop, look-ahead loop and `seen`-set loop. */
  method ExtractClientNamesTrt1(body: string) returns (r: string)
    ensures r == ClientNamesTrt1(body)
  {
    if Strip(body) == "" {
      return "";
    }
    var lines := Split(RemoveCR(body), "\n");
    for i := 0 to |lines|
      invariant FirstHeader(lines, i) == FirstHeader(lines, 0)
    {
      var line := lines[i];
      if IsHeaderLine(line) {
        var candidate := InlineValue(line);
        if candidate == "" {
          candidate := ScanAhead(lines, i, Min(i + 6, |lines|));
        }
        candidate := CleanName(candidate);
        if candidate == "" {
          return "";
        }
        var names := CleanedParts(Split(candidate, ";"));
        var ordered := DedupByKey(names);
        return Join("; ", ordered);
      }
    }
    return "";
  }

  /** The `seen`-set loop: keep each name whose folded form is new. */
  method DedupByKey(names: seq<string>) returns (ordered: seq<string>)
    ensures ordered == FirstOnes(names, NormKey)
  {
    var seen: set<string> := {};
    ordered := [];
    for k := 0 to |names|
      invariant seen == KeySet(names[..k], NormKey)
      invariant ordered == FirstOnes(names[..k], NormKey)
    {
      assert names[..k + 1] == names[..k] + [names[k]];
      KeySetSnoc(names[..k], names[k], NormKey);
      FirstOnesSnoc(names[..k], names[k], NormKey);
      var key := NormKey(names[k]);
      if key !in seen {
        seen := seen + {key};
        ordered := ordered + [names[k]];
      }
    }
    assert names[..|names|] == names;
  }

  /** Without a header line there are no names. */
  lemma ClientNamesNeedHeader(body: string)
    requires forall k :: 0 <= k < |Split(RemoveCR(body), "\n")| ==> !IsHeaderLine(Split(RemoveCR(body), "\n")[k])
    ensures ClientNamesTrt1(body) == ""
  {
    if Strip(body) != "" {
      var lines := Split(RemoveCR(body), "\n");
      assert FirstHeader(lines, 0) == |lines|;
    }
  }

  /**
   * The client names are non-empty, pairwise different after folding,
   * each the first of its folded form among the cleaned pieces, and in
   * the order of those first occurrences.
   */
  lemma TrtNamesDistinct(body: string)
    ensures forall k :: 0 <= k < |TrtNameList(body)| ==> TrtNameList(body)[k] != ""
    ensures forall a, b :: 0 <= a < b < |TrtNameList(body)| ==> NormKey(TrtNameList(body)[a]) != NormKey(TrtNameList(body)[b])
    ensures KeySet(TrtNameList(body), NormKey) == KeySet(TrtPieces(body), NormKey)
    ensures forall a, b :: 0 <= a < b < |TrtNameList(body)| ==>
      NormKey(TrtNameList(body)[a]) in KeySet(TrtPieces(body), NormKey) &&
      NormKey(TrtNameList(body)[b]) in KeySet(TrtPieces(body), NormKey) &&
      FirstIndex(TrtPieces(body), NormKey, NormKey(TrtNameList(body)[a])) < FirstIndex(TrtPieces(body), NormKey, NormKey(TrtNameList(body)[b]))
  {
    var xs := TrtPieces(body);
    FirstOnesSpec(xs, NormKey);
    FirstOnesElements(xs, NormKey);
    TrtPiecesNonEmpty(body);
  }

  // ---------------------------------------------------------------------------
  // extrair_nomes_do_corpo
  // ---------------------------------------------------------------------------

  /** The characters `p.strip(" .-–—")` removes from each name. */
  const PartEdge: set<char> := {' ', '.', '-', '\U{2013}', '\U{2014}'}

  /** A name piece with no edge character at either end. */
  predicate EdgeFree(p: string) {
    p == [] || (p[0] !in PartEdge && p[|p| - 1] !in PartEdge)
  }

  predicate AllEdgeFree(xs: seq<string>) {
    forall k :: 0 <= k < |xs| ==> EdgeFree(xs[k])
  }

  lemma AllEdgeFreeAppend(p: seq<string>, q: seq<string>)
    requires AllEdgeFree(p) && AllEdgeFree(q)
    ensures AllEdgeFree(p + q)
  {
    forall k | 0 <= k < |p + q| ensures EdgeFree((p + q)[k]) {
      if k < |p| {
        assert (p + q)[k] == p[k];
      } else {
        assert (p + q)[k] == q[k - |p|];
      }
    }
  }

  /** `[p.strip(" .-–—") for p in pieces if p.strip()]`. */
  function EdgeParts(pieces: seq<string>): (r: seq<string>)
    ensures |r| <= |pieces|
    ensures AllEdgeFree(r)
    decreases |pieces|
  {
    if pieces == [] then []
    else
      var rest := EdgeParts(pieces[1..]);
      if Strip(pieces[0]) != "" then
        var p := StripSet(pieces[0], PartEdge);
        StripSetShape(pieces[0], PartEdge);
        assert EdgeFree(p);
        AllEdgeFreeAppend([p], rest);
        [p] + rest
      else rest
  }

  /** The names line `i` contributes: its value split at ";" when it is a header line, else none. */
  function LineNames(lines: seq<string>, i: nat): seq<string>
    requires i < |lines|
  {
    var l := Strip(lines[i]);
    if !IsHeaderLine(l) then []
    else
      var val := Candidate(l, lines, i, 7);
      if val == "" then [] else EdgeParts(Split(val, ";"))
  }

  /** The names of the first `n` lines, in order, repeats included. */
  function NamesUpTo(lines: seq<string>, n: nat): (r: seq<string>)
    requires n <= |lines|
    ensures AllEdgeFree(r)
  {
    if n == 0 then []
    else
      var p := NamesUpTo(lines, n - 1);
      var q := LineNames(lines, n - 1);
      LineNamesEdgeFree(lines, n - 1);
      AllEdgeFreeAppend(p, q);
      p + q
  }

  /** The non-empty elements, in order. */
  function NonEmpty(xs: seq<string>): (r: seq<string>)
    ensures forall k :: 0 <= k < |r| ==> r[k] != "" && r[k] in xs
  {
    if xs == [] then []
    else
      var p := NonEmpty(xs[..|xs| - 1]);
      assert forall y :: y in xs[..|xs| - 1] ==> y in xs;
      if xs[|xs| - 1] == "" then p else p + [xs[|xs| - 1]]
  }

  lemma NonEmptySnoc(xs: seq<string>, x: string)
    ensures NonEmpty(xs + [x]) == if x == "" then NonEmpty(xs) else NonEmpty(xs) + [x]
  {
    assert (xs + [x])[..|xs|] == xs;
  }

  /** The names `extrair_nomes_do_corpo` joins: every header line's names, first occurrences only. */
  function BodyNameList(texto: string): seq<string> {
    FirstOnes(BodyPieces(texto), Same)
  }

  /** Every non-empty name piece of every header line, in order, repeats included. */
  function BodyPieces(texto: string): seq<string> {
    if texto == "" then []
    else
      var lines := Split(RemoveCR(texto), "\n");
      NonEmpty(NamesUpTo(lines, |lines|))
  }

  /** `extrair_nomes_do_corpo(texto)`. */
  function NomesDoCorpo(texto: string): string {
    Join("; ", BodyNameList(texto))
  }

  /** `extrair_nomes_do_corpo(texto)`, with its line loop, look-ahead loop and `nomes` list. */
  method ExtrairNomesDoCorpo(texto: string) returns (r: string)
    ensures r == NomesDoCorpo(texto)
  {
    if texto == "" {
      return "";
    }
    var nomes := CollectNames(Split(RemoveCR(texto), "\n"));
    return Join("; ", nomes);
  }

  /** The line loop of `extrair_nomes_do_corpo`. */
  method CollectNames(linhas: seq<string>) returns (nomes: seq<string>)
    ensures nomes == FirstOnes(NonEmpty(NamesUpTo(linhas, |linhas|)), Same)
  {
    nomes := [];
    for i := 0 to |linhas|
      invariant nomes == FirstOnes(NonEmpty(NamesUpTo(linhas, i)), Same)
    {
      nomes := ScanLine(linhas, i, nomes);
    }
  }


  /** One pass of the line loop: the names of line `i` that are new join `nomes`. */
  method ScanLine(linhas: seq<string>, i: nat, nomes: seq<string>) returns (r: seq<string>)
    requires i < |linhas|
    requires nomes == FirstOnes(NonEmpty(NamesUpTo(linhas, i)), Same)
    ensures r == FirstOnes(NonEmpty(NamesUpTo(linhas, i + 1)), Same)
  {
    ghost var before := NamesUpTo(linhas, i);
    assert NamesUpTo(linhas, i + 1) == before + LineNames(linhas, i);
    r := nomes;
    var l := Strip(linhas[i]);
    if IsHeaderLine(l) {
      var val := InlineValue(l);
      if val == "" {
        val := ScanAhead(linhas, i, Min(i + 7, |linhas|));
      }
      if val != "" {
        var parts := EdgeParts(Split(val, ";"));
        r := AddNew(nomes, before, parts);
        return;
      }
    }
    assert before + LineNames(linhas, i) == before;
  }

  /** The `for p in parts: if p and p not in nomes: nomes.append(p)` loop. */
  method AddNew(nomes: seq<string>, ghost before: seq<string>, parts: seq<string>) returns (r: seq<string>)
    requires nomes == FirstOnes(NonEmpty(before), Same)
    ensures r == FirstOnes(NonEmpty(before + parts), Same)
  {
    r := nomes;
    assert before + parts[..0] == before;
    for k := 0 to |parts|
      invariant r == FirstOnes(NonEmpty(before + parts[..k]), Same)
    {
      var p := parts[k];
      assert before + parts[..k + 1] == (before + parts[..k]) + [p];
      NonEmptySnoc(before + parts[..k], p);
      if p != "" {
        FirstOnesSameSnoc(NonEmpty(before + parts[..k]), p);
      }
      if p != "" && p !in r {
        r := r + [p];
      }
    }
    assert parts[..|parts|] == parts;
  }

  lemma LineNamesEdgeFree(lines: seq<string>, i: nat)
    requires i < |lines|
    ensures AllEdgeFree(LineNames(lines, i))
  {
    var l := Strip(lines[i]);
    if IsHeaderLine(l) {
      var val := Candidate(l, lines, i, 7);
      if val != "" {
        assert LineNames(lines, i) == EdgeParts(Split(val, ";"));
      }
    }
  }

  /**
   * The body names are non-empty, trimmed of the edge characters, pairwise
   * different, exactly the distinct pieces, and in first-occurrence order.
   */
  lemma BodyNamesDistinct(texto: string)
    ensures forall k :: 0 <= k < |BodyNameList(texto)| ==> BodyNameList(texto)[k] != "" && EdgeFree(BodyNameList(texto)[k])
    ensures forall a, b :: 0 <= a < b < |BodyNameList(texto)| ==> BodyNameList(texto)[a] != BodyNameList(texto)[b]
    ensures forall x :: x in BodyNameList(texto) <==> x in BodyPieces(texto)
    ensures forall a, b :: 0 <= a < b < |BodyNameList(texto)| ==>
      BodyNameList(texto)[a] in KeySet(BodyPieces(texto), Same) &&
      BodyNameList(texto)[b] in KeySet(BodyPieces(texto), Same) &&
      FirstIndex(BodyPieces(texto), Same, BodyNameList(texto)[a]) < FirstIndex(BodyPieces(texto), Same, BodyNameList(texto)[b])
  {
    var xs := BodyPieces(texto);
    var ns := BodyNameList(texto);
    FirstOnesSpec(xs, Same);
    FirstOnesElements(xs, Same);
    InKeySetSame(xs, "");
    forall x ensures x in ns <==> x in xs {
      InKeySetSame(xs, x);
      InKeySetSame(ns, x);
    }
    forall a | 0 <= a < |ns| ensures Same(ns[a]) == ns[a] { }
    if texto != "" {
      var lines := Split(RemoveCR(texto), "\n");
      forall k | 0 <= k < |ns| ensures ns[k] != "" && EdgeFree(ns[k]) {
        assert ns[k] in xs;
      }
    }
  }
}
