/**
 * `processar_recorte_publicacao`, the parser of the Recorte Digital
 * clipping e-mail.  Its four regular expressions are written out as the
 * deterministic scanners they amount to: `\s` is Python's whitespace and
 * `\d` an ASCII digit.
 */
module EmailClipping {
  import opened Wrappers
  import opened Strings
  import opened EmailBodies

  /** One publication of the clipping. */
  datatype Publication = Publication(data: string, processo: string, evento: string)

  /** The first index from `i` on that is not whitespace (a greedy `\s*`). */
  function SkipWs(s: string, i: nat): (k: nat)
    requires i <= |s|
    ensures i <= k <= |s|
    ensures forall m :: i <= m < k ==> IsSpace(s[m])
    ensures k < |s| ==> !IsSpace(s[k])
    decreases |s| - i
  {
    if i == |s| || !IsSpace(s[i]) then i else SkipWs(s, i + 1)
  }

  /** The end of the run of characters of `cs` that starts at `i` (a greedy `[...]*`). */
  function RunEnd(s: string, i: nat, cs: set<char>): (k: nat)
    requires i <= |s|
    ensures i <= k <= |s|
    ensures forall m :: i <= m < k ==> s[m] in cs
    ensures k < |s| ==> s[k] !in cs
    decreases |s| - i
  {
    if i == |s| || s[i] !in cs then i else RunEnd(s, i + 1, cs)
  }

  const Digits: set<char> := {'0', '1', '2', '3', '4', '5', '6', '7', '8', '9'}
  const DateChars: set<char> := {'0', '1', '2', '3', '4', '5', '6', '7', '8', '9', '/'}

  // ---------------------------------------------------------------------------
  // re.split(r"\n\s*Publicação:\s*\d+\s*", corpo)
  // ---------------------------------------------------------------------------

  const PubTag := "Publica\U{00E7}\U{00E3}o:"

  /** Where a block separator that starts at `p` ends, if one starts there. */
  function SepEnd(s: string, p: nat): (r: Option<nat>)
    requires p <= |s|
    ensures r.Some? ==> p < r.value <= |s|
  {
    if p < |s| && s[p] == '\n' then
      var a := SkipWs(s, p + 1);
      if IsAt(s, a, PubTag) then
        var b := SkipWs(s, a + |PubTag|);
        var c := RunEnd(s, b, Digits);
        if b < c then Some(SkipWs(s, c)) else None
      else None
    else None
  }

  /** Whether a separator starts at each index of `s`. */
  function SepMarks(s: string): (ms: seq<bool>)
    ensures |ms| == |s| && forall m :: 0 <= m < |s| ==> ms[m] == SepEnd(s, m).Some?
  {
    seq(|s|, m requires 0 <= m < |s| => SepEnd(s, m).Some?)
  }

  /** The first separator at or after `i`, or `|s|`. */
  function NextSep(s: string, i: nat): (k: nat)
    requires i <= |s|
    ensures i <= k <= |s|
    ensures forall m :: i <= m < k ==> SepEnd(s, m).None?
    ensures k < |s| ==> SepEnd(s, k).Some?
  {
    FirstMarked(SepMarks(s), i)
  }

  /** The pieces of `s[i..]` between the leftmost non-overlapping separators. */
  function BlocksFrom(s: string, i: nat): (r: seq<string>)
    requires i <= |s|
    ensures |r| >= 1
    decreases |s| - i
  {
    var k := NextSep(s, i);
    if k == |s| then [s[i..]] else [s[i..k]] + BlocksFrom(s, SepEnd(s, k).value)
  }

  /** `blocos[1:]`: the blocks after the first separator. */
  function Blocks(corpo: string): seq<string> {
    BlocksFrom(corpo, 0)[1..]
  }

  /** A body without separator has no publication blocks. */
  lemma NoSeparatorNoBlocks(corpo: string)
    requires forall p :: 0 <= p <= |corpo| ==> SepEnd(corpo, p).None?
    ensures Blocks(corpo) == []
  {
    assert NextSep(corpo, 0) == |corpo|;
  }

  // ---------------------------------------------------------------------------
  // re.search(tag + r"\s*([set]+)", bloco).group(1)
  // ---------------------------------------------------------------------------

  /** `tag`, optional whitespace and a character of `cs` start at `k`. */
  predicate RunHit(b: string, k: nat, tag: string, cs: set<char>) {
    IsAt(b, k, tag) && var a := SkipWs(b, k + |tag|); a < |b| && b[a] in cs
  }

  function NextRunHit(b: string, k: nat, tag: string, cs: set<char>): (r: nat)
    requires k <= |b|
    ensures k <= r <= |b|
    ensures forall m :: k <= m < r ==> !RunHit(b, m, tag, cs)
    ensures r < |b| ==> RunHit(b, r, tag, cs)
    decreases |b| - k
  {
    if k == |b| || RunHit(b, k, tag, cs) then k else NextRunHit(b, k + 1, tag, cs)
  }

  /** The group of the first match of `tag\s*([cs]+)`, or "" when there is no match. */
  function TaggedRun(b: string, tag: string, cs: set<char>): (r: string)
    requires |tag| > 0
    ensures r != "" ==> forall m :: 0 <= m < |r| ==> r[m] in cs
    ensures r == "" <==> forall k :: 0 <= k < |b| ==> !RunHit(b, k, tag, cs)
  {
    var k := NextRunHit(b, 0, tag, cs);
    if k == |b| then ""
    else
      var a := SkipWs(b, k + |tag|);
      var e := RunEnd(b, a, cs);
      assert b[a..e][0] == b[a];
      b[a..e]
  }

  const DataTag := "Data de Publica\U{00E7}\U{00E3}o:"
  const ProcTag := "PROCESSO:"

  // ---------------------------------------------------------------------------
  // re.search(r"(PROCESSO:.*?)(Acesso ao documento:|Identificador do documento:|$)", bloco, re.DOTALL)
  // ---------------------------------------------------------------------------

  const AccessTag := "Acesso ao documento:"
  const IdTag := "Identificador do documento:"

  /** Python's `$` without MULTILINE: the end, or just before a final newline. */
  predicate EndAnchor(b: string, e: nat) {
    e == |b| || (e + 1 == |b| && b[e] == '\n')
  }

  predicate EventStop(b: string, e: nat) {
    IsAt(b, e, AccessTag) || IsAt(b, e, IdTag) || EndAnchor(b, e)
  }

  /** The lazy `.*?`: the first `e` from `i` on where the stop group matches. */
  function EventEnd(b: string, i: nat): (e: nat)
    requires i <= |b|
    ensures i <= e <= |b| && EventStop(b, e)
    ensures forall m :: i <= m < e ==> !EventStop(b, m)
    decreases |b| - i
  {
    if EventStop(b, i) then i else EventEnd(b, i + 1)
  }

  /** The event text before the blank lines are squeezed: group 1 stripped, else the whole block stripped. */
  function RawEvent(b: string): string {
    var k := Find(b, ProcTag);
    if k == -1 then Strip(b) else Strip(b[k..EventEnd(b, k + |ProcTag|)])
  }

  // ---------------------------------------------------------------------------
  // re.sub(r"\n\s*\n+", "\n", evento)
  // ---------------------------------------------------------------------------

  /** The last newline in `s[lo..hi]`, or -1. */
  function LastNewline(s: string, lo: nat, hi: nat): (m: int)
    requires lo <= hi <= |s|
    ensures m == -1 || (lo <= m < hi && s[m] == '\n')
    ensures m == -1 ==> forall k :: lo <= k < hi ==> s[k] != '\n'
    ensures m != -1 ==> forall k :: m < k < hi ==> s[k] != '\n'
    decreases hi - lo
  {
    if lo == hi then -1 else if s[hi - 1] == '\n' then hi - 1 else LastNewline(s, lo, hi - 1)
  }

  /**
   * Where a match of `\n\s*\n+` that starts at `i` ends: the greedy `\s*`
   * backs off to the last newline of the whitespace run, which `\n+` takes.
   */
  function BlankRunEnd(s: string, i: nat): (r: Option<nat>)
    requires i < |s|
    ensures r.Some? ==> i + 2 <= r.value <= |s| && s[r.value - 1] == '\n'
  {
    if s[i] != '\n' then None
    else
      var m := LastNewline(s, i + 1, SkipWs(s, i + 1));
      if m == -1 then None else Some(m + 1)
  }

  /** `re.sub(r"\n\s*\n+", "\n", s[i..])`. */
  function SqueezeFrom(s: string, i: nat): string
    requires i <= |s|
    decreases |s| - i
  {
    if i == |s| then ""
    else
      match BlankRunEnd(s, i)
      case Some(e) => "\n" + SqueezeFrom(s, e)
      case None => [s[i]] + SqueezeFrom(s, i + 1)
  }

  function Squeeze(s: string): string { SqueezeFrom(s, 0) }

  /** No newline lies in the whitespace run that starts at `j`. */
  predicate GapFree(t: string, j: nat)
    requires j <= |t|
  {
    forall m :: j <= m < SkipWs(t, j) ==> t[m] != '\n'
  }

  /** No line of `t` is blank: whitespace after a newline never reaches another newline. */
  predicate NoBlankLine(t: string) {
    forall i :: 0 <= i < |t| && t[i] == '\n' ==> GapFree(t, i + 1)
  }

  lemma SkipWsCons(c: char, t: string, j: nat)
    requires j <= |t|
    ensures SkipWs([c] + t, j + 1) == SkipWs(t, j) + 1
    decreases |t| - j
  {
    var r := [c] + t;
    assert r[j + 1..] == t[j..];
    if j < |t| && IsSpace(t[j]) {
      SkipWsCons(c, t, j + 1);
    }
  }

  /** Putting one character in front keeps a text free of blank lines, unless a newline meets a leading gap with one. */
  lemma ConsNoBlankLine(c: char, t: string)
    requires NoBlankLine(t)
    requires c == '\n' ==> GapFree(t, 0)
    ensures NoBlankLine([c] + t)
  {
    var r := [c] + t;
    forall i | 0 <= i < |r| && r[i] == '\n' ensures GapFree(r, i + 1) {
      SkipWsCons(c, t, i);
      forall m | i + 1 <= m < SkipWs(r, i + 1) ensures r[m] != '\n' {
        assert r[m] == t[m - 1];
        if i > 0 {
          assert t[i - 1] == '\n';
        }
      }
    }
  }

  /** Where the input's whitespace run at `j` has no newline, neither has the output's leading run. */
  lemma {:induction false} SqueezeLeadGap(s: string, j: nat)
    requires j <= |s| && GapFree(s, j)
    ensures GapFree(SqueezeFrom(s, j), 0)
    decreases |s| - j
  {
    if j < |s| {
      var t := SqueezeFrom(s, j + 1);
      assert BlankRunEnd(s, j).None?;
      assert SqueezeFrom(s, j) == [s[j]] + t;
      if IsSpace(s[j]) {
        SqueezeLeadGap(s, j + 1);
        SkipWsCons(s[j], t, 0);
        forall m | 0 <= m < SkipWs([s[j]] + t, 0) ensures ([s[j]] + t)[m] != '\n' {
          if m > 0 {
            assert ([s[j]] + t)[m] == t[m - 1];
          }
        }
      }
    }
  }

  /** `re.sub(r"\n\s*\n+", "\n", ...)` leaves no blank line. */
  lemma {:induction false} SqueezeNoBlankLine(s: string, i: nat)
    requires i <= |s|
    ensures NoBlankLine(SqueezeFrom(s, i))
    decreases |s| - i
  {
    if i < |s| {
      match BlankRunEnd(s, i)
      case Some(e) =>
        var q := SkipWs(s, i + 1);
        assert SkipWs(s, e) == q by {
          SkipWsReaches(s, e, q);
        }
        SqueezeNoBlankLine(s, e);
        SqueezeLeadGap(s, e);
        ConsNoBlankLine('\n', SqueezeFrom(s, e));
      case None =>
        SqueezeNoBlankLine(s, i + 1);
        if s[i] == '\n' {
          var q := SkipWs(s, i + 1);
          if i + 1 < q {
            assert SkipWs(s, i + 1) == SkipWs(s, i + 2);
          }
          SqueezeLeadGap(s, i + 1);
        }
        ConsNoBlankLine(s[i], SqueezeFrom(s, i + 1));
    }
  }

  /** From any point of a whitespace run, the run ends where it ends. */
  lemma SkipWsReaches(s: string, e: nat, q: nat)
    requires e <= q <= |s|
    requires forall m :: e <= m < q ==> IsSpace(s[m])
    requires q < |s| ==> !IsSpace(s[q])
    ensures SkipWs(s, e) == q
    decreases q - e
  {
    if e < q {
      SkipWsReaches(s, e + 1, q);
    }
  }

  /** A slice of a text without blank lines has none either. */
  lemma SliceNoBlankLine(t: string, a: nat, b: nat)
    requires a <= b <= |t| && NoBlankLine(t)
    ensures NoBlankLine(t[a..b])
  {
    var u := t[a..b];
    forall i | 0 <= i < |u| && u[i] == '\n' ensures GapFree(u, i + 1) {
      assert t[a + i] == '\n';
      forall m | i + 1 <= m < SkipWs(u, i + 1) ensures u[m] != '\n' {
        forall k | a + i + 1 <= k <= a + m ensures IsSpace(t[k]) {
          assert t[k] == u[k - a];
        }
        assert a + m < SkipWs(t, a + i + 1);
        assert u[m] == t[a + m];
      }
    }
  }

  /** The squeezed and stripped event text has no blank line. */
  lemma EventNoBlankLine(raw: string)
    ensures NoBlankLine(Strip(Squeeze(raw)))
  {
    SqueezeNoBlankLine(raw, 0);
    StripSetShape(Squeeze(raw), Whitespace);
    var i, j :| 0 <= i <= j <= |Squeeze(raw)| && Strip(Squeeze(raw)) == Squeeze(raw)[i..j];
    SliceNoBlankLine(Squeeze(raw), i, j);
  }

  /** One publication block: `{"data": ..., "processo": ..., "evento": ...}`. */
  function ReadBlock(b: string): Publication {
    Publication(TaggedRun(b, DataTag, DateChars), TaggedRun(b, ProcTag, NumberChars), Strip(Squeeze(RawEvent(b))))
  }

  /** A block is kept when it has a process number or a publication date. */
  predicate Kept(p: Publication) { p.processo != "" || p.data != "" }

  /** The records of the blocks `bs`, in order, dropping those with neither number nor date. */
  function ReadBlocks(bs: seq<string>): (r: seq<Publication>)
    ensures |r| <= |bs|
    ensures forall k :: 0 <= k < |r| ==> WellRead(r[k])
    decreases |bs|
  {
    if bs == [] then []
    else
      var p := ReadBlocks(bs[..|bs| - 1]);
      var x := ReadBlock(bs[|bs| - 1]);
      if Kept(x) then
        ReadBlockWellRead(bs[|bs| - 1]);
        WellReadSnoc(p, x);
        p + [x]
      else p
  }

  /** `processar_recorte_publicacao(corpo)`. */
  function Publications(corpo: string): seq<Publication> {
    ReadBlocks(Blocks(corpo))
  }

  /** The `for bloco in blocos[1:]` loop of `processar_recorte_publicacao`. */
  method ProcessarRecortePublicacao(corpo: string) returns (resultado: seq<Publication>)
    ensures resultado == Publications(corpo)
  {
    var blocos := Blocks(corpo);
    resultado := [];
    for i := 0 to |blocos|
      invariant resultado == ReadBlocks(blocos[..i])
    {
      var pub := ReadBlock(blocos[i]);
      assert blocos[..i + 1][..i] == blocos[..i];
      if Kept(pub) {
        resultado := resultado + [pub];
      }
    }
    assert blocos[..|blocos|] == blocos;
  }

  /**
   * A record read in full: at least one of its number and date is present,
   * the number is made of digits, dots and dashes, the date of digits and
   * slashes, and the event text is stripped and has no blank line.
   */
  predicate WellRead(p: Publication) {
    && (p.processo != "" || p.data != "")
    && (forall m :: 0 <= m < |p.processo| ==> p.processo[m] in NumberChars)
    && (forall m :: 0 <= m < |p.data| ==> p.data[m] in DateChars)
    && Strip(p.evento) == p.evento && NoBlankLine(p.evento)
  }

  /** Every kept block is read in full. */
  lemma ReadBlockWellRead(b: string)
    requires Kept(ReadBlock(b))
    ensures WellRead(ReadBlock(b))
  {
    StripSetIdempotent(Squeeze(RawEvent(b)), Whitespace);
    EventNoBlankLine(RawEvent(b));
  }

  lemma WellReadSnoc(p: seq<Publication>, x: Publication)
    requires (forall k :: 0 <= k < |p| ==> WellRead(p[k])) && WellRead(x)
    ensures forall k :: 0 <= k < |p + [x]| ==> WellRead((p + [x])[k])
  {
    forall k | 0 <= k < |p + [x]| ensures (p + [x])[k] == if k < |p| then p[k] else x { }
  }
}
