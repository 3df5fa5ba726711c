/**
 * `processar_corpo_pmfgestao`, the parser of the PMF Gestão appointment
 * letter: three passes over the lines find the client after the greeting,
 * the service type after "Serviço: Agendamento -" and the date and time
 * after "Data e hora agendada", and fill a nine-column agenda row.
 */
module EmailPmf {
  import opened Strings
  import opened EmailText
  import opened EmailNames

  const Greeting := "Prezado(a) Sr(a)"
  const ServiceInlineA := "servico: agendamento -"
  const ServiceInlineB := "servio: agendamento -"
  const AgTag := "Agendamento -"
  const AgKey := "agendamento -"
  const SlotTag := "data e hora agendada"

  /** The characters `lstrip(": ")` removes. */
  const ColonSpace: set<char> := {':', ' '}

  // ---------------------------------------------------------------------------
  // What the three passes look for
  // ---------------------------------------------------------------------------

  /** The first line from `i` on that contains the greeting, or `|lines|`. */
  function FirstGreeting(lines: seq<string>, i: nat): (k: nat)
    requires i <= |lines|
    ensures i <= k <= |lines|
    ensures forall m :: i <= m < k ==> !Contains(lines[m], Greeting)
    ensures k < |lines| ==> Contains(lines[k], Greeting)
    decreases |lines| - i
  {
    if i == |lines| || Contains(lines[i], Greeting) then i else FirstGreeting(lines, i + 1)
  }

  /** The normalised line holds the service label with its value on the same line. */
  predicate ServiceInline(line: string) {
    var n := NormKey(line);
    Contains(n, ServiceInlineA) || Contains(n, ServiceInlineB)
  }

  /** The normalised line is the bare service heading. */
  predicate ServiceHeading(line: string) {
    var n := NormKey(line);
    n == "servico" || n == "servio"
  }

  /** A service line of either form. */
  predicate ServiceLine(line: string) {
    var n := NormKey(line);
    Contains(n, ServiceInlineA) || Contains(n, ServiceInlineB) || n == "servico" || n == "servio"
  }

  /** The first line from `i` on that is a service line of either form, or `|lines|`. */
  function FirstService(lines: seq<string>, i: nat): (k: nat)
    requires i <= |lines|
    ensures i <= k <= |lines|
    ensures k < |lines| ==> ServiceLine(lines[k])
    decreases |lines| - i
  {
    if i == |lines| || ServiceLine(lines[i]) then i else FirstService(lines, i + 1)
  }

  /** The normalised line holds "agendamento -". */
  predicate Booking(line: string) {
    Contains(NormKey(line), AgKey)
  }

  /** The first line from `i` on that is a booking line, or `|lines|`. */
  function FirstBooking(lines: seq<string>, i: nat): (k: nat)
    requires i <= |lines|
    ensures i <= k <= |lines|
    ensures k < |lines| ==> Booking(lines[k])
    decreases |lines| - i
  {
    if i == |lines| || Booking(lines[i]) then i else FirstBooking(lines, i + 1)
  }

  /** The normalised line holds "data e hora agendada". */
  predicate SlotLine(line: string) {
    Contains(Normalize(line), SlotTag)
  }

  /** The first slot line from `i` on, or `|lines|`. */
  function FirstSlot(lines: seq<string>, i: nat): (k: nat)
    requires i <= |lines|
    ensures i <= k <= |lines|
    ensures k < |lines| ==> SlotLine(lines[k])
    decreases |lines| - i
  {
    if i == |lines| || SlotLine(lines[i]) then i else FirstSlot(lines, i + 1)
  }

  /** `for prox in linhas[i:]: if prox.strip(): ... break`: the first non-blank line, stripped, or "". */
  function NextValue(lines: seq<string>, i: nat): (r: string)
    requires i <= |lines|
  {
    var n := FirstNonBlank(lines, i, |lines|);
    if n == |lines| then "" else Strip(lines[n])
  }

  // ---------------------------------------------------------------------------
  // The fields
  // ---------------------------------------------------------------------------

  /** The client: the first non-blank line after the first greeting line. */
  function PmfCliente(lines: seq<string>): string {
    var g := FirstGreeting(lines, 0);
    if g == |lines| then "" else NextValue(lines, g + 1)
  }

  /** The service type, before the accent repair. */
  function PmfTipo(lines: seq<string>): string {
    var k := FirstService(lines, 0);
    if k == |lines| then "" else TipoAt(lines, k)
  }

  /** The service type read from service line `k`: inline, else from the lines after it. */
  function TipoAt(lines: seq<string>, k: nat): string
    requires k < |lines|
  {
    if ServiceInline(lines[k]) then
      var v := InlineTipo(lines[k]);
      if v != "" then v else NextValue(lines, k + 1)
    else
      var m := FirstBooking(lines, k + 1);
      if m == |lines| then "" else BookingValue(lines[m])
  }

  /** `linha.split("Agendamento -")[1].strip()` when there is such a piece, else "". */
  function InlineTipo(line: string): string {
    var parte := Split(line, AgTag);
    if |parte| > 1 then Strip(parte[1]) else ""
  }

  /** `prox.split("Agendamento -", 1)[1].strip()` when the line has the tag, else "". */
  function BookingValue(line: string): string {
    if Contains(line, AgTag) then Strip(AfterFirst(line, AgTag)) else ""
  }

  /** `valor.split("(")[0].strip().lstrip(": ").strip()`: the date before the parenthesis. */
  function DatePart(valor: string): string {
    Strip(LStripSet(Strip(Split(valor, "(")[0]), ColonSpace))
  }

  /** `valor.split("-")[-1].strip()`: the time after the last dash. */
  function TimePart(valor: string): string {
    var parts := Split(valor, "-");
    Strip(parts[|parts| - 1])
  }

  /** One value line read into the date and time: each is replaced only when its mark is present. */
  function ReadSlot(valor: string, data: string, hora: string): (string, string) {
    (if Contains(valor, "(") then DatePart(valor) else data,
     if Contains(valor, "-") then TimePart(valor) else hora)
  }

  /** The date and time: from the slot line's own value, then from the next non-blank line. */
  function PmfSlot(lines: seq<string>): (string, string) {
    var k := FirstSlot(lines, 0);
    if k == |lines| then ("", "") else SlotAt(lines, k)
  }

  /** `prox.strip().lstrip(": ").strip()`. */
  function NextSlotValue(line: string): string {
    Strip(LStripSet(Strip(line), ColonSpace))
  }

  /** Date and time read at slot line `k`: its value after the colon, overridden by the next non-blank line. */
  function SlotAt(lines: seq<string>, k: nat): (string, string)
    requires k < |lines|
  {
    var first := ReadSlot(InlineValue(lines[k]), "", "");
    var n := FirstNonBlank(lines, k + 1, |lines|);
    if n == |lines| then first else ReadSlot(NextSlotValue(lines[n]), first.0, first.1)
  }

  /** The lines `processar_corpo_pmfgestao` reads. */
  function PmfLines(corpo: string): seq<string> {
    Split(RemoveCR(corpo), "\n")
  }

  /** `processar_corpo_pmfgestao(corpo)`: date, time, client and type in columns 0, 1, 3 and 8. */
  function PmfRow(corpo: string): seq<string> {
    var lines := PmfLines(corpo);
    var slot := PmfSlot(lines);
    [slot.0, slot.1, "", PmfCliente(lines), "", "", "", "", CorrigirAcentos(PmfTipo(lines))]
  }

  // ---------------------------------------------------------------------------
  // The loops
  // ---------------------------------------------------------------------------

  /** The inner `for prox in linhas[i:]` loop that takes the first non-blank line. */
  method ScanNextValue(linhas: seq<string>, i: nat) returns (v: string)
    requires i <= |linhas|
    ensures v == NextValue(linhas, i)
  {
    var n := SkipBlank(linhas, i);
    v := if n < |linhas| then Strip(linhas[n]) else "";
  }

  /** The first pass: the client after "Prezado(a) Sr(a)". */
  method FindCliente(linhas: seq<string>) returns (cliente: string)
    ensures cliente == PmfCliente(linhas)
  {
    cliente := "";
    var idx := 0;
    while idx < |linhas|
      invariant idx <= |linhas|
      invariant FirstGreeting(linhas, idx) == FirstGreeting(linhas, 0)
      decreases |linhas| - idx
    {
      if Find(linhas[idx], Greeting) != -1 {
        cliente := ScanNextValue(linhas, idx + 1);
        return;
      }
      idx := idx + 1;
    }
  }

  /** The inner loop of the heading form: the first later line holding "agendamento -". */
  method SkipToBooking(linhas: seq<string>, i: nat) returns (m: nat)
    requires i <= |linhas|
    ensures m == FirstBooking(linhas, i)
  {
    m := i;
    while m < |linhas| && Find(NormKey(linhas[m]), AgKey) == -1
      invariant i <= m <= |linhas|
      invariant FirstBooking(linhas, m) == FirstBooking(linhas, i)
      decreases |linhas| - m
    {
      m := m + 1;
    }
  }

  /** The second pass: the service type. */
  method FindTipo(linhas: seq<string>) returns (tipo: string)
    ensures tipo == PmfTipo(linhas)
  {
    tipo := "";
    var idx := 0;
    while idx < |linhas|
      invariant idx <= |linhas|
      invariant FirstService(linhas, idx) == FirstService(linhas, 0)
      decreases |linhas| - idx
    {
      var lnorm := NormKey(linhas[idx]);
      if Find(lnorm, ServiceInlineA) != -1 || Find(lnorm, ServiceInlineB) != -1 || lnorm == "servico" || lnorm == "servio" {
        tipo := ReadTipo(linhas, idx);
        return;
      }
      idx := idx + 1;
    }
  }

  /** The body of the second pass once service line `idx` is found. */
  method ReadTipo(linhas: seq<string>, idx: nat) returns (tipo: string)
    requires idx < |linhas|
    ensures tipo == TipoAt(linhas, idx)
  {
    var lnorm := NormKey(linhas[idx]);
    if Find(lnorm, ServiceInlineA) != -1 || Find(lnorm, ServiceInlineB) != -1 {
      tipo := InlineTipo(linhas[idx]);
      if tipo == "" {
        tipo := ScanNextValue(linhas, idx + 1);
      }
    } else {
      var m := SkipToBooking(linhas, idx + 1);
      tipo := if m == |linhas| then "" else BookingValue(linhas[m]);
    }
  }

  /** The third pass: the date and time. */
  method FindSlot(linhas: seq<string>) returns (data: string, horario: string)
    ensures (data, horario) == PmfSlot(linhas)
  {
    data, horario := "", "";
    var idx := 0;
    while idx < |linhas|
      invariant idx <= |linhas|
      invariant FirstSlot(linhas, idx) == FirstSlot(linhas, 0)
      decreases |linhas| - idx
    {
      if Find(Normalize(linhas[idx]), SlotTag) != -1 {
        data, horario := ReadSlotAt(linhas, idx);
        return;
      }
      idx := idx + 1;
    }
  }

  /** The body of the third pass once slot line `idx` is found. */
  method ReadSlotAt(linhas: seq<string>, idx: nat) returns (data: string, horario: string)
    requires idx < |linhas|
    ensures (data, horario) == SlotAt(linhas, idx)
  {
    data, horario := "", "";
    if Find(linhas[idx], ":") != -1 {
      var valor := Strip(AfterFirst(linhas[idx], ":"));
      if valor != "" {
        var slot := ReadSlot(valor, "", "");
        data, horario := slot.0, slot.1;
      }
    }
    var n := SkipBlank(linhas, idx + 1);
    if n < |linhas| {
      var slot := ReadSlot(NextSlotValue(linhas[n]), data, horario);
      data, horario := slot.0, slot.1;
    }
  }

  /** The index the inner `for prox in linhas[i:]` loop stops at. */
  method SkipBlank(linhas: seq<string>, i: nat) returns (n: nat)
    requires i <= |linhas|
    ensures n == FirstNonBlank(linhas, i, |linhas|)
  {
    n := i;
    while n < |linhas| && Strip(linhas[n]) == ""
      invariant i <= n <= |linhas|
      invariant FirstNonBlank(linhas, n, |linhas|) == FirstNonBlank(linhas, i, |linhas|)
      decreases |linhas| - n
    {
      n := n + 1;
    }
  }

  /** `processar_corpo_pmfgestao(corpo)`. */
  method ProcessarCorpoPmfgestao(corpo: string) returns (dados: seq<string>)
    ensures dados == PmfRow(corpo)
  {
    var linhas := Split(RemoveCR(corpo), "\n");
    var cliente := FindCliente(linhas);
    var tipo := FindTipo(linhas);
    var data, horario := FindSlot(linhas);
    dados := [data, horario, "", cliente, "", "", "", "", CorrigirAcentos(tipo)];
  }

  // ---------------------------------------------------------------------------
  // Properties
  // ---------------------------------------------------------------------------

  /** Text that is a slice of a text lacking `w` lacks it too. */
  lemma SliceLacks(s: string, i: nat, j: nat, w: string)
    requires i <= j <= |s| && !Contains(s, w)
    ensures !Contains(s[i..j], w)
  {
    if Contains(s[i..j], w) {
      ContainsInPart(s, i, j, w);
    }
  }

  lemma StripLacks(s: string, w: string)
    requires !Contains(s, w)
    ensures !Contains(Strip(s), w) && Strip(Strip(s)) == Strip(s)
  {
    StripSetShape(s, Whitespace);
    var i, j :| 0 <= i <= j <= |s| && Strip(s) == s[i..j];
    SliceLacks(s, i, j, w);
    StripSetIdempotent(s, Whitespace);
  }

  /** The date read from a value is stripped and holds no parenthesis. */
  lemma DatePartShape(valor: string)
    ensures !Contains(DatePart(valor), "(") && Strip(DatePart(valor)) == DatePart(valor)
  {
    var a := Strip(Split(valor, "(")[0]);
    StripLacks(Split(valor, "(")[0], "(");
    var l := LStripSet(a, ColonSpace);
    LStripSetSuffix(a, ColonSpace);
    assert l == a[|a| - |l|..|a|];
    SliceLacks(a, |a| - |l|, |a|, "(");
    StripLacks(l, "(");
  }

  /** The time read from a value is stripped and holds no dash: it is what follows the last one. */
  lemma TimePartShape(valor: string)
    ensures !Contains(TimePart(valor), "-") && Strip(TimePart(valor)) == TimePart(valor)
  {
    var parts := Split(valor, "-");
    StripLacks(parts[|parts| - 1], "-");
  }

  predicate CleanDate(d: string) { !Contains(d, "(") && Strip(d) == d }
  predicate CleanTime(h: string) { !Contains(h, "-") && Strip(h) == h }

  lemma ReadSlotShape(valor: string, data: string, hora: string)
    requires CleanDate(data) && CleanTime(hora)
    ensures CleanDate(ReadSlot(valor, data, hora).0) && CleanTime(ReadSlot(valor, data, hora).1)
  {
    DatePartShape(valor);
    TimePartShape(valor);
  }

  /** Date and time are clean, and both empty without a slot line. */
  lemma PmfSlotShape(lines: seq<string>)
    ensures CleanDate(PmfSlot(lines).0) && CleanTime(PmfSlot(lines).1)
    ensures (forall m :: 0 <= m < |lines| ==> !SlotLine(lines[m])) ==> PmfSlot(lines) == ("", "")
  {
    var k := FirstSlot(lines, 0);
    if k < |lines| {
      SlotAtShape(lines, k);
    } else {
      assert !Contains("", "(") && !Contains("", "-");
    }
  }

  lemma SlotAtShape(lines: seq<string>, k: nat)
    requires k < |lines|
    ensures CleanDate(SlotAt(lines, k).0) && CleanTime(SlotAt(lines, k).1)
  {
    assert CleanDate("") && CleanTime("") by {
      assert !Contains("", "(") && !Contains("", "-");
    }
    var first := ReadSlot(InlineValue(lines[k]), "", "");
    ReadSlotShape(InlineValue(lines[k]), "", "");
    var n := FirstNonBlank(lines, k + 1, |lines|);
    if n < |lines| {
      ReadSlotShape(NextSlotValue(lines[n]), first.0, first.1);
    }
  }

  /** The client is stripped, and empty without a greeting line. */
  lemma PmfClienteShape(lines: seq<string>)
    ensures Strip(PmfCliente(lines)) == PmfCliente(lines)
    ensures (forall m :: 0 <= m < |lines| ==> !Contains(lines[m], Greeting)) ==> PmfCliente(lines) == ""
  {
    var g := FirstGreeting(lines, 0);
    if g < |lines| {
      var n := FirstNonBlank(lines, g + 1, |lines|);
      if n < |lines| {
        StripSetIdempotent(lines[n], Whitespace);
      }
    }
  }

  /** A non-empty client is the first non-blank line after the first greeting line, stripped. */
  lemma PmfClienteFollowsGreeting(lines: seq<string>)
    requires PmfCliente(lines) != ""
    ensures exists g, n :: (0 <= g < n < |lines| &&
      Contains(lines[g], Greeting) && (forall m :: 0 <= m < g ==> !Contains(lines[m], Greeting)) &&
      (forall m :: g < m < n ==> Strip(lines[m]) == "") && PmfCliente(lines) == Strip(lines[n]))
  {
    var g := FirstGreeting(lines, 0);
    var n := FirstNonBlank(lines, g + 1, |lines|);
    assert 0 <= g < n < |lines|;
  }

  /** A value read after the next non-blank line is stripped text. */
  lemma NextValueStripped(lines: seq<string>, i: nat)
    requires i <= |lines|
    ensures Strip(NextValue(lines, i)) == NextValue(lines, i)
  {
    var n := FirstNonBlank(lines, i, |lines|);
    if n < |lines| {
      StripSetIdempotent(lines[n], Whitespace);
    }
  }

  /** The inline value after "Agendamento -" is stripped text. */
  lemma InlineTipoStripped(line: string)
    ensures Strip(InlineTipo(line)) == InlineTipo(line)
  {
    var parte := Split(line, AgTag);
    if |parte| > 1 {
      StripSetIdempotent(parte[1], Whitespace);
    }
  }

  /** The value of a booking line is stripped text. */
  lemma BookingValueStripped(line: string)
    ensures Strip(BookingValue(line)) == BookingValue(line)
  {
    if Contains(line, AgTag) {
      StripSetIdempotent(AfterFirst(line, AgTag), Whitespace);
    }
  }

  /** The service type is stripped text, and it is empty when no line names the service. */
  lemma PmfTipoShape(lines: seq<string>)
    ensures Strip(PmfTipo(lines)) == PmfTipo(lines)
    ensures (forall m :: 0 <= m < |lines| ==> !ServiceLine(lines[m])) ==> PmfTipo(lines) == ""
  {
    var k := FirstService(lines, 0);
    if k < |lines| {
      if ServiceInline(lines[k]) {
        InlineTipoStripped(lines[k]);
        NextValueStripped(lines, k + 1);
      } else {
        var m := FirstBooking(lines, k + 1);
        if m < |lines| {
          BookingValueStripped(lines[m]);
        }
      }
    }
  }

  /** The row has the nine columns of the spreadsheet, and its type column has no misspelling left. */
  lemma PmfRowShape(corpo: string)
    ensures |PmfRow(corpo)| == 9
    ensures forall k :: 0 <= k < |Corrections| ==> !Contains(PmfRow(corpo)[8], Corrections[k].0)
  {
  }
}
