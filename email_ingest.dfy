/**
 * The importer's main loop, `buscar_e_processar_emails`, over an abstract
 * list of fetched messages: the watermark filter (skip what is dated at or
 * before the last run, track the newest date, save it only when it grew)
 * and the per-sender rules that turn one message into database rows.
 */
module EmailIngest {
  import opened Wrappers
  import opened Strings
  import opened Dates
  import opened EmailText
  import opened EmailScanners
  import opened EmailNames
  import opened EmailEvents
  import opened EmailBodies
  import opened EmailClipping
  import opened EmailPmf

  // ---------------------------------------------------------------------------
  // Messages
  // ---------------------------------------------------------------------------

  /** `REMETENTES`: the five senders the importer searches for, in its order. */
  datatype Sender = Trt1 | Trtsp | Trf2 | Recorte | Pmf

  const Senders: seq<Sender> := [Trt1, Trtsp, Trf2, Recorte, Pmf]

  function Address(s: Sender): string {
    match s
    case Trt1 => "nao-responda@trt1.jus.br"
    case Trtsp => "nao-responda@trtsp.jus.br"
    case Trf2 => "eproc-bounce@trf2.jus.br"
    case Recorte => "rd_oabrj@recortedigital.adv.br"
    case Pmf => "pmfgestao@pmf.mps.gov.br"
  }

  /** A calendar day `datetime` can hold. */
  type Day = d: CivilDate | Valid(d) witness CivilDate(2000, 1, 1)

  /** A parsed `Date:` header: its instant (comparable with the watermark) and its own calendar day. */
  datatype Sent = Sent(stamp: int, day: Day)

  /** One message as the loop sees it: the sender it was searched under, its date if the header parsed, its text body. */
  datatype Fetched = Fetched(sender: Sender, sent: Option<Sent>, corpo: string)

  function Stamp(f: Fetched): Option<int> {
    if f.sent.Some? then Some(f.sent.value.stamp) else None
  }

  // ---------------------------------------------------------------------------
  // Rows
  // ---------------------------------------------------------------------------

  const Pending := "Em Andamento"

  /** The fields of an `Andamento` row that depend on the message. */
  datatype AndamentoRow = AndamentoRow(inicio: Option<CivilDate>, setor: string, cliente: string, processo: string, status: string, observacoes: string)

  /** The fields of a `Publicacao` row that depend on the message. */
  datatype PublicacaoRow = PublicacaoRow(inicio: Option<CivilDate>, cliente: string, processo: string, status: string, observacoes: string)

  /** The fields of an `Agenda` row. */
  datatype AgendaRow = AgendaRow(
    data: Option<CivilDate>, horario: string, cliente: string, clienteAvisado: string, anotado: string,
    observacao: string, numeroProcesso: string, tipo: string, sistema: string)

  /** The rows one message, or one run, adds to each table. */
  datatype Writes = Writes(andamentos: seq<AndamentoRow>, publicacoes: seq<PublicacaoRow>, agendas: seq<AgendaRow>)

  const NoWrites := Writes([], [], [])

  function Append(a: Writes, b: Writes): Writes {
    Writes(a.andamentos + b.andamentos, a.publicacoes + b.publicacoes, a.agendas + b.agendas)
  }

  /** `(dados + [""] * 9)[:9]`. */
  function Pad9(dados: seq<string>): (r: seq<string>)
    ensures |r| == 9
    ensures forall i :: 0 <= i < 9 ==> r[i] == if i < |dados| then dados[i] else ""
  {
    (dados + seq(9, _ => ""))[..9]
  }

  /** `add_agenda(session, dados, sistema_tag)`: the nine columns in order, the tag defaulting to "email". */
  function AgendaOf(dados: seq<string>, tag: string): (r: AgendaRow)
    ensures r.sistema == if tag == "" then "email" else tag
    ensures r.data == ToDateOrNone(Text(if |dados| > 0 then dados[0] else ""))
    ensures r.tipo == if |dados| > 8 then dados[8] else ""
  {
    var d := Pad9(dados);
    AgendaRow(ToDateOrNone(Text(d[0])), d[1], d[3], d[4], d[5], d[6], d[7], d[8], if tag == "" then "email" else tag)
  }

  /**
   * What `add_agenda` stores: an empty list gives empty columns and no
   * date, a missing field reads as "", the third field is never stored,
   * and fields past the ninth are ignored.
   */
  lemma AgendaOfFields(dados: seq<string>, tag: string, x: string)
    ensures AgendaOf([], tag) == AgendaRow(None, "", "", "", "", "", "", "", if tag == "" then "email" else tag)
    ensures |dados| < 9 ==> AgendaOf(dados + [""], tag) == AgendaOf(dados, tag)
    ensures |dados| > 2 ==> AgendaOf(dados[2 := x], tag) == AgendaOf(dados, tag)
    ensures |dados| > 9 ==> AgendaOf(dados, tag) == AgendaOf(dados[..9], tag)
  {
    if |dados| < 9 {
      assert Pad9(dados + [""]) == Pad9(dados);
    }
    if |dados| > 2 {
      var d := Pad9(dados);
      var e := Pad9(dados[2 := x]);
      assert forall i :: 0 <= i < 9 && i != 2 ==> d[i] == e[i];
    }
    if |dados| > 9 {
      assert Pad9(dados) == Pad9(dados[..9]);
    }
  }

  /** A first field written as `DD/MM/YYYY` is stored as that date. */
  lemma AgendaOfDate(d: CivilDate, rest: seq<string>, tag: string)
    requires Valid(d)
    ensures AgendaOf([FormatDayMonthYear(d)] + rest, tag).data == Some(d)
  {
    ToDateOrNoneReadsDayMonthYear(d);
  }

  // ---------------------------------------------------------------------------
  // Per-sender rules
  // ---------------------------------------------------------------------------

  /** The kind name `extrair_data_hora_evento` is called with. */
  function KindName(k: EventKind): string {
    match k
    case Audiencia => "audiencia"
    case Pericia => "pericia"
  }

  /** The automatic hearing/exam agenda entry built for every message the detector flags. */
  function AutoAgenda(s: Sender, corpo: string): Option<AgendaRow> {
    var kind := DetectarAudienciaPericia(corpo);
    if kind.None? then None
    else
      var dh := EventFields(corpo, KindName(kind.value));
      var tipo := TipoAudienciaPericia(corpo);
      var descr := if tipo != "" then tipo else if kind.value == Audiencia then "Audi\U{00EA}ncia" else "Per\U{00ED}cia";
      Some(AgendaOf([dh.0, dh.1, "", NomesDoCorpo(corpo), "", "", "", "", descr], Address(s)))
  }

  /** The events text the court sender's parser reads (TRT1 and TRT-SP share one parser). */
  function CourtEvents(s: Sender, corpo: string): string
    requires s in {Trt1, Trtsp, Trf2}
  {
    if s == Trf2 then EventosField(Flatten(corpo), EventLabel, Trf2Markers)
    else EventosField(Flatten(corpo), EventsLabel, Trt1Markers)
  }

  /** The parser's process number, or else the first CNJ number anywhere in the body. */
  function CourtNumber(corpo: string): string {
    var n := NumeroField(Flatten(corpo));
    if n == "" then FirstCnj(corpo) else n
  }

  /** The names under the body's labels, or else the names under the TRT1 headers. */
  function CourtNames(corpo: string): string {
    if NomesDoCorpo(corpo) == "" then ClientNamesTrt1(corpo) else NomesDoCorpo(corpo)
  }

  /** `strftime("%d/%m/%y")` of the header date, or "" when it did not parse. */
  function ShortDate(sent: Option<Sent>): string {
    if sent.Some? then FormatShortDate(sent.value.day) else ""
  }

  /** The `Andamento` row of a court message. */
  function AndamentoOf(s: Sender, sent: Option<Sent>, corpo: string): AndamentoRow
    requires s in {Trt1, Trtsp, Trf2}
  {
    AndamentoRow(ToDateOrNone(Text(ShortDate(sent))), ChecarPalavraChave(corpo), CourtNames(corpo),
      CourtNumber(corpo), Pending, LimparDataEvento(CourtEvents(s, corpo)))
  }

  /** The publications of a clipping message that are not election-duty notices, as rows. */
  function PublicationRows(pubs: seq<Publication>): (r: seq<PublicacaoRow>)
    ensures |r| <= |pubs|
    ensures forall i :: 0 <= i < |r| ==> !IsEditalNomeacao(r[i].observacoes) && r[i].status == Pending
  {
    if pubs == [] then []
    else
      var rest := PublicationRows(pubs[..|pubs| - 1]);
      var p := pubs[|pubs| - 1];
      if IsEditalNomeacao(p.evento) then rest
      else rest + [PublicacaoRow(ToDateOrNone(Text(p.data)), PoloAtivoName(p.evento), p.processo, Pending, p.evento)]
  }

  /** A clipping message: its publications, and nothing in `Andamentos`. */
  function ClippingWrites(corpo: string): Writes {
    Writes([], PublicationRows(Publications(corpo)), [])
  }

  /** A PMF message: one agenda entry. */
  function PmfWrites(corpo: string): Writes {
    Writes([], [], [AgendaOf(PmfRow(corpo), "pmfgestao")])
  }

  /** A court message: its `Andamento`, and the automatic agenda entry when there is one. */
  function CourtWrites(s: Sender, sent: Option<Sent>, corpo: string): Writes
    requires s in {Trt1, Trtsp, Trf2}
  {
    var auto := AutoAgenda(s, corpo);
    Writes([AndamentoOf(s, sent, corpo)], [], if auto.Some? then [auto.value] else [])
  }

  /** What one admitted message writes, by the sender it was searched under. */
  function Route(f: Fetched): Writes {
    match f.sender
    case Recorte => ClippingWrites(f.corpo)
    case Pmf => PmfWrites(f.corpo)
    case _ => CourtWrites(f.sender, f.sent, f.corpo)
  }

  // ---------------------------------------------------------------------------
  // The watermark
  // ---------------------------------------------------------------------------

  /** A message is processed unless it is dated at or before the last run's watermark. */
  predicate Admitted(ultima: int, stamp: Option<int>) {
    stamp.None? || ultima < stamp.value
  }

  /** `max_data_processada` after the loop has seen `fs`. */
  function MaxSeen(ultima: int, fs: seq<Fetched>): int {
    if fs == [] then ultima
    else
      var m := MaxSeen(ultima, fs[..|fs| - 1]);
      var d := Stamp(fs[|fs| - 1]);
      if Admitted(ultima, d) && d.Some? && d.value > m then d.value else m
  }

  /** What the run persists as the new watermark: the maximum, only when it grew. */
  function Saved(ultima: int, fs: seq<Fetched>): Option<int> {
    var m := MaxSeen(ultima, fs);
    if m > ultima then Some(m) else None
  }

  /**
   * Everything the run writes, message by message in fetch order, when
   * each admitted message writes `route` of it (the importer's `Route`).
   */
  function Ingested(ultima: int, fs: seq<Fetched>, route: Fetched -> Writes): Writes {
    if fs == [] then NoWrites
    else
      var prev := Ingested(ultima, fs[..|fs| - 1], route);
      var f := fs[|fs| - 1];
      if Admitted(ultima, Stamp(f)) then Append(prev, route(f)) else prev
  }

  // ---------------------------------------------------------------------------
  // The loop and the per-message body
  // ---------------------------------------------------------------------------

  /**
   * `buscar_e_processar_emails` after fetching: the messages of both
   * folders and all senders, in the order they were fetched.
   */
  method BuscarEProcessarEmails(ultima: int, fs: seq<Fetched>) returns (w: Writes, salvo: Option<int>)
    ensures w == Ingested(ultima, fs, Route)
    ensures salvo == Saved(ultima, fs)
  {
    w := NoWrites;
    var maximo := ultima;
    for i := 0 to |fs|
      invariant w == Ingested(ultima, fs[..i], Route)
      invariant maximo == MaxSeen(ultima, fs[..i])
    {
      assert fs[..i + 1][..i] == fs[..i];
      var f := fs[i];
      if f.sent.Some? && f.sent.value.stamp <= ultima {
        continue;
      }
      if f.sent.Some? && f.sent.value.stamp > maximo {
        maximo := f.sent.value.stamp;
      }
      var r := ProcessarMensagem(f);
      w := Append(w, r);
    }
    assert fs[..|fs|] == fs;
    salvo := if maximo > ultima then Some(maximo) else None;
  }

  /** The body of the loop for one admitted message. */
  method ProcessarMensagem(f: Fetched) returns (r: Writes)
    ensures r == Route(f)
  {
    match f.sender {
      case Recorte =>
        var pubs := ProcessarRecortePublicacao(f.corpo);
        var rows := PublicationRowsLoop(pubs);
        r := Writes([], rows, []);
      case Pmf =>
        var dados := ProcessarCorpoPmfgestao(f.corpo);
        r := Writes([], [], [AgendaOf(dados, "pmfgestao")]);
      case _ =>
        r := ProcessarCourt(f.sender, f.sent, f.corpo);
    }
  }

  /** A court message: the automatic agenda entry first, then the `Andamento` (separate tables). */
  method ProcessarCourt(s: Sender, sent: Option<Sent>, corpo: string) returns (r: Writes)
    requires s in {Trt1, Trtsp, Trf2}
    ensures r == CourtWrites(s, sent, corpo)
  {
    var auto := AutoAgendaOf(s, corpo);
    var row := AndamentoRowOf(s, sent, corpo);
    r := Writes([row], [], if auto.Some? then [auto.value] else []);
  }

  /** The clipping branch's loop over the publications of one message. */
  method PublicationRowsLoop(pubs: seq<Publication>) returns (rows: seq<PublicacaoRow>)
    ensures rows == PublicationRows(pubs)
  {
    rows := [];
    for i := 0 to |pubs|
      invariant rows == PublicationRows(pubs[..i])
    {
      assert pubs[..i + 1][..i] == pubs[..i];
      var p := pubs[i];
      if !IsEditalNomeacao(p.evento) {
        var nome := ExtractPoloAtivo(p.evento);
        rows := rows + [PublicacaoRow(ToDateOrNone(Text(p.data)), nome, p.processo, Pending, p.evento)];
      }
    }
    assert pubs[..|pubs|] == pubs;
  }

  /** The automatic agenda entry, through the scanning methods. */
  method AutoAgendaOf(s: Sender, corpo: string) returns (r: Option<AgendaRow>)
    ensures r == AutoAgenda(s, corpo)
  {
    var kind := DetectarAudienciaPericia(corpo);
    if kind.None? {
      return None;
    }
    var data, hora := EventDateTime(corpo, KindName(kind.value));
    var cliente := ExtrairNomesDoCorpo(corpo);
    var tipo := TipoAudienciaPericia(corpo);
    var descr := if tipo != "" then tipo else if kind.value == Audiencia then "Audi\U{00EA}ncia" else "Per\U{00ED}cia";
    r := Some(AgendaOf([data, hora, "", cliente, "", "", "", "", descr], Address(s)));
  }

  /** The court branches: the sender's parser, then the fallbacks, then the row. */
  method AndamentoRowOf(s: Sender, sent: Option<Sent>, corpo: string) returns (row: AndamentoRow)
    requires s in {Trt1, Trtsp, Trf2}
    ensures row == AndamentoOf(s, sent, corpo)
  {
    var numero, eventos;
    if s == Trf2 {
      numero, eventos := ProcessarCorpoTrf2(corpo);
    } else {
      numero, eventos := ProcessarCorpoTrt1(corpo);
    }
    var nomes := ExtrairNomesDoCorpo(corpo);
    if numero == "" {
      numero := ExtractProcessNumber(corpo);
    }
    if nomes == "" {
      nomes := ExtractClientNamesTrt1(corpo);
    }
    row := AndamentoRow(ToDateOrNone(Text(ShortDate(sent))), ChecarPalavraChave(corpo), nomes, numero, Pending, LimparDataEvento(eventos));
  }

  // ---------------------------------------------------------------------------
  // Properties of the watermark
  // ---------------------------------------------------------------------------

  /** The tracked maximum never drops below the watermark it started from. */
  lemma {:induction false} MaxSeenAtLeast(ultima: int, fs: seq<Fetched>)
    ensures MaxSeen(ultima, fs) >= ultima
    decreases |fs|
  {
    if fs != [] {
      MaxSeenAtLeast(ultima, fs[..|fs| - 1]);
    }
  }

  /** Every dated message the run saw is at or before the tracked maximum. */
  lemma {:induction false} MaxSeenBounds(ultima: int, fs: seq<Fetched>)
    ensures forall i :: 0 <= i < |fs| && Stamp(fs[i]).Some? ==> Stamp(fs[i]).value <= MaxSeen(ultima, fs)
    decreases |fs|
  {
    if fs != [] {
      var p := fs[..|fs| - 1];
      MaxSeenBounds(ultima, p);
      MaxSeenAtLeast(ultima, p);
      forall i | 0 <= i < |fs| - 1 ensures fs[i] == p[i] { }
    }
  }

  /** The maximum is the old watermark or the date of a message the run processed. */
  lemma {:induction false} MaxSeenAttained(ultima: int, fs: seq<Fetched>)
    ensures MaxSeen(ultima, fs) == ultima
      || exists i :: 0 <= i < |fs| && Stamp(fs[i]) == Some(MaxSeen(ultima, fs)) && Admitted(ultima, Stamp(fs[i]))
    decreases |fs|
  {
    if fs != [] {
      var p := fs[..|fs| - 1];
      MaxSeenAttained(ultima, p);
      if MaxSeen(ultima, fs) != ultima && MaxSeen(ultima, fs) == MaxSeen(ultima, p) {
        var i :| 0 <= i < |p| && Stamp(p[i]) == Some(MaxSeen(ultima, p)) && Admitted(ultima, Stamp(p[i]));
        assert fs[i] == p[i];
      }
    }
  }

  /**
   * The watermark is saved exactly when some message is dated after it,
   * and what is saved is then strictly newer and the newest date seen.
   */
  lemma SavedExactlyWhenNewer(ultima: int, fs: seq<Fetched>)
    ensures Saved(ultima, fs).Some? <==> exists i :: 0 <= i < |fs| && Stamp(fs[i]).Some? && Stamp(fs[i]).value > ultima
    ensures Saved(ultima, fs).Some? ==> (Saved(ultima, fs).value > ultima
      && forall i :: 0 <= i < |fs| && Stamp(fs[i]).Some? ==> Stamp(fs[i]).value <= Saved(ultima, fs).value)
  {
    MaxSeenBounds(ultima, fs);
    MaxSeenAttained(ultima, fs);
  }

  /**
   * A second run from the saved watermark skips every dated message of
   * the first: only messages whose date did not parse come through again.
   */
  lemma RerunSkipsDated(ultima: int, fs: seq<Fetched>)
    ensures var next := if Saved(ultima, fs).Some? then Saved(ultima, fs).value else ultima;
      forall i :: 0 <= i < |fs| && Stamp(fs[i]).Some? ==> !Admitted(next, Stamp(fs[i]))
  {
    MaxSeenBounds(ultima, fs);
    MaxSeenAtLeast(ultima, fs);
  }

  // ---------------------------------------------------------------------------
  // Properties of the routing
  // ---------------------------------------------------------------------------

  /** The run's writes are the writes of its parts, in order: messages are handled one at a time. */
  lemma {:induction false} IngestedAppend(ultima: int, a: seq<Fetched>, b: seq<Fetched>, route: Fetched -> Writes)
    ensures Ingested(ultima, a + b, route) == Append(Ingested(ultima, a, route), Ingested(ultima, b, route))
    decreases |b|
  {
    if b == [] {
      assert a + b == a;
    } else {
      var b' := b[..|b| - 1];
      assert (a + b)[..|a + b| - 1] == a + b';
      IngestedAppend(ultima, a, b', route);
    }
  }

  /** A message dated at or before the watermark writes nothing, wherever it comes in the run. */
  lemma SkippedWritesNothing(ultima: int, a: seq<Fetched>, f: Fetched, b: seq<Fetched>, route: Fetched -> Writes)
    requires f.sent.Some? && f.sent.value.stamp <= ultima
    ensures Ingested(ultima, a + [f] + b, route) == Ingested(ultima, a + b, route)
  {
    IngestedAppend(ultima, a + [f], b, route);
    IngestedAppend(ultima, a, b, route);
    assert (a + [f])[..|a + [f]| - 1] == a;
  }

  /** A clipping message writes publications only, none of them an election-duty notice. */
  lemma ClippingShape(corpo: string)
    ensures ClippingWrites(corpo).andamentos == [] && ClippingWrites(corpo).agendas == []
    ensures |ClippingWrites(corpo).publicacoes| <= |Publications(corpo)|
    ensures forall i :: 0 <= i < |ClippingWrites(corpo).publicacoes| ==>
      !IsEditalNomeacao(ClippingWrites(corpo).publicacoes[i].observacoes)
  {
  }

  /** A PMF message writes one agenda entry tagged "pmfgestao" and nothing else. */
  lemma PmfShape(corpo: string)
    ensures PmfWrites(corpo).andamentos == [] && PmfWrites(corpo).publicacoes == []
    ensures |PmfWrites(corpo).agendas| == 1 && PmfWrites(corpo).agendas[0].sistema == "pmfgestao"
  {
  }

  /**
   * A court message writes one pending `Andamento` and no publication,
   * with an automatic agenda entry, tagged with the sender's address,
   * exactly when the text mentions a hearing or an exam.
   */
  lemma CourtShape(s: Sender, sent: Option<Sent>, corpo: string)
    requires s in {Trt1, Trtsp, Trf2}
    ensures var w := CourtWrites(s, sent, corpo);
      |w.andamentos| == 1 && w.andamentos[0].status == Pending && w.publicacoes == [] && |w.agendas| <= 1
    ensures var w := CourtWrites(s, sent, corpo);
      (|w.agendas| == 1 <==> DetectarAudienciaPericia(corpo).Some?)
      && (|w.agendas| == 1 ==> w.agendas[0].sistema == Address(s))
  {
  }

  /**
   * The automatic entry always has a description of its own (the bare
   * kind the caller falls back on is never needed), and the description
   * runs to the first '.', newline or ')'.
   */
  lemma AutoAgendaTipo(s: Sender, corpo: string)
    requires AutoAgenda(s, corpo).Some?
    ensures AutoAgenda(s, corpo).value.tipo == TipoAudienciaPericia(corpo) != ""
    ensures forall c :: c in AutoAgenda(s, corpo).value.tipo ==> c !in TitleStops
  {
    TipoAudienciaPericiaShape(corpo);
  }

  /**
   * The court row's number is the parser's or else the first CNJ number
   * in the body; it is empty only when the body has no CNJ number at all,
   * and otherwise it has a dash and a dot.
   */
  lemma CourtNumberShape(corpo: string)
    ensures NumeroField(Flatten(corpo)) != "" ==> CourtNumber(corpo) == NumeroField(Flatten(corpo))
    ensures CourtNumber(corpo) == "" <==> NumeroField(Flatten(corpo)) == "" && forall k :: !IsCnjAt(corpo, k)
    ensures CourtNumber(corpo) == "" || ('-' in CourtNumber(corpo) && '.' in CourtNumber(corpo))
  {
    NumeroFieldSpec(Flatten(corpo));
    var n := CourtNumber(corpo);
    if NumeroField(Flatten(corpo)) == "" && FirstCnj(corpo) != "" {
      var k := FirstCnjFrom(corpo, 0);
      assert n == corpo[k..k + 25];
      assert n[7] == '-' && n[10] == '.';
    }
  }

  /**
   * The row's start date is the message's own day when its year is in
   * 1969..2068, the window a two-digit year reads back into; outside it
   * the century changes, and an undated message has no start date.
   */
  lemma AndamentoDate(s: Sender, sent: Option<Sent>, corpo: string)
    requires s in {Trt1, Trtsp, Trf2}
    ensures sent.None? ==> AndamentoOf(s, sent, corpo).inicio.None?
    ensures sent.Some? && 1969 <= sent.value.day.year <= 2068 ==>
      AndamentoOf(s, sent, corpo).inicio.Some? && AndamentoOf(s, sent, corpo).inicio.value == sent.value.day
    ensures sent.Some? && !(1969 <= sent.value.day.year <= 2068) ==>
      AndamentoOf(s, sent, corpo).inicio.Some? ==> AndamentoOf(s, sent, corpo).inicio.value != sent.value.day
  {
    if sent.Some? {
      ToDateOrNoneReadsShortDates(sent.value.day);
    }
  }

  /** The two TRT senders write the same `Andamento`; only the automatic entry's tag tells them apart. */
  lemma TrtSendersAgree(sent: Option<Sent>, corpo: string)
    ensures AndamentoOf(Trt1, sent, corpo) == AndamentoOf(Trtsp, sent, corpo)
  {
  }
}
