/**
 * The record rules of the office dashboard (`app.py`): status keys, the
 * hearing/exam detector, the deadline arithmetic, the de-duplicated
 * calendar warnings, and the table moves (to "concluidas", between two
 * tables, and the publication form's routing to the financial table or
 * the agenda).  Dates are day numbers; "today" is a parameter.
 */
module AppRules {
  import opened Wrappers
  import opened Strings
  import opened Dedup
  import opened EmailText

  // ---------------------------------------------------------------------------
  // Cells: what a DataFrame or a form hands the helpers
  // ---------------------------------------------------------------------------

  /** A value read from a DataFrame cell: `None`, text, an integer, or a float NaN. */
  datatype Cell = Null | Str(s: string) | Int(n: int) | NaN

  /** `str(v)` for the cells the helpers see. */
  function StrOf(c: Cell): string {
    match c
    case Null => "None"
    case Str(s) => s
    case Int(n) => IntToString(n)
    case NaN => "nan"
  }

  /** `_text(v)`: `None` and NaN become "", anything else its `str`. */
  function TextOf(c: Cell): (r: string)
    ensures c.Null? || c.NaN? ==> r == ""
    ensures c.Str? ==> r == c.s
  {
    if c.Null? || c.NaN? then "" else StrOf(c)
  }

  /**
   * `_text` gives "" exactly for `None`, NaN and empty text, so a cell that
   * holds something always shows; applied to its own result it changes
   * nothing.
   */
  lemma TextOfEmpty(c: Cell)
    ensures TextOf(c) == "" <==> c.Null? || c.NaN? || c == Str("")
    ensures TextOf(Str(TextOf(c))) == TextOf(c)
  {
    if c.Int? && c.n >= 0 {
      assert NatToString(c.n) != "";
    }
  }

  /**
   * `_normalize_status(val)`: fold to ASCII, trim, lower-case (`Normalize`
   * lower-cases before trimming, which on ASCII text is the same).
   */
  function NormalizeStatus(c: Cell): (r: string)
    ensures forall i :: 0 <= i < |r| ==> IsAsciiLower(r[i])
    ensures r == "" || (!IsSpace(r[0]) && !IsSpace(r[|r| - 1]))
  {
    if c.Null? then ""
    else
      StrippedKeyShape(Normalize(StrOf(c)));
      Strip(Normalize(StrOf(c)))
  }

  /** A status key is trimmed ASCII lower case, and normalising it again changes nothing. */
  lemma NormalizeStatusIdempotent(c: Cell)
    ensures NormalizeStatus(Str(NormalizeStatus(c))) == NormalizeStatus(c)
    ensures forall i :: 0 <= i < |NormalizeStatus(c)| ==> IsAsciiLower(NormalizeStatus(c)[i])
    ensures NormalizeStatus(c) == "" || (!IsSpace(NormalizeStatus(c)[0]) && !IsSpace(NormalizeStatus(c)[|NormalizeStatus(c)| - 1]))
  {
    if !c.Null? {
      StrippedKeyShape(Normalize(StrOf(c)));
    }
  }

  /** Trimming ASCII lower-case text gives a key that folding and trimming keep. */
  lemma StrippedKeyShape(n: string)
    requires forall k :: 0 <= k < |n| ==> IsAsciiLower(n[k])
    ensures Strip(Normalize(Strip(n))) == Strip(n)
    ensures forall k :: 0 <= k < |Strip(n)| ==> IsAsciiLower(Strip(n)[k])
    ensures Strip(n) == "" || (!IsSpace(Strip(n)[0]) && !IsSpace(Strip(n)[|Strip(n)| - 1]))
  {
    StripSetShape(n, Whitespace);
    var t := Strip(n);
    var i, j :| 0 <= i <= j <= |n| && t == n[i..j];
    assert forall k :: 0 <= k < |t| ==> t[k] == n[i + k];
    NormalizeOfAsciiLower(t);
    StripSetIdempotent(n, Whitespace);
  }

  /** `_detect_audiencia_pericia(text)`: "Audiência" before "Perícia", `None` for `None` or neither. */
  function DetectAudienciaPericia(c: Cell): (r: Option<string>)
    ensures c.Null? ==> r.None?
    ensures !c.Null? ==> (r == Some("Audi\U{00EA}ncia") <==> Contains(Normalize(StrOf(c)), "audiencia"))
    ensures !c.Null? ==> (r == Some("Per\U{00ED}cia") <==>
      !Contains(Normalize(StrOf(c)), "audiencia") && Contains(Normalize(StrOf(c)), "pericia"))
  {
    if c.Null? then None
    else
      var v := Normalize(StrOf(c));
      if Contains(v, "audiencia") then Some("Audi\U{00EA}ncia")
      else if Contains(v, "pericia") then Some("Per\U{00ED}cia")
      else None
  }

  /** The dashboard and the e-mail importer agree on what is a hearing and what is an exam. */
  lemma DetectorsAgree(t: string)
    ensures DetectAudienciaPericia(Str(t)) == Some("Audi\U{00EA}ncia") <==> DetectarAudienciaPericia(t) == Some(Audiencia)
    ensures DetectAudienciaPericia(Str(t)) == Some("Per\U{00ED}cia") <==> DetectarAudienciaPericia(t) == Some(Pericia)
    ensures DetectAudienciaPericia(Str(t)).None? <==> DetectarAudienciaPericia(t).None?
  {
  }

  // ---------------------------------------------------------------------------
  // _apply_prazo_logic
  // ---------------------------------------------------------------------------

  /** A deadline triple: start, end, days remaining (dates as day numbers). */
  datatype Prazo = Prazo(inicio: Option<int>, fim: Option<int>, dias: Option<int>)

  /**
   * `_apply_prazo_logic(inicio, fim, dias)` with `hoje` for today: with a
   * start and an end, the days remaining are counted from today to the
   * end; with a start and a count but no end, the end is the start plus
   * the count; otherwise nothing changes.
   */
  function ApplyPrazoLogic(p: Prazo, hoje: int): (r: Prazo)
    ensures r.inicio == p.inicio
    ensures p.fim.Some? ==> r.fim == p.fim
    ensures p.inicio.Some? && p.fim.Some? ==> r.dias == Some(p.fim.value - hoje)
    ensures p.inicio.Some? && p.fim.None? && p.dias.Some? ==> r.dias == p.dias && r.fim == Some(p.inicio.value + p.dias.value)
    ensures p.inicio.None? || (p.fim.None? && p.dias.None?) ==> r == p
  {
    if p.inicio.Some? && p.fim.Some? then Prazo(p.inicio, p.fim, Some(p.fim.value - hoje))
    else if p.inicio.Some? && p.dias.Some? then Prazo(p.inicio, Some(p.inicio.value + p.dias.value), p.dias)
    else p
  }

  /** The three cases, and the start is never touched. */
  lemma PrazoCases(p: Prazo, hoje: int)
    ensures ApplyPrazoLogic(p, hoje).inicio == p.inicio
    ensures p.inicio.Some? && p.fim.Some? ==> ApplyPrazoLogic(p, hoje) == Prazo(p.inicio, p.fim, Some(p.fim.value - hoje))
    ensures p.inicio.Some? && p.fim.None? && p.dias.Some? ==>
      ApplyPrazoLogic(p, hoje) == Prazo(p.inicio, Some(p.inicio.value + p.dias.value), p.dias)
    ensures p.inicio.None? ==> ApplyPrazoLogic(p, hoje) == p
    ensures p.inicio.Some? && p.fim.None? && p.dias.None? ==> ApplyPrazoLogic(p, hoje) == p
  {
  }

  /**
   * A deadline whose start is today (what `_save_row` gives a new record
   * without a start) comes out consistent: end minus today is the count.
   * Applying the rule again then changes nothing.
   */
  lemma PrazoFromToday(p: Prazo, hoje: int)
    requires p.inicio == Some(hoje)
    ensures var q := ApplyPrazoLogic(p, hoje);
      q.fim.Some? && q.dias.Some? ==> q.fim.value - hoje == q.dias.value
    ensures ApplyPrazoLogic(ApplyPrazoLogic(p, hoje), hoje) == ApplyPrazoLogic(p, hoje)
  {
  }

  /**
   * With a start in the past and only a count, a second application
   * recounts the days from today: saving the same form twice on a later
   * day gives a smaller count than the one typed in.
   */
  lemma PrazoRecountsFromToday(s: int, n: int, hoje: int)
    ensures var q := ApplyPrazoLogic(Prazo(Some(s), None, Some(n)), hoje);
      ApplyPrazoLogic(q, hoje).dias == Some(s + n - hoje)
  {
  }

  // ---------------------------------------------------------------------------
  // _show_calendar_warning
  // ---------------------------------------------------------------------------

  /** The session's list of calendar warnings. */
  class WarningLog {
    var warnings: seq<string>
    /** Every non-empty message offered so far, repeats included. */
    ghost var offered: seq<string>

    ghost predicate Valid()
      reads this
    {
      warnings == FirstOnes(offered, Same) && forall i :: 0 <= i < |offered| ==> offered[i] != ""
    }

    constructor()
      ensures Valid() && warnings == [] && offered == []
    {
      warnings := [];
      offered := [];
    }

    /**
     * `_show_calendar_warning(message)`: an empty or missing message is
     * ignored, a message already listed is not repeated, a new one is
     * appended and shown.
     */
    method Show(message: Option<string>) returns (shown: bool)
      requires Valid()
      modifies this
      ensures Valid()
      ensures message.None? || message.value == "" ==> warnings == old(warnings) && offered == old(offered) && !shown
      ensures message.Some? && message.value != "" ==> offered == old(offered) + [message.value]
      ensures message.Some? && message.value != "" && message.value in old(warnings) ==> warnings == old(warnings) && !shown
      ensures message.Some? && message.value != "" && message.value !in old(warnings) ==> warnings == old(warnings) + [message.value] && shown
    {
      if message.None? || message.value == "" {
        return false;
      }
      FirstOnesSameSnoc(offered, message.value);
      offered := offered + [message.value];
      if message.value in warnings {
        return false;
      }
      warnings := warnings + [message.value];
      shown := true;
    }
  }

  /** The list holds each offered message once, in the order it was first offered, and no empty one. */
  lemma WarningsDistinct(offered: seq<string>)
    requires forall i :: 0 <= i < |offered| ==> offered[i] != ""
    ensures forall i, j :: 0 <= i < j < |FirstOnes(offered, Same)| ==> FirstOnes(offered, Same)[i] != FirstOnes(offered, Same)[j]
    ensures forall m :: m in offered <==> m in FirstOnes(offered, Same)
    ensures forall m :: m in FirstOnes(offered, Same) ==> m != ""
  {
    FirstOnesSpec(offered, Same);
    FirstOnesElements(offered, Same);
    forall m | m in offered ensures m in FirstOnes(offered, Same) {
      InKeySetSame(offered, m);
      InKeySetSame(FirstOnes(offered, Same), m);
    }
  }

  // ---------------------------------------------------------------------------
  // Tables
  // ---------------------------------------------------------------------------

  /** A value stored in a database column: NULL, text, an integer, or a date (a day number). */
  datatype Value = VNull | VStr(s: string) | VInt(n: int) | VDay(d: int)

  /** A row: the values of its columns; a column that is absent reads as NULL. */
  type Row = map<string, Value>

  /** `getattr(rec, col, None)`. */
  function Get(r: Row, col: string): Value {
    if col in r then r[col] else VNull
  }

  /** Python truthiness of a stored value. */
  predicate Truthy(v: Value) {
    match v
    case VNull => false
    case VStr(s) => s != ""
    case VInt(n) => n != 0
    case VDay(_) => true
  }

  /** `a or b`. */
  function Or(a: Value, b: Value): Value {
    if Truthy(a) then a else b
  }

  function AsDay(v: Value): Option<int> {
    if v.VDay? then Some(v.d) else None
  }

  function AsInt(v: Value): Option<int> {
    if v.VInt? then Some(v.n) else None
  }

  function DayValue(o: Option<int>): Value {
    if o.Some? then VDay(o.value) else VNull
  }

  function IntValue(o: Option<int>): Value {
    if o.Some? then VInt(o.value) else VNull
  }

  /**
   * The start of `_save_row` for a new record: a missing start becomes
   * today and the deadline rule is applied to the three fields.
   */
  function NewRecordValues(values: Row, hoje: int): (r: Row)
    ensures "inicio_prazo" in values && values["inicio_prazo"] == VNull ==>
      r.Keys == values.Keys + {"fim_prazo", "dias_restantes"} && r["inicio_prazo"] == VDay(hoje)
    ensures !("inicio_prazo" in values && values["inicio_prazo"] == VNull) ==> r == values
  {
    if "inicio_prazo" in values && values["inicio_prazo"] == VNull then
      var p := ApplyPrazoLogic(Prazo(Some(hoje), AsDay(Get(values, "fim_prazo")), AsInt(Get(values, "dias_restantes"))), hoje);
      values["inicio_prazo" := VDay(hoje)]["fim_prazo" := DayValue(p.fim)]["dias_restantes" := IntValue(p.dias)]
    else values
  }

  const PrazoColumns: set<string> := {"inicio_prazo", "fim_prazo", "dias_restantes"}

  /** One table: its columns, its rows by id, and the next id the database hands out. */
  class Table {
    var columns: seq<string>
    var rows: map<nat, Row>
    var nextId: nat

    /**
     * Rows use only the table's columns (never "id", which is the key),
     * every id is below the next one, and a table with a start column
     * has the other two deadline columns as well.
     */
    predicate Valid()
      reads this
    {
      && "id" !in columns
      && ("inicio_prazo" in columns ==> "fim_prazo" in columns && "dias_restantes" in columns)
      && forall id :: id in rows ==> id < nextId && forall c :: c in rows[id] ==> c in columns
    }

    constructor(cols: seq<string>)
      requires "id" !in cols
      requires "inicio_prazo" in cols ==> "fim_prazo" in cols && "dias_restantes" in cols
      ensures Valid() && columns == cols && rows == map[] && nextId == 0
    {
      columns := cols;
      rows := map[];
      nextId := 0;
    }

    /** `db.add(model(**values))`: a new row under a fresh id. */
    method Insert(values: Row) returns (id: nat)
      requires Valid()
      requires forall c :: c in values ==> c in columns
      modifies this
      ensures Valid()
      ensures id == old(nextId) && nextId == old(nextId) + 1
      ensures rows == old(rows)[id := values] && columns == old(columns)
    {
      id := nextId;
      rows := rows[id := values];
      nextId := nextId + 1;
    }

    /** `query.filter(id == rec_id).update(values)`: nothing happens when the id is missing. */
    method Update(id: nat, values: Row)
      requires Valid()
      requires forall c :: c in values ==> c in columns
      modifies this
      ensures Valid()
      ensures rows == if id in old(rows) then old(rows)[id := old(rows)[id] + values] else old(rows)
      ensures columns == old(columns) && nextId == old(nextId)
    {
      if id in rows {
        rows := rows[id := rows[id] + values];
      }
    }

    /** `query.filter(id == rec_id).delete()`. */
    method Delete(id: nat)
      requires Valid()
      modifies this
      ensures Valid()
      ensures rows == old(rows) - {id} && columns == old(columns) && nextId == old(nextId)
    {
      rows := rows - {id};
    }
  }

  /** `_save_row(model, rec_id, values)` on the database side (the calendar sync is not modelled). */
  method SaveRow(t: Table, recId: Option<nat>, values: Row, hoje: int) returns (newId: Option<nat>)
    requires t.Valid()
    requires forall c :: c in values ==> c in t.columns
    modifies t
    ensures t.Valid() && t.columns == old(t.columns)
    ensures recId.None? ==> (newId == Some(old(t.nextId)) && t.nextId == old(t.nextId) + 1
      && t.rows == old(t.rows)[old(t.nextId) := NewRecordValues(values, hoje)])
    ensures recId.Some? ==> (newId == recId && t.nextId == old(t.nextId)
      && t.rows == if recId.value in old(t.rows) then old(t.rows)[recId.value := old(t.rows)[recId.value] + values] else old(t.rows))
  {
    if recId.None? {
      var v := NewRecordValues(values, hoje);
      var id := t.Insert(v);
      newId := Some(id);
    } else {
      t.Update(recId.value, values);
      newId := recId;
    }
  }

  // ---------------------------------------------------------------------------
  // _move_to_concluidas
  // ---------------------------------------------------------------------------

  /** The columns of the archive record. */
  const ConcluidaFields: set<string> := {
    "d", "inicio_prazo", "fim_prazo", "dias_restantes", "setor", "cliente", "processo",
    "para_ramon_e_adriana_despacharem", "status", "resposta_do_colaborador", "observacoes"
  }

  /**
   * One field of the archive record: the source's own column, or else
   * (when that is empty) the agenda's column of the same role.
   */
  function ConcluidaField(rec: Row, k: string): Value {
    if k == "d" then Or(Get(rec, "inicio_prazo"), Get(rec, "data"))
    else if k == "setor" then Or(Get(rec, "setor"), Get(rec, "horario"))
    else if k == "processo" then Or(Get(rec, "processo"), Get(rec, "numero_processo"))
    else if k == "para_ramon_e_adriana_despacharem" then Or(Get(rec, k), Get(rec, "anotado_na_agenda"))
    else if k == "resposta_do_colaborador" then Or(Get(rec, k), Get(rec, "cliente_avisado"))
    else if k == "observacoes" then Or(Get(rec, k), Get(rec, "observacao"))
    else Get(rec, k)
  }

  /** The archive record built from any source row. */
  function ConcluidaValues(rec: Row): (r: Row)
    ensures r.Keys == ConcluidaFields
  {
    map k | k in ConcluidaFields :: ConcluidaField(rec, k)
  }

  /** `{k: v for k, v in values.items() if k in cols}`. */
  function Restrict(values: Row, cols: seq<string>): (r: Row)
    ensures r.Keys == values.Keys * (set c | c in cols)
    ensures forall k :: k in r ==> r[k] == values[k]
  {
    map k | k in values && k in cols :: values[k]
  }

  /**
   * An agenda row (no deadline columns) is archived under its own date,
   * time, process number, note and flags.
   */
  lemma AgendaArchive(rec: Row)
    requires "inicio_prazo" !in rec && "setor" !in rec && "processo" !in rec && "observacoes" !in rec
    ensures ConcluidaValues(rec)["d"] == Get(rec, "data")
    ensures ConcluidaValues(rec)["inicio_prazo"] == VNull
    ensures ConcluidaValues(rec)["setor"] == Get(rec, "horario")
    ensures ConcluidaValues(rec)["processo"] == Get(rec, "numero_processo")
    ensures ConcluidaValues(rec)["observacoes"] == Get(rec, "observacao")
  {
  }

  /**
   * `_move_to_concluidas(model, rec_id)`: the archive gains one row with
   * exactly those fields of the record that are archive columns, and the
   * source loses the row; a missing id or row changes nothing.
   */
  method MoveToConcluidas(src: Table, dst: Table, recId: Option<nat>)
    requires src != dst && src.Valid() && dst.Valid()
    modifies src, dst
    ensures src.Valid() && dst.Valid() && src.columns == old(src.columns) && dst.columns == old(dst.columns)
    ensures src.nextId == old(src.nextId)
    ensures recId.None? || recId.value !in old(src.rows) ==>
      src.rows == old(src.rows) && dst.rows == old(dst.rows) && dst.nextId == old(dst.nextId)
    ensures recId.Some? && recId.value in old(src.rows) ==>
      && src.rows == old(src.rows) - {recId.value}
      && dst.rows == old(dst.rows)[old(dst.nextId) := Restrict(ConcluidaValues(old(src.rows)[recId.value]), dst.columns)]
      && dst.nextId == old(dst.nextId) + 1
      && |dst.rows| == |old(dst.rows)| + 1 && |src.rows| == |old(src.rows)| - 1
  {
    if recId.None? || recId.value !in src.rows {
      return;
    }
    var id := recId.value;
    var filtered := Restrict(ConcluidaValues(src.rows[id]), dst.columns);
    assert old(dst.nextId) !in dst.rows;
    var newId := dst.Insert(filtered);
    src.Delete(id);
  }

  // ---------------------------------------------------------------------------
  // _move_rows
  // ---------------------------------------------------------------------------

  /** `[c for c in src_cols if c in dst_cols and c != "id"]`. */
  function CommonColumns(srcCols: seq<string>, dstCols: seq<string>): (r: seq<string>)
    ensures forall c :: c in r <==> c in srcCols && c in dstCols && c != "id"
    ensures |r| <= |srcCols|
  {
    if srcCols == [] then []
    else
      var rest := CommonColumns(srcCols[..|srcCols| - 1], dstCols);
      var c := srcCols[|srcCols| - 1];
      if c in dstCols && c != "id" then rest + [c] else rest
  }

  /** The common columns keep the source's order: they are taken piece by piece. */
  lemma {:induction false} CommonColumnsAppend(a: seq<string>, b: seq<string>, dstCols: seq<string>)
    ensures CommonColumns(a + b, dstCols) == CommonColumns(a, dstCols) + CommonColumns(b, dstCols)
    decreases |b|
  {
    if b == [] {
      assert a + b == a;
    } else {
      var b' := b[..|b| - 1];
      assert (a + b)[..|a + b| - 1] == a + b';
      CommonColumnsAppend(a, b', dstCols);
    }
  }

  /** `{col: getattr(row, col) for col in common_cols}`. */
  function Project(r: Row, cols: seq<string>): (p: Row)
    ensures p.Keys == set c | c in cols
  {
    map c | c in cols :: Get(r, c)
  }

  /** The state of the two tables while rows move: source rows, target rows, target's next id. */
  datatype Move = Move(src: map<nat, Row>, dst: map<nat, Row>, next: nat)

  /** The effect of moving the rows `ids` one after the other (an id already moved, or missing, is skipped). */
  function MoveAll(m: Move, ids: seq<nat>, cols: seq<string>, hoje: int): Move
    decreases |ids|
  {
    if ids == [] then m
    else
      var prev := MoveAll(m, ids[..|ids| - 1], cols, hoje);
      var id := ids[|ids| - 1];
      if id in prev.src then
        Move(prev.src - {id}, prev.dst[prev.next := NewRecordValues(Project(prev.src[id], cols), hoje)], prev.next + 1)
      else prev
  }

  /**
   * After the moves the source has lost exactly the listed rows, and
   * every row the target gained (below the old next id nothing changes)
   * holds common columns only, so never "id".
   */
  lemma {:induction false} MoveAllShape(m: Move, ids: seq<nat>, cols: seq<string>, hoje: int)
    requires forall id :: id in m.dst ==> id < m.next
    ensures var r := MoveAll(m, ids, cols, hoje);
      r.src == m.src - (set i | i in ids) && r.next >= m.next
      && (forall id :: id in r.dst ==> id < r.next)
      && (forall id :: id in m.dst ==> id in r.dst && r.dst[id] == m.dst[id])
      && (forall id :: id in r.dst && id !in m.dst ==> r.dst[id].Keys <= (set c | c in cols) + PrazoColumns)
    decreases |ids|
  {
    if ids != [] {
      var p := ids[..|ids| - 1];
      MoveAllShape(m, p, cols, hoje);
      assert (set i | i in ids) == (set i | i in p) + {ids[|ids| - 1]};
    }
  }

  /** The record a moved source row becomes in the target. */
  function MovedRecord(row: Row, cols: seq<string>, hoje: int): Row {
    NewRecordValues(Project(row, cols), hoje)
  }

  /** `row` is what some listed source row became. */
  predicate Arrived(m: Move, ids: seq<nat>, cols: seq<string>, hoje: int, row: Row) {
    exists id :: id in ids && id in m.src && row == MovedRecord(m.src[id], cols, hoje)
  }

  /** What the source row `id` became is among the target's new rows. */
  predicate Delivered(r: Move, m: Move, cols: seq<string>, hoje: int, id: nat)
    requires id in m.src
  {
    exists n :: n in r.dst && n !in m.dst && r.dst[n] == MovedRecord(m.src[id], cols, hoje)
  }

  /**
   * The values of the moved rows: every new target row is the copy, on the
   * common columns and with the deadline rule applied, of a listed source
   * row, and every listed source row has such a copy in the target.
   */
  lemma {:induction false} MoveAllValues(m: Move, ids: seq<nat>, cols: seq<string>, hoje: int)
    requires forall id :: id in m.dst ==> id < m.next
    ensures var r := MoveAll(m, ids, cols, hoje);
      && (forall n :: n in r.dst && n !in m.dst ==> Arrived(m, ids, cols, hoje, r.dst[n]))
      && (forall id :: id in ids && id in m.src ==> Delivered(r, m, cols, hoje, id))
    decreases |ids|
  {
    if ids != [] {
      var p, id := ids[..|ids| - 1], ids[|ids| - 1];
      MoveAllValues(m, p, cols, hoje);
      MoveAllShape(m, p, cols, hoje);
      var prev := MoveAll(m, p, cols, hoje);
      var r := MoveAll(m, ids, cols, hoje);
      assert forall i :: i in p ==> i in ids;
      forall n | n in r.dst && n !in m.dst ensures Arrived(m, ids, cols, hoje, r.dst[n]) {
        if id in prev.src && n == prev.next {
          assert r.dst[n] == MovedRecord(m.src[id], cols, hoje);
        } else {
          assert n in prev.dst && r.dst[n] == prev.dst[n];
          assert Arrived(m, p, cols, hoje, prev.dst[n]);
        }
      }
      forall i | i in ids && i in m.src ensures Delivered(r, m, cols, hoje, i) {
        if i in p {
          assert Delivered(prev, m, cols, hoje, i);
          var n :| n in prev.dst && n !in m.dst && prev.dst[n] == MovedRecord(m.src[i], cols, hoje);
          assert n in r.dst && r.dst[n] == prev.dst[n];
        } else {
          assert i == id && id in prev.src;
          assert prev.next !in m.dst;
          assert r.dst[prev.next] == MovedRecord(m.src[i], cols, hoje);
        }
      }
    }
  }

  /** Each row that leaves the source arrives in the target: one in, one out, at every step. */
  lemma {:induction false} MoveAllCount(m: Move, ids: seq<nat>, cols: seq<string>, hoje: int)
    requires forall id :: id in m.dst ==> id < m.next
    ensures var r := MoveAll(m, ids, cols, hoje);
      |r.dst| - |m.dst| == |m.src| - |r.src| == r.next - m.next
    decreases |ids|
  {
    if ids != [] {
      var p := ids[..|ids| - 1];
      var id := ids[|ids| - 1];
      MoveAllCount(m, p, cols, hoje);
      MoveAllShape(m, p, cols, hoje);
      var prev := MoveAll(m, p, cols, hoje);
      if id in prev.src {
        assert prev.next !in prev.dst;
        assert |prev.src - {id}| == |prev.src| - 1;
        assert |prev.dst[prev.next := NewRecordValues(Project(prev.src[id], cols), hoje)]| == |prev.dst| + 1;
      }
    }
  }

  /**
   * `_move_rows(src_model, dst_model, ids)`: each listed row is copied on
   * the columns both tables share (without "id") as a new target record,
   * then deleted from the source (agenda calendar clean-up not modelled).
   */
  method MoveRows(src: Table, dst: Table, ids: seq<nat>, hoje: int)
    requires src != dst && src.Valid() && dst.Valid()
    modifies src, dst
    ensures src.Valid() && dst.Valid()
    ensures src.columns == old(src.columns) && dst.columns == old(dst.columns) && src.nextId == old(src.nextId)
    ensures Move(src.rows, dst.rows, dst.nextId) ==
      MoveAll(Move(old(src.rows), old(dst.rows), old(dst.nextId)), ids, CommonColumns(old(src.columns), old(dst.columns)), hoje)
  {
    if ids == [] {
      return;
    }
    var cols := CommonColumns(src.columns, dst.columns);
    ghost var m0 := Move(src.rows, dst.rows, dst.nextId);
    for i := 0 to |ids|
      invariant src.Valid() && dst.Valid()
      invariant src.columns == old(src.columns) && dst.columns == old(dst.columns) && src.nextId == old(src.nextId)
      invariant Move(src.rows, dst.rows, dst.nextId) == MoveAll(m0, ids[..i], cols, hoje)
    {
      assert ids[..i + 1][..i] == ids[..i];
      var id := ids[i];
      if id in src.rows {
        var data := Project(src.rows[id], cols);
        var newId := SaveRow(dst, None, data, hoje);
        src.Delete(id);
      }
    }
    assert ids[..|ids|] == ids;
  }

  // ---------------------------------------------------------------------------
  // The publication form
  // ---------------------------------------------------------------------------

  /** The sector names that send a publication to the financial table, after trimming and lower-casing. */
  const FinanceSetores: set<string> := {"livia", "financeiro", "setor financeiro"}

  predicate RoutesToFinance(setor: string) {
    Lower(Strip(setor)) in FinanceSetores
  }

  /** The e-mail importer's financial sector routes to the financial table. */
  lemma ImporterFinanceRoutes()
    ensures RoutesToFinance(FinanceSector)
  {
    StripSetNoop(FinanceSector, Whitespace);
    assert Lower(FinanceSector) == "setor financeiro";
  }

  /** The importer's default sector does not. */
  lemma ImporterDefaultStays()
    ensures !RoutesToFinance(DefaultSector)
  {
    StripSetNoop(DefaultSector, Whitespace);
    assert Lower(DefaultSector) == "taina";
  }

  /** The accented spelling "Lívia" is not one of the names. */
  lemma AccentedLiviaStays()
    ensures !RoutesToFinance("L\U{00ED}via")
  {
    StripSetNoop("L\U{00ED}via", Whitespace);
    assert Lower("L\U{00ED}via")[1] == '\U{00ED}';
  }

  /** The form's fields after the deadline rule (dates as day numbers). */
  datatype PubForm = PubForm(
    prazo: Prazo, setor: string, cliente: string, processo: string, para: string,
    status: string, resposta: string, observacoes: string)

  /** `x or None` on a text field. */
  function TextValue(s: string): Value {
    if s == "" then VNull else VStr(s)
  }

  const PubKeys: set<string> := {
    "inicio_prazo", "fim_prazo", "dias_restantes", "setor", "cliente", "processo",
    "para_ramon_e_adriana_despacharem", "status", "resposta_do_colaborador", "observacoes"
  }

  const AgendaKeys: set<string> := {
    "idx", "data", "horario", "status", "cliente", "cliente_avisado", "anotado_na_agenda",
    "observacao", "numero_processo", "tipo_audiencia_pericia", "materia", "parte_adversa", "sistema"
  }

  /** The record saved to the publication or financial table. */
  function PubValues(f: PubForm): (r: Row)
    ensures r.Keys == PubKeys
  {
    map[
      "inicio_prazo" := DayValue(f.prazo.inicio), "fim_prazo" := DayValue(f.prazo.fim),
      "dias_restantes" := IntValue(f.prazo.dias), "setor" := TextValue(f.setor),
      "cliente" := TextValue(f.cliente), "processo" := TextValue(f.processo),
      "para_ramon_e_adriana_despacharem" := TextValue(f.para), "status" := TextValue(f.status),
      "resposta_do_colaborador" := TextValue(f.resposta), "observacoes" := TextValue(f.observacoes)
    ]
  }

  /** One field of the agenda record of a publication whose answer mentions a hearing or an exam. */
  function AgendaField(f: PubForm, tipo: string, k: string): Value {
    if k == "data" then DayValue(if f.prazo.fim.Some? then f.prazo.fim else f.prazo.inicio)
    else if k == "cliente" then TextValue(f.cliente)
    else if k == "observacao" then TextValue(if f.resposta != "" then f.resposta else f.observacoes)
    else if k == "numero_processo" then TextValue(f.processo)
    else if k == "tipo_audiencia_pericia" then VStr(tipo)
    else if k == "sistema" then VStr("manual")
    else VNull
  }

  function AgendaValues(f: PubForm, tipo: string): (r: Row)
    ensures r.Keys == AgendaKeys && "inicio_prazo" !in r
  {
    map k | k in AgendaKeys :: AgendaField(f, tipo, k)
  }

  /** Where a submitted publication goes. */
  datatype Destination = ToAgenda(tipo: string) | ToFinanceiro | StaysPublicacao

  /** The agenda wins when the answer mentions a hearing or an exam, then the sector decides. */
  function SubmitDestination(f: PubForm): (r: Destination)
    ensures r.ToAgenda? <==> DetectAudienciaPericia(Str(f.resposta)).Some?
    ensures r == ToFinanceiro <==> DetectAudienciaPericia(Str(f.resposta)).None? && RoutesToFinance(f.setor)
  {
    var tipo := DetectAudienciaPericia(Str(f.resposta));
    if tipo.Some? then ToAgenda(tipo.value)
    else if RoutesToFinance(f.setor) then ToFinanceiro
    else StaysPublicacao
  }

  /**
   * The "Salvar" branch of the publication form, once the deadline rule
   * has been applied to the form: the record is saved to the agenda or
   * to the financial table (and the edited publication deleted), or is
   * saved back to the publications.
   */
  method SubmitPublicacao(pub: Table, fin: Table, agenda: Table, target: Option<nat>, f: PubForm, hoje: int)
    requires pub != fin && pub != agenda && fin != agenda
    requires pub.Valid() && fin.Valid() && agenda.Valid()
    requires forall c :: c in PubKeys ==> c in pub.columns && c in fin.columns
    requires forall c :: c in AgendaKeys ==> c in agenda.columns
    modifies pub, fin, agenda
    ensures pub.Valid() && fin.Valid() && agenda.Valid()
    ensures SubmitDestination(f).ToAgenda? ==>
      && agenda.rows == old(agenda.rows)[old(agenda.nextId) := NewRecordValues(AgendaValues(f, SubmitDestination(f).tipo), hoje)]
      && fin.rows == old(fin.rows)
      && pub.rows == if target.Some? then old(pub.rows) - {target.value} else old(pub.rows)
    ensures SubmitDestination(f) == ToFinanceiro ==>
      && fin.rows == old(fin.rows)[old(fin.nextId) := NewRecordValues(PubValues(f), hoje)]
      && agenda.rows == old(agenda.rows)
      && pub.rows == if target.Some? then old(pub.rows) - {target.value} else old(pub.rows)
    ensures SubmitDestination(f) == StaysPublicacao ==>
      && fin.rows == old(fin.rows) && agenda.rows == old(agenda.rows)
      && (target.None? ==> pub.rows == old(pub.rows)[old(pub.nextId) := NewRecordValues(PubValues(f), hoje)])
      && (target.Some? && target.value in old(pub.rows) ==>
            pub.rows == old(pub.rows)[target.value := old(pub.rows)[target.value] + PubValues(f)])
      && (target.Some? && target.value !in old(pub.rows) ==> pub.rows == old(pub.rows))
  {
    var d := SubmitDestination(f);
    if d.ToAgenda? {
      var idA := SaveRow(agenda, None, AgendaValues(f, d.tipo), hoje);
      if target.Some? {
        pub.Delete(target.value);
      }
    } else if d == ToFinanceiro {
      var idF := SaveRow(fin, None, PubValues(f), hoje);
      if target.Some? {
        pub.Delete(target.value);
      }
    } else {
      var idP := SaveRow(pub, target, PubValues(f), hoje);
    }
  }
}
