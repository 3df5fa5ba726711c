/**
 * The PJe Comunica scraper (`scrap_pje.py`): reading dates, normalising a
 * scraped card into a publication, the dedupe key and the upsert on it,
 * and the day-by-day run that advances the "pje_comunica" watermark after
 * each successful day.  Page fetching (browser, scrolling, retries) is an
 * oracle that gives the raw cards of a day or fails; the database is a
 * table keyed by the dedupe key plus the scope-keyed watermark map.
 */
module PjeScrape {
  import opened Wrappers
  import opened Strings
  import opened Dates
  import opened EmailScanners
  import opened EmailText

  /** The dates `datetime.date` can hold. */
  type Day = d: CivilDate | Valid(d) witness CivilDate(2000, 1, 1)

  const Scope := "pje_comunica"
  const Oab := "198943"
  const Fonte := "PJe Comunica"
  /** `execute_values` sends the rows in pages of this many, one INSERT command per page. */
  const PageSize := 100

  // ---------------------------------------------------------------------------
  // `parse_date_br`
  // ---------------------------------------------------------------------------

  /** `parse_date_br`: the trimmed text as `%d/%m/%Y`, else as `%Y-%m-%d`, else None. */
  function ParseDateBr(s: string): (r: Option<CivilDate>)
    ensures r.Some? ==> Valid(r.value)
  {
    var t := Strip(s);
    var dmy := ParseDayMonthYear(t, false);
    if dmy.Some? then dmy else ParseYearMonthDay(t)
  }

  /** Both accepted layouts read back the date they were written from. */
  lemma ParseDateBrReadsBothLayouts(d: CivilDate)
    requires Valid(d)
    ensures ParseDateBr(FormatDayMonthYear(d)) == Some(d)
    ensures ParseDateBr(FormatIso(d)) == Some(d)
  {
    var a := FormatDayMonthYear(d);
    var b := FormatIso(d);
    ParseFormatDayMonthYear(d);
    ParseFormatIso(d);
    IsoHasNoSlash(d);
    assert a[0] == Pad2(d.day)[0] && a[|a| - 1] == Pad4(d.year)[3];
    assert b[0] == Pad4(d.year)[0] && b[|b| - 1] == Pad2(d.day)[1];
    DigitNotSpace(a[0]);
    DigitNotSpace(a[|a| - 1]);
    DigitNotSpace(b[0]);
    DigitNotSpace(b[|b| - 1]);
    StripSetNoop(a, Whitespace);
    StripSetNoop(b, Whitespace);
  }

  /** Surrounding blanks do not matter. */
  lemma ParseDateBrIgnoresBlanks(s: string)
    ensures ParseDateBr(Strip(s)) == ParseDateBr(s)
  {
    StripSetIdempotent(s, Whitespace);
  }

  // ---------------------------------------------------------------------------
  // `normalize_record`
  // ---------------------------------------------------------------------------

  /** A scraped card: the texts next to the labels, the card text and its HTML. */
  datatype RawRecord = RawRecord(dataDisponibilizacao: string, partes: string, processo: string, texto: string, rawHtml: string)

  /** A row of `publicacoes` (without the capture time). */
  datatype Publication = Publication(
    inicioPrazo: Day, setor: string, cliente: string, processo: string,
    observacoes: string, fonte: string, oab: string, rawHtml: string)

  /** `normalize_record`, with `date.today()` as a parameter. */
  function NormalizeRecord(raw: RawRecord, today: Day): Publication {
    var parsed := ParseDateBr(raw.dataDisponibilizacao);
    var inicio: Day := if parsed.Some? then parsed.value else today;
    var observacoes := CollapseSpaces(raw.texto);
    Publication(inicio, ChecarPalavraChave(observacoes), raw.partes, FirstCnj(raw.processo),
                observacoes, Fonte, Oab, raw.rawHtml)
  }

  /**
   * The process number is the first CNJ number in the scraped text, or ""
   * without one; an unreadable date becomes today; the notes are the card
   * text with blank runs collapsed to one space and trimmed, and the
   * sector is the keyword classification of those notes.
   */
  lemma NormalizeRecordShape(raw: RawRecord, today: Day)
    ensures var p := NormalizeRecord(raw, today);
            && (p.processo == "" <==> forall k :: !IsCnjAt(raw.processo, k))
            && (p.processo != "" ==> |p.processo| == 25 && IsCnjAt(p.processo, 0))
            && (ParseDateBr(raw.dataDisponibilizacao).None? ==> p.inicioPrazo == today)
            && (ParseDateBr(raw.dataDisponibilizacao).Some? ==> p.inicioPrazo == ParseDateBr(raw.dataDisponibilizacao).value)
            && SingleSpaced(p.observacoes)
            && NonSpace(p.observacoes) == NonSpace(raw.texto)
            && (p.setor == FinanceSector || p.setor == DefaultSector)
            && p.cliente == raw.partes && p.fonte == Fonte && p.oab == Oab
  {
    CollapseSpacesShape(raw.texto);
    var c := FirstCnj(raw.processo);
    if c != "" {
      var k :| IsCnjAt(raw.processo, k) && c == raw.processo[k..k + 25];
      assert IsCnjAt(c, 0);
    }
  }

  function NormalizeAll(raws: seq<RawRecord>, today: Day): seq<Publication>
  {
    seq(|raws|, i requires 0 <= i < |raws| => NormalizeRecord(raws[i], today))
  }

  // ---------------------------------------------------------------------------
  // The dedupe key and the upsert
  // ---------------------------------------------------------------------------

  /** What `compute_hash` digests: the lower-cased process number, the start date and the notes. */
  datatype DedupKey = DedupKey(processo: string, inicio: CivilDate, observacoes: string)

  function KeyOf(p: Publication): DedupKey {
    DedupKey(Lower(p.processo), p.inicioPrazo, p.observacoes)
  }

  type Table = map<DedupKey, Publication>

  /** Inserting each publication in turn, a row with an existing key being updated in full. */
  function Upserted(t: Table, ps: seq<Publication>): Table
    decreases |ps|
  {
    if ps == [] then t else Upserted(t[KeyOf(ps[0]) := ps[0]], ps[1..])
  }

  /** The last publication of `ps` with key `k`, if any. */
  function Latest(ps: seq<Publication>, k: DedupKey): (r: Option<Publication>)
    ensures r.Some? ==> KeyOf(r.value) == k && r.value in ps
    decreases |ps|
  {
    if ps == [] then None
    else
      var later := Latest(ps[1..], k);
      if later.Some? then later else if KeyOf(ps[0]) == k then Some(ps[0]) else None
  }

  predicate HasKey(ps: seq<Publication>, k: DedupKey) {
    exists i :: 0 <= i < |ps| && KeyOf(ps[i]) == k
  }

  lemma {:induction false} LatestIffHasKey(ps: seq<Publication>, k: DedupKey)
    ensures Latest(ps, k).Some? <==> HasKey(ps, k)
    decreases |ps|
  {
    if ps != [] {
      LatestIffHasKey(ps[1..], k);
      if HasKey(ps[1..], k) {
        var i :| 0 <= i < |ps[1..]| && KeyOf(ps[1..][i]) == k;
        assert KeyOf(ps[i + 1]) == k;
      }
      if HasKey(ps, k) {
        var i :| 0 <= i < |ps| && KeyOf(ps[i]) == k;
        if i > 0 {
          assert KeyOf(ps[1..][i - 1]) == k;
        }
      }
    }
  }

  /** After the upsert, a key holds the last publication with that key, or its old row when the batch has none. */
  lemma {:induction false} UpsertedLookup(t: Table, ps: seq<Publication>, k: DedupKey)
    ensures k in Upserted(t, ps) <==> k in t || Latest(ps, k).Some?
    ensures k in Upserted(t, ps) ==>
              Upserted(t, ps)[k] == if Latest(ps, k).Some? then Latest(ps, k).value else t[k]
    decreases |ps|
  {
    if ps != [] {
      UpsertedLookup(t[KeyOf(ps[0]) := ps[0]], ps[1..], k);
    }
  }

  /** The rows after the upsert: the old keys and the batch's keys. */
  lemma UpsertedKeys(t: Table, ps: seq<Publication>, k: DedupKey)
    ensures k in Upserted(t, ps) <==> k in t || HasKey(ps, k)
  {
    UpsertedLookup(t, ps, k);
    LatestIffHasKey(ps, k);
  }

  /** Upserting a publication whose key is already stored updates that row and adds none. */
  lemma UpsertExistingKey(t: Table, p: Publication)
    requires KeyOf(p) in t
    ensures Upserted(t, [p]).Keys == t.Keys
    ensures Upserted(t, [p])[KeyOf(p)] == p
  {
    assert [p][1..] == [];
  }

  /** Saving the same batch twice leaves the table as saving it once. */
  lemma UpsertIdempotent(t: Table, ps: seq<Publication>)
    ensures Upserted(Upserted(t, ps), ps) == Upserted(t, ps)
  {
    var u := Upserted(t, ps);
    forall k
      ensures k in Upserted(u, ps) <==> k in u
      ensures k in u ==> Upserted(u, ps)[k] == u[k]
    {
      UpsertedLookup(t, ps, k);
      UpsertedLookup(u, ps, k);
    }
  }

  // ---------------------------------------------------------------------------
  // `save_records`
  // ---------------------------------------------------------------------------

  /** Two publications of the same INSERT page share a key. */
  predicate PageRepeatsKey(ps: seq<Publication>) {
    exists i, j :: 0 <= i < j < |ps| && i / PageSize == j / PageSize && KeyOf(ps[i]) == KeyOf(ps[j])
  }

  /**
   * `save_records` as written: no statement for an empty batch; otherwise one
   * `ON CONFLICT DO UPDATE` command per page, all in one transaction.  A
   * command that would update the same row twice raises, and nothing is
   * committed (None).
   */
  function SaveAsWritten(t: Table, ps: seq<Publication>): Option<Table> {
    if ps == [] then Some(t)
    else if PageRepeatsKey(ps) then None
    else Some(Upserted(t, ps))
  }

  /** A day whose cards repeat a key cannot be saved as written, although upserting it is well defined. */
  lemma SaveAsWrittenRejectsRepeatedKey(t: Table, p: Publication)
    ensures SaveAsWritten(t, [p, p]) == None
    ensures Upserted(t, [p, p]) == t[KeyOf(p) := p]
  {
    var ps := [p, p];
    assert 0 / PageSize == 1 / PageSize && KeyOf(ps[0]) == KeyOf(ps[1]);
    var t1 := t[KeyOf(p) := p];
    assert ps[1..] == [p] && [p][1..] == [];
    assert Upserted(t1[KeyOf(p) := p], []) == t1[KeyOf(p) := p] == t1;
    assert Upserted(t1, [p]) == t1;
    assert Upserted(t, ps) == Upserted(t1, [p]);
  }

  predicate DistinctKeys(ps: seq<Publication>) {
    forall i, j :: 0 <= i < j < |ps| ==> KeyOf(ps[i]) != KeyOf(ps[j])
  }

  lemma HasKeyOfTail(ps: seq<Publication>)
    requires ps != []
    ensures forall k :: HasKey(ps[1..], k) ==> HasKey(ps, k)
  {
    forall k | HasKey(ps[1..], k) ensures HasKey(ps, k) {
      var i :| 0 <= i < |ps[1..]| && KeyOf(ps[1..][i]) == k;
      assert KeyOf(ps[i + 1]) == k;
    }
  }

  lemma HasKeyOfCons(p: Publication, rest: seq<Publication>)
    ensures forall k :: HasKey([p] + rest, k) ==> KeyOf(p) == k || HasKey(rest, k)
    ensures !HasKey(rest, KeyOf(p)) ==> forall j :: 0 <= j < |rest| ==> KeyOf(rest[j]) != KeyOf(p)
  {
    forall k | HasKey([p] + rest, k) ensures KeyOf(p) == k || HasKey(rest, k) {
      var i :| 0 <= i < |[p] + rest| && KeyOf(([p] + rest)[i]) == k;
      if i > 0 {
        assert KeyOf(rest[i - 1]) == k;
      }
    }
  }

  /** The batch with only the last publication of each key, in order. */
  function LastPerKey(ps: seq<Publication>): (r: seq<Publication>)
    ensures DistinctKeys(r)
    ensures forall k :: HasKey(r, k) ==> HasKey(ps, k)
    ensures r == [] <==> ps == []
    decreases |ps|
  {
    if ps == [] then []
    else
      var rest := LastPerKey(ps[1..]);
      HasKeyOfTail(ps);
      if HasKey(ps[1..], KeyOf(ps[0])) then rest
      else
        HasKeyOfCons(ps[0], rest);
        [ps[0]] + rest
  }

  /** Keeping the last publication per key changes no lookup. */
  lemma {:induction false} LatestOfLastPerKey(ps: seq<Publication>, k: DedupKey)
    ensures Latest(LastPerKey(ps), k) == Latest(ps, k)
    decreases |ps|
  {
    if ps != [] {
      var rest := LastPerKey(ps[1..]);
      LatestOfLastPerKey(ps[1..], k);
      if HasKey(ps[1..], KeyOf(ps[0])) {
        if KeyOf(ps[0]) == k {
          LatestIffHasKey(ps[1..], k);
        }
      } else {
        assert ([ps[0]] + rest)[1..] == rest;
      }
    }
  }

  /** Keeping only the last publication per key leaves the upsert's result as it was. */
  lemma UpsertedLastPerKey(t: Table, ps: seq<Publication>)
    ensures Upserted(t, LastPerKey(ps)) == Upserted(t, ps)
  {
    var r := LastPerKey(ps);
    forall k
      ensures k in Upserted(t, r) <==> k in Upserted(t, ps)
      ensures k in Upserted(t, r) ==> Upserted(t, r)[k] == Upserted(t, ps)[k]
    {
      UpsertedLookup(t, r, k);
      UpsertedLookup(t, ps, k);
      LatestOfLastPerKey(ps, k);
    }
  }

  /**
   * `save_records` with the batch first reduced to the last publication per
   * key: no page repeats a key, so the save always commits, and the table
   * ends as upserting the whole batch in order.
   */
  function SaveRecords(t: Table, ps: seq<Publication>): Option<Table> {
    SaveAsWritten(t, LastPerKey(ps))
  }

  lemma SaveRecordsCommits(t: Table, ps: seq<Publication>)
    ensures SaveRecords(t, ps) == Some(Upserted(t, ps))
  {
    var r := LastPerKey(ps);
    assert !PageRepeatsKey(r);
    if ps != [] {
      UpsertedLastPerKey(t, ps);
    }
  }

  // ---------------------------------------------------------------------------
  // The database and `run`
  // ---------------------------------------------------------------------------

  /** A watermark instant: a day and a time of day in the scraper's time zone. */
  datatype Checkpoint = Checkpoint(day: Day, hour: nat, minute: nat, second: nat)

  function EndOfDay(d: Day): Checkpoint { Checkpoint(d, 23, 59, 59) }

  /** The database as a value: the publications table and the watermarks by scope. */
  datatype Db = Db(publicacoes: Table, lastChecked: map<string, Checkpoint>)

  function Watermark(db: Db): Option<Checkpoint> {
    if Scope in db.lastChecked then Some(db.lastChecked[Scope]) else None
  }

  datatype RunOutcome = Finished(total: nat) | RangeError | DateOverflow

  /** The day range: a missing bound makes the start the watermark's day (or today) and the end today; given bounds are kept. */
  function ResolveRange(fromDate: Option<Day>, toDate: Option<Day>, watermark: Option<Checkpoint>, today: Day): (Day, Day) {
    if fromDate.Some? && toDate.Some? then (fromDate.value, toDate.value)
    else
      var start: Day := if watermark.Some? then watermark.value.day else today;
      (if fromDate.Some? then fromDate.value else start, if toDate.Some? then toDate.value else today)
  }

  /**
   * The days from `cur` to `to`: fetch, normalise, save unless dry-run, then
   * set the watermark to the end of the day; a failed fetch or save ends the
   * loop (a failed save commits nothing).  Stepping past `date.max` raises.
   */
  function DayLoop(db: Db, cur: Day, to: Day, dryRun: bool, today: Day,
                   fetch: Day -> Option<seq<RawRecord>>, save: (Table, seq<Publication>) -> Option<Table>,
                   total: nat): (r: (Db, RunOutcome))
    decreases Rank(to) - Rank(cur)
  {
    if Less(to, cur) then (db, Finished(total))
    else
      var raw := fetch(cur);
      if raw.None? then (db, Finished(total))
      else
        var norm := NormalizeAll(raw.value, today);
        var saved := if dryRun then Some(db.publicacoes) else save(db.publicacoes, norm);
        if saved.None? then (db, Finished(total))
        else
          var db' := Db(saved.value, db.lastChecked[Scope := EndOfDay(cur)]);
          var total' := if dryRun then total else total + |norm|;
          if cur == MaxDate then (db', DateOverflow)
          else
            LessRank(to, cur);
            LessRank(cur, NextDay(cur));
            DayLoop(db', NextDay(cur), to, dryRun, today, fetch, save, total')
  }

  /** `run`: resolve the range, reject a reversed one, then walk the days. */
  function RunSpec(db: Db, fromDate: Option<Day>, toDate: Option<Day>, dryRun: bool, today: Day,
                   fetch: Day -> Option<seq<RawRecord>>, save: (Table, seq<Publication>) -> Option<Table>): (Db, RunOutcome)
  {
    var range := ResolveRange(fromDate, toDate, Watermark(db), today);
    if Less(range.1, range.0) then (db, RangeError)
    else DayLoop(db, range.0, range.1, dryRun, today, fetch, save, 0)
  }

  /** A reversed range is an error and changes nothing; any other range is walked. */
  lemma RunRangeCheck(db: Db, fromDate: Option<Day>, toDate: Option<Day>, dryRun: bool, today: Day,
                      fetch: Day -> Option<seq<RawRecord>>, save: (Table, seq<Publication>) -> Option<Table>)
    ensures var range := ResolveRange(fromDate, toDate, Watermark(db), today);
            var r := RunSpec(db, fromDate, toDate, dryRun, today, fetch, save);
            && (Less(range.1, range.0) <==> r.1 == RangeError)
            && (r.1 == RangeError ==> r.0 == db)
  {
    var range := ResolveRange(fromDate, toDate, Watermark(db), today);
    if !Less(range.1, range.0) {
      DayLoopNeverRangeError(db, range.0, range.1, dryRun, today, fetch, save, 0);
    }
  }

  lemma {:induction false} DayLoopNeverRangeError(db: Db, cur: Day, to: Day, dryRun: bool, today: Day,
                                                 fetch: Day -> Option<seq<RawRecord>>, save: (Table, seq<Publication>) -> Option<Table>,
                                                 total: nat)
    ensures DayLoop(db, cur, to, dryRun, today, fetch, save, total).1 != RangeError
    decreases Rank(to) - Rank(cur)
  {
    if !Less(to, cur) && fetch(cur).Some? && cur != MaxDate {
      var norm := NormalizeAll(fetch(cur).value, today);
      var saved := if dryRun then Some(db.publicacoes) else save(db.publicacoes, norm);
      if saved.Some? {
        LessRank(to, cur);
        LessRank(cur, NextDay(cur));
        DayLoopNeverRangeError(Db(saved.value, db.lastChecked[Scope := EndOfDay(cur)]), NextDay(cur), to, dryRun, today, fetch, save,
                               if dryRun then total else total + |norm|);
      }
    }
  }

  /** A dry run saves nothing and counts nothing. */
  lemma {:induction false} DryRunSavesNothing(db: Db, cur: Day, to: Day, today: Day,
                                             fetch: Day -> Option<seq<RawRecord>>, save: (Table, seq<Publication>) -> Option<Table>,
                                             total: nat)
    ensures var r := DayLoop(db, cur, to, true, today, fetch, save, total);
            r.0.publicacoes == db.publicacoes && (r.1 == Finished(total) || r.1 == DateOverflow)
    decreases Rank(to) - Rank(cur)
  {
    if !Less(to, cur) && fetch(cur).Some? && cur != MaxDate {
      LessRank(to, cur);
      LessRank(cur, NextDay(cur));
      DryRunSavesNothing(Db(db.publicacoes, db.lastChecked[Scope := EndOfDay(cur)]), NextDay(cur), to, today, fetch, save, total);
    }
  }

  /**
   * The loop stops at the first failing day: two fetch oracles that agree
   * up to a day whose fetch fails give the same run, so no later day is
   * ever attempted.
   */
  lemma {:induction false} NothingAfterFailure(db: Db, cur: Day, to: Day, dryRun: bool, today: Day,
                                              fetch: Day -> Option<seq<RawRecord>>, fetch': Day -> Option<seq<RawRecord>>,
                                              save: (Table, seq<Publication>) -> Option<Table>, total: nat, fail: Day)
    requires fetch(fail).None? && LessEq(cur, fail)
    requires forall d: Day :: LessEq(d, fail) ==> fetch(d) == fetch'(d)
    ensures DayLoop(db, cur, to, dryRun, today, fetch, save, total) == DayLoop(db, cur, to, dryRun, today, fetch', save, total)
    decreases Rank(to) - Rank(cur)
  {
    assert fetch(cur) == fetch'(cur);
    if !Less(to, cur) && fetch(cur).Some? && cur != MaxDate {
      var norm := NormalizeAll(fetch(cur).value, today);
      var saved := if dryRun then Some(db.publicacoes) else save(db.publicacoes, norm);
      if saved.Some? {
        assert cur != fail;
        var next: Day := NextDay(cur);
        assert LessEq(next, fail);
        LessRank(to, cur);
        LessRank(cur, next);
        NothingAfterFailure(Db(saved.value, db.lastChecked[Scope := EndOfDay(cur)]), next, to, dryRun, today, fetch, fetch', save,
                            if dryRun then total else total + |norm|, fail);
      }
    }
  }

  /** The loop writes only the "pje_comunica" watermark: other scopes keep theirs. */
  lemma {:induction false} OtherScopesKept(db: Db, cur: Day, to: Day, dryRun: bool, today: Day,
                                          fetch: Day -> Option<seq<RawRecord>>, save: (Table, seq<Publication>) -> Option<Table>,
                                          total: nat)
    ensures var r := DayLoop(db, cur, to, dryRun, today, fetch, save, total).0;
            forall s :: s != Scope ==> ((s in r.lastChecked <==> s in db.lastChecked)
                                     && (s in db.lastChecked ==> r.lastChecked[s] == db.lastChecked[s]))
    decreases Rank(to) - Rank(cur)
  {
    if !Less(to, cur) && fetch(cur).Some? {
      var raw := fetch(cur).value;
      var saved := if dryRun then Some(db.publicacoes) else save(db.publicacoes, NormalizeAll(raw, today));
      if saved.Some? {
        var after := Db(saved.value, db.lastChecked[Scope := EndOfDay(cur)]);
        var total' := if dryRun then total else total + |raw|;
        DayLoopSaved(db, cur, to, dryRun, today, fetch, save, total, raw, after, total');
        if cur != MaxDate {
          LessRank(to, cur);
          LessRank(cur, NextDay(cur));
          OtherScopesKept(after, NextDay(cur), to, dryRun, today, fetch, save, total');
        }
      }
    }
  }

  /**
   * The watermark after the loop: unchanged when the first day fails, and
   * otherwise the end of a day between `cur` and `to` whose fetch
   * succeeded.
   */
  lemma {:induction false} WatermarkIsLastGoodDay(db: Db, cur: Day, to: Day, dryRun: bool, today: Day,
                                                 fetch: Day -> Option<seq<RawRecord>>, save: (Table, seq<Publication>) -> Option<Table>,
                                                 total: nat)
    ensures var r := DayLoop(db, cur, to, dryRun, today, fetch, save, total).0;
            || Watermark(r) == Watermark(db)
            || exists d: Day :: LessEq(cur, d) && LessEq(d, to) && fetch(d).Some? && Watermark(r) == Some(EndOfDay(d))
    decreases Rank(to) - Rank(cur)
  {
    if !Less(to, cur) && fetch(cur).Some? {
      var raw := fetch(cur).value;
      var saved := if dryRun then Some(db.publicacoes) else save(db.publicacoes, NormalizeAll(raw, today));
      if saved.Some? {
        var after := Db(saved.value, db.lastChecked[Scope := EndOfDay(cur)]);
        var total' := if dryRun then total else total + |raw|;
        DayLoopSaved(db, cur, to, dryRun, today, fetch, save, total, raw, after, total');
        assert LessEq(cur, cur) && LessEq(cur, to) && Watermark(after) == Some(EndOfDay(cur));
        if cur != MaxDate {
          var next: Day := NextDay(cur);
          LessRank(to, cur);
          LessRank(cur, next);
          WatermarkIsLastGoodDay(after, next, to, dryRun, today, fetch, save, total');
          var r := DayLoop(after, next, to, dryRun, today, fetch, save, total').0;
          if Watermark(r) != Watermark(after) {
            var d: Day :| LessEq(next, d) && LessEq(d, to) && fetch(d).Some? && Watermark(r) == Some(EndOfDay(d));
            LessRank(cur, d);
            LessRank(next, d);
            assert LessEq(cur, d);
          }
        }
      }
    }
  }

  /** The records fetched for the days from `cur` to `to`. */
  function FetchedCount(cur: Day, to: Day, fetch: Day -> Option<seq<RawRecord>>): nat
    decreases Rank(to) - Rank(cur)
  {
    if Less(to, cur) then 0
    else
      var here := if fetch(cur).Some? then |fetch(cur).value| else 0;
      if cur == MaxDate then here
      else
        LessRank(to, cur);
        LessRank(cur, NextDay(cur));
        here + FetchedCount(NextDay(cur), to, fetch)
  }

  /** Every day from `cur` to `to` is fetched without error. */
  predicate AllFetched(cur: Day, to: Day, fetch: Day -> Option<seq<RawRecord>>)
    decreases Rank(to) - Rank(cur)
  {
    Less(to, cur) ||
    (fetch(cur).Some? && (cur == MaxDate || (LessRank(to, cur); LessRank(cur, NextDay(cur)); AllFetched(NextDay(cur), to, fetch))))
  }

  /** `AllFetched` holds exactly when every day of the range is fetched. */
  lemma {:induction false} AllFetchedIff(cur: Day, to: Day, fetch: Day -> Option<seq<RawRecord>>)
    ensures AllFetched(cur, to, fetch) <==> forall d: Day :: LessEq(cur, d) && LessEq(d, to) ==> fetch(d).Some?
    decreases Rank(to) - Rank(cur)
  {
    LessRank(to, cur);
    if !Less(to, cur) && cur != MaxDate {
      var next: Day := NextDay(cur);
      LessRank(cur, next);
      AllFetchedIff(next, to, fetch);
      forall d: Day | LessEq(cur, d) && LessEq(d, to) && d != cur
        ensures LessEq(next, d)
      {
      }
    }
  }

  /**
   * When every day of the range is fetched, the loop finishes with the
   * watermark at the end of the last day and (unless dry-run) counts every
   * fetched record.
   */
  lemma {:induction false} AllDaysSucceed(db: Db, cur: Day, to: Day, dryRun: bool, today: Day,
                                         fetch: Day -> Option<seq<RawRecord>>, total: nat)
    requires LessEq(cur, to) && to != MaxDate && AllFetched(cur, to, fetch)
    ensures Watermark(DayLoop(db, cur, to, dryRun, today, fetch, SaveRecords, total).0) == Some(EndOfDay(to))
    ensures DayLoop(db, cur, to, dryRun, today, fetch, SaveRecords, total).1.Finished?
    ensures DayLoop(db, cur, to, dryRun, today, fetch, SaveRecords, total).1.total
            == (if dryRun then total else total + FetchedCount(cur, to, fetch))
    decreases Rank(to) - Rank(cur)
  {
    var raw := fetch(cur).value;
    var norm := NormalizeAll(raw, today);
    SaveRecordsCommits(db.publicacoes, norm);
    var after := Db(if dryRun then db.publicacoes else Upserted(db.publicacoes, norm),
                    db.lastChecked[Scope := EndOfDay(cur)]);
    var total' := if dryRun then total else total + |raw|;
    assert cur != MaxDate by { LessRank(cur, to); }
    DayLoopSaved(db, cur, to, dryRun, today, fetch, SaveRecords, total, raw, after, total');
    var next: Day := NextDay(cur);
    LessRank(cur, next);
    FetchedCountStep(cur, to, fetch, raw);
    if cur == to {
      LastDay(after, to, dryRun, today, fetch, total');
    } else {
      AllDaysSucceed(after, next, to, dryRun, today, fetch, total');
    }
  }

  lemma FetchedCountStep(cur: Day, to: Day, fetch: Day -> Option<seq<RawRecord>>, raw: seq<RawRecord>)
    requires LessEq(cur, to) && cur != MaxDate && fetch(cur) == Some(raw)
    ensures FetchedCount(cur, to, fetch) == |raw| + FetchedCount(NextDay(cur), to, fetch)
  {
  }

  /** Past the last day the loop stops; nothing more is counted. */
  lemma LastDay(db: Db, to: Day, dryRun: bool, today: Day, fetch: Day -> Option<seq<RawRecord>>, total: nat)
    requires to != MaxDate
    ensures DayLoop(db, NextDay(to), to, dryRun, today, fetch, SaveRecords, total) == (db, Finished(total))
    ensures FetchedCount(NextDay(to), to, fetch) == 0
  {
  }

  /** A dry run of `run` saves nothing and reports 0 (or raises). */
  lemma RunDryRun(db: Db, fromDate: Option<Day>, toDate: Option<Day>, today: Day,
                  fetch: Day -> Option<seq<RawRecord>>, save: (Table, seq<Publication>) -> Option<Table>)
    ensures var r := RunSpec(db, fromDate, toDate, true, today, fetch, save);
            r.0.publicacoes == db.publicacoes && (r.1.Finished? ==> r.1.total == 0)
  {
    var range := ResolveRange(fromDate, toDate, Watermark(db), today);
    if !Less(range.1, range.0) {
      DryRunSavesNothing(db, range.0, range.1, today, fetch, save, 0);
    }
  }

  /**
   * As written, a day whose cards repeat a dedupe key within one INSERT
   * page stops the loop: nothing of that day is saved and the watermark
   * stays before it, so every later run stops there again.
   */
  lemma AsWrittenStopsAtRepeatedKey(db: Db, cur: Day, to: Day, today: Day,
                                    fetch: Day -> Option<seq<RawRecord>>, total: nat)
    requires !Less(to, cur) && fetch(cur).Some? && PageRepeatsKey(NormalizeAll(fetch(cur).value, today))
    ensures DayLoop(db, cur, to, false, today, fetch, SaveAsWritten, total) == (db, Finished(total))
  {
  }

  /** A rerun without bounds resumes at the day of the last watermark, which the upsert makes safe to redo. */
  lemma RerunResumesAtWatermark(d: Day, today: Day)
    ensures ResolveRange(None, None, Some(EndOfDay(d)), today) == (d, today)
  {
  }

  /** With an explicit start before the watermark's day, a successful run moves the watermark back. */
  lemma WatermarkCanMoveBack(db: Db, today: Day, fetch: Day -> Option<seq<RawRecord>>)
    requires Watermark(db) == Some(EndOfDay(CivilDate(2024, 5, 10)))
    requires fetch(CivilDate(2024, 5, 1)) == Some([])
    ensures RunSpec(db, Some(CivilDate(2024, 5, 1)), Some(CivilDate(2024, 5, 1)), false, today, fetch, SaveRecords).0.lastChecked[Scope]
              == EndOfDay(CivilDate(2024, 5, 1))
  {
    var day: Day := CivilDate(2024, 5, 1);
    var next: Day := NextDay(day);
    assert next == CivilDate(2024, 5, 2);
    assert NormalizeAll([], today) == [];
    assert LastPerKey([]) == [];
  }

  /** The database the scraper writes to: the publications table and the `last_checked` rows. */
  class Database {
    var publicacoes: Table
    var lastChecked: map<string, Checkpoint>

    constructor(publicacoes: Table, lastChecked: map<string, Checkpoint>)
      ensures this.publicacoes == publicacoes && this.lastChecked == lastChecked
    {
      this.publicacoes := publicacoes;
      this.lastChecked := lastChecked;
    }

    function Snapshot(): Db
      reads this
    {
      Db(publicacoes, lastChecked)
    }

    /** `save_records` (with the batch reduced to one row per key), returning how many records it was given. */
    method SaveBatch(recs: seq<Publication>) returns (n: nat)
      modifies this
      ensures Some(publicacoes) == SaveRecords(old(publicacoes), recs)
      ensures publicacoes == Upserted(old(publicacoes), recs)
      ensures lastChecked == old(lastChecked)
      ensures n == |recs|
    {
      SaveRecordsCommits(publicacoes, recs);
      if recs == [] {
        return 0;
      }
      var batch := LastPerKey(recs);
      UpsertedLastPerKey(publicacoes, recs);
      publicacoes := Upserted(publicacoes, batch);
      n := |recs|;
    }

    /**
     * `run`: the range check, then one day at a time from the start day to
     * the end day, stopping at the first failed fetch, saving unless
     * dry-run and moving the watermark to the end of each finished day.
     */
    method Run(fromDate: Option<Day>, toDate: Option<Day>, dryRun: bool, today: Day,
               fetch: Day -> Option<seq<RawRecord>>) returns (outcome: RunOutcome)
      modifies this
      ensures (Snapshot(), outcome) == RunSpec(old(Snapshot()), fromDate, toDate, dryRun, today, fetch, SaveRecords)
    {
      var lastDt := if Scope in lastChecked then Some(lastChecked[Scope]) else None;
      var from: Day, to: Day;
      if fromDate.None? || toDate.None? {
        var start: Day := if lastDt.Some? then lastDt.value.day else today;
        from := if fromDate.Some? then fromDate.value else start;
        to := if toDate.Some? then toDate.value else today;
      } else {
        from, to := fromDate.value, toDate.value;
      }
      assert (from, to) == ResolveRange(fromDate, toDate, Watermark(old(Snapshot())), today);
      if Less(to, from) {
        return RangeError;
      }
      outcome := RunDays(from, to, dryRun, today, fetch);
    }

    /** The day loop of `run`. */
    method RunDays(from: Day, to: Day, dryRun: bool, today: Day,
                   fetch: Day -> Option<seq<RawRecord>>) returns (outcome: RunOutcome)
      modifies this
      ensures (Snapshot(), outcome) == DayLoop(old(Snapshot()), from, to, dryRun, today, fetch, SaveRecords, 0)
    {
      var total: nat := 0;
      var cur: Day := from;
      while !Less(to, cur)
        invariant DayLoop(Snapshot(), cur, to, dryRun, today, fetch, SaveRecords, total)
                  == DayLoop(old(Snapshot()), from, to, dryRun, today, fetch, SaveRecords, 0)
        decreases Rank(to) - Rank(cur)
      {
        ghost var before := Snapshot();
        ghost var totalBefore := total;
        var raw := fetch(cur);
        if raw.None? {
          break;
        }
        var norm := NormalizeAll(raw.value, today);
        if !dryRun {
          var inserted := SaveBatch(norm);
          total := total + inserted;
        }
        lastChecked := lastChecked[Scope := EndOfDay(cur)];
        DayLoopSaved(before, cur, to, dryRun, today, fetch, SaveRecords, totalBefore, raw.value, Snapshot(), total);
        if cur == MaxDate {
          return DateOverflow;
        }
        LessRank(to, cur);
        var next: Day := NextDay(cur);
        LessRank(cur, next);
        cur := next;
      }
      return Finished(total);
    }
  }

  /** One successful day of the loop: the watermark moves to its end, then the next day follows. */
  lemma DayLoopSaved(db: Db, cur: Day, to: Day, dryRun: bool, today: Day,
                     fetch: Day -> Option<seq<RawRecord>>, save: (Table, seq<Publication>) -> Option<Table>,
                     total: nat, raw: seq<RawRecord>, after: Db, total': nat)
    requires !Less(to, cur) && fetch(cur) == Some(raw)
    requires Some(after.publicacoes) == if dryRun then Some(db.publicacoes) else save(db.publicacoes, NormalizeAll(raw, today))
    requires after.lastChecked == db.lastChecked[Scope := EndOfDay(cur)]
    requires total' == if dryRun then total else total + |raw|
    ensures cur == MaxDate ==> DayLoop(db, cur, to, dryRun, today, fetch, save, total) == (after, DateOverflow)
    ensures cur != MaxDate ==>
              DayLoop(db, cur, to, dryRun, today, fetch, save, total) == DayLoop(after, NextDay(cur), to, dryRun, today, fetch, save, total')
  {
  }
}
