# Planilha de Prazos: a verified model of the extraction and deadline rules

This project models the deterministic core of a small law-office system written in Python. The system has four parts:

- an e-mail importer (`scrap_email.py`) reads court notices, clipping-service digests and expert-exam bookings, and turns them into follow-up rows (`Andamento`), publications and agenda entries;
- a dashboard (`app.py`) keeps deadline tables and moves records between them;
- a calendar bridge (`calendar_integration.py`) turns agenda rows into Google Calendar events;
- a scraper (`scrap_pje.py`) collects PJe Comunica publications day by day and upserts them into a `publicacoes` table.

What the model covers:

- the text scanners and classifiers of the importer, written as the loops they are;
- the importer's date watermark, over an abstract list of fetched messages;
- the deadline, routing and table-moving rules of the dashboard, with the tables as classes whose methods change them;
- the pure event-shaping helpers of the calendar bridge;
- the scraper's record normalisation, its dedupe key and upsert, and its day-by-day `run` loop with the watermark.

Modules:

| file | module | models |
|---|---|---|
| `wrappers.dfy` | `Wrappers` | `Option` |
| `strings.dfy` | `Strings` | the Python `str` operations the source relies on: `isspace`, `lower`, `strip`, `find`, `split`, `replace`, `join`, and the ASCII fold of `normalizar` |
| `dates.dfy` | `Dates` | civil dates, `date + timedelta(days=1)`, `strptime` with `%d/%m/%Y`, `%d/%m/%y` and `%Y-%m-%d` |
| `dedup.dfy` | `Dedup` | order-preserving de-duplication by a key |
| `email_text.dfy` | `EmailText` | the IMAP date, `to_date_or_none`, accent corrections, `limpar_data_evento`, hearing and exam detection, keyword routing, the election-notice filter |
| `email_scanners.dfy` | `EmailScanners` | the CNJ number scanner, the `DD/MM/YYYY` scanner, time tokens |
| `email_events.dfy` | `EmailEvents` | the windowed event date and time search, the hearing or exam description |
| `email_names.dfy` | `EmailNames` | the three client-name extractors |
| `email_bodies.dfy` | `EmailBodies` | the TRT1/TRT-SP and TRF2 body parsers |
| `email_clipping.dfy` | `EmailClipping` | the clipping-digest splitter |
| `email_pmf.dfy` | `EmailPmf` | the PMF booking parser |
| `email_ingest.dfy` | `EmailIngest` | the per-message routing and the watermark rule of `buscar_e_processar_emails` |
| `app_rules.dfy` | `AppRules` | the dashboard rules |
| `calendar_events.dfy` | `CalendarEvents` | the calendar helpers and the aggregation of `delete_events` |
| `pje_scrape.dfy` | `PjeScrape` | the scraper's rules |

Modelling choices:

- "Today" and the current watermark are parameters.
- Page fetching in the scraper is an oracle `Day -> Option<seq<RawRecord>>`, where `None` is a failed day.
- The underlying save of the scraper's day loop is a parameter of the specification functions, so the behaviour as written and the corrected behaviour can be compared.
- `compute_hash` is the key tuple it digests: lower-cased process number, start date, notes.
- Dashboard and calendar dates are day numbers; times of day are minutes since midnight.
- Integers that the source keeps in Python's unbounded `int` stay unbounded.

## Model

| member | source | states |
|---|---|---|
| `Strings.Normalize` | scrap_email.py:138-139 | The folded text consists of ASCII lower-case characters only. |
| `Strings.NormalizeIdempotent` | scrap_email.py:138-139 | Normalising a normalised text changes nothing. |
| `Strings.NormalizeKeepsOccurrence` | scrap_email.py:138-139 | If a word occurs in a text, its folded form occurs in the folded text. Searching the folded text therefore finds every accented spelling. |
| `Strings.CollapseSpacesShape` | scrap_email.py:141-142 | The collapsed text is single-spaced, with no blank at either end, and keeps every non-whitespace character in order. |
| `Dates.NextDay` | scrap_pje.py:263 | The next day is a valid date, later than `d`, and no valid date lies strictly between them. |
| `Dates.TwoDigitYearWindow` | scrap_email.py:94-103 | `%y` gives back a year exactly when the year lies in 1969..2068. |
| `Dates.ParseDayMonthYear` | scrap_pje.py:57-65 | A date parsed with `%d/%m/%Y`, or with `%d/%m/%y` when the short year is asked for, is a valid date. `Dates.ParseFormatDayMonthYear` states the round trip. |
| `Dates.ParseYearMonthDay` | scrap_pje.py:57-65 | A date parsed with `%Y-%m-%d` is a valid date. |
| `Dates.ParseFormatDayMonthYear` | scrap_pje.py:57-65 | A valid date written as `DD/MM/YYYY` is read back as itself. |
| `Dates.ParseFormatIso` | scrap_pje.py:57-65 | A valid date written as `YYYY-MM-DD` is read back as itself, by the ISO parser and by the `strptime` one. |
| `Dates.IsoHasNoSlash` | scrap_email.py:94-103 | The ISO form has no slash, so the day-first formats never accept it. |
| `Dedup.FirstOnesSpec` | scrap_email.py:224-231 | The de-duplicated list has exactly the input's keys, each once, each through its first element, in first-occurrence order. |
| `Dedup.FirstOnesDistinct` | scrap_email.py:224-231 | No two kept elements share a key. |
| `Dedup.FirstOnesOrdered` | scrap_email.py:224-231 | The kept elements appear in the order of their first occurrences. |
| `Dedup.FirstOnesSameSnoc` | scrap_email.py:512-516 | Appending an element whose key is new keeps it; appending one whose key is already kept drops it. This is the `if x not in kept: kept.append(x)` step. |
| `EmailText.FormatImapDate` | scrap_email.py:59-83 | The IMAP date is two zero-padded day digits, a dash, the English abbreviation of the month, a dash and the year. It does not depend on the locale. |
| `EmailText.MonthOfAbbrev` | scrap_email.py:59-83 | An abbreviation that is recognised names a month in 1..12 whose abbreviation it is. |
| `EmailText.ImapDateRoundTrip` | scrap_email.py:59-83 | The IMAP date determines the date it was made from, so two dates never share one. |
| `EmailText.ToDateOrNone` | scrap_email.py:85-103 | `None` and "" give none, and a date object is kept. A date read from text is valid. Text is trimmed and tried as `DD/MM/YYYY`, then `DD/MM/YY`, then `fromisoformat`, which reads `YYYY-MM-DD` alone or followed by one separator and `HH:MM` or `HH:MM:SS`. The read-back lemmas below state the formats. |
| `EmailText.ToDateOrNoneReadsDayMonthYear` | scrap_email.py:94-103 | A date written as `DD/MM/YYYY` is read back as itself. |
| `EmailText.ToDateOrNoneReadsIso` | scrap_email.py:94-103 | A date written as `YYYY-MM-DD` is read back as itself. |
| `EmailText.ToDateOrNoneReadsIsoDateTime` | scrap_email.py:99-103 | A date written as `YYYY-MM-DD`, followed by any separator other than a slash and a valid `HH:MM` or `HH:MM:SS` time, is read back as that date. |
| `EmailText.ToDateOrNoneReadsShortDates` | scrap_email.py:94-103 | A `DD/MM/YY` date is read back as itself exactly when its year lies in 1969..2068. Outside that window the century is lost. |
| `EmailText.CorrigirAcentosUnchanged` | scrap_email.py:133-136 | Text containing none of the misspellings is left unchanged. |
| `EmailText.CorrigirAcentos` | scrap_email.py:133-136 | After the corrections, none of the misspellings of the table occurs anywhere in the text. A replacement can neither leave an overlapping copy of a key nor create an earlier one. |
| `EmailText.NoneAcrossCapital` | scrap_email.py:133-136 | A misspelling that occurs neither before nor after a replaced word does not occur in the result either, because each key has a capital only in its first position and differs early from every replacement. |
| `EmailText.ApplyCorrectionsLeavesNone` | scrap_email.py:133-136 | Applying the replacements in table order removes every key, and keeps out every key already removed. |
| `EmailText.CorrectionsSafe` | scrap_email.py:35-44 | The source's table meets those conditions: capitals only in first position, and no replacement that could start an earlier key. |
| `EmailText.FindAfter` | scrap_email.py:144-148 | The result is -1 when the needle does not occur at or after `start`. Otherwise it is the index just past its first such occurrence. |
| `EmailText.LimparDataEvento` | scrap_email.py:152-156 | The result has no blank at either end. Text without a leading `Data Evento DD/MM/YYYY HH:MM` stamp comes back trimmed and otherwise unchanged. |
| `EmailText.LimparDataEventoRemovesStamp` | scrap_email.py:152-156 | A stamp, a space and already-trimmed text leave exactly that text. |
| `EmailText.DetectarAudienciaPericia` | scrap_email.py:280-286 | The result is "audiencia" iff the folded text contains "audiencia", even when "pericia" comes first. It is "pericia" iff "audiencia" is absent and "pericia" is present. It is none iff both are absent. |
| `EmailText.HearingSpellingsDetected` | scrap_email.py:280-286 | Any spelling that folds to "audiencia", anywhere in the text, makes the text a hearing. |
| `EmailText.ExamSpellingsDetected` | scrap_email.py:280-286 | Any spelling that folds to "pericia" makes the text a hearing or an exam. |
| `EmailText.ChecarPalavraChave` | scrap_email.py:575-580 | The routing is total. It gives "Setor Financeiro" iff some keyword occurs in the lower-cased body, and "Taina" otherwise. |
| `EmailText.FinanceRoutingMonotone` | scrap_email.py:575-580 | Adding text around a body never takes it out of the financial sector. |
| `EmailText.UpperCaseAlvaraRoutes` | scrap_email.py:45-48 | (example) Upper-case "ALVARÁ" routes to the financial sector, because the body is lower-cased first. |
| `EmailText.EditalNoticeMonotone` | scrap_email.py:468-475 | A notice stays a notice whatever text surrounds it, and the test does not depend on letter case. |
| `EmailText.EditalLongPhrasesRedundant` | scrap_email.py:470-474 | The two longer "edital nomeacao ..." phrases are redundant. The other seven decide alone. |
| `EmailScanners.FirstCnj` | scrap_email.py:234-278 | The result is empty, or exactly 25 characters of the form `NNNNNNN-NN.NNNN.N.NN.NNNN`, starting at the leftmost index where such a number starts. It is empty iff no such number occurs. |
| `EmailScanners.MatchProc` | scrap_email.py:240-269 | `match_proc(i)` returns the CNJ number starting at `i` when there is one, and nothing otherwise. |
| `EmailScanners.TakeDigits` | scrap_email.py:242-246 | When `k` digits start at the cursor, they are returned and the cursor moves past them. Otherwise nothing is read. |
| `EmailScanners.ExtractProcessNumber` | scrap_email.py:271-278 | The outer loop over start indices returns the leftmost CNJ number, or "". |
| `EmailScanners.FirstDate` | scrap_email.py:288-298 | The result is the leftmost `DD/MM/YYYY` shape (two digits, slash, two digits, slash, four digits), or "" when none occurs. |
| `EmailScanners.ScanDate` | scrap_email.py:288-298 | The index loop of `_scan_date_simple` returns that leftmost date shape. |
| `EmailScanners.FirstDateOfSlice` | scrap_email.py:288-298 | A date shape in a slice of a text is a date shape of the text, so any slice of date-free text is date-free. |
| `EmailScanners.StdTimeToken` | scrap_email.py:300-328 | The result is "" or `HH:MM` with hour ≤ 23 and minute ≤ 59. |
| `EmailScanners.StdTimeTokenRejectsOutOfRange` | scrap_email.py:315-321 | A colon time with an hour past 23 or a minute past 59 gives "". |
| `EmailScanners.StdTimeTokenHourOnly` | scrap_email.py:305-314 | (example) `9h` and `14h` read as the whole hour. |
| `EmailScanners.StdTimeTokenHourMinute` | scrap_email.py:305-314 | (example) `9h05` and `14h30` read as hour and minutes. |
| `EmailScanners.StdTimeTokenOfClock` | scrap_email.py:315-321 | A valid `HH:MM` is its own normal form. |
| `EmailScanners.StdTimeTokenIdempotent` | scrap_email.py:300-328 | Normalising a normalised token changes nothing. |
| `EmailScanners.TokensShape` | scrap_email.py:333-342 | Every token is a non-empty run of token characters, and the tokens together hold exactly the token characters of the window, in order. `EmailScanners.TokensMaximal` states that the runs are maximal. |
| `EmailScanners.TokensMaximal` | scrap_email.py:333-342 | A non-token character always ends a token: the tokens of `a + [c] + b` are those of `a`, then those of `b`. An empty window has no token, and a run of token characters is one token. |
| `EmailScanners.FirstClock` | scrap_email.py:343-347 | The result is "" iff no token reads as a time. Otherwise it is the normal form of the first token that does. |
| `EmailScanners.ScanTime` | scrap_email.py:330-347 | The tokenizing loop followed by the first-token loop gives `FirstClock` of the tokens. |
| `EmailEvents.PreferredStem` | scrap_email.py:354-362 | A record type starting with "aud" searches the hearing stem first. Any other type searches the exam stem first. |
| `EmailEvents.KeywordPosition` | scrap_email.py:354-362 | The window starts at the first occurrence of the preferred stem in the folded text, else of the other stem. The position is -1 iff neither occurs. |
| `EmailEvents.PySlice` | scrap_email.py:363-365 | The slice is a contiguous piece of the text, and bounds within the text cut exactly there. Negative bounds are stated by `EmailEvents.PySliceBounds`. |
| `EmailEvents.PySliceBounds` | scrap_email.py:363-365 | A negative bound counts from the end, a bound past the end clamps to the length, and a clamped end at or before the clamped start gives "". |
| `EmailEvents.EventWindowAsWritten` | scrap_email.py:363-365 | The window as the code cuts it is absent iff the text is empty or neither stem occurs in the folded text. It holds at most 600 characters. Where it starts is shown by `EmailEvents.WindowSkew`. |
| `EmailEvents.WindowSkew` | scrap_email.py:353-365 | On a concrete text whose 10 leading signs fold to nothing, the window as written starts 10 characters before the keyword. It therefore shows text the keyword does not follow. |
| `EmailEvents.KeywordStart` | scrap_email.py:354-362 | The corrected start is the raw index whose characters fold to text beginning with the stem, or -1 iff neither stem occurs. |
| `EmailEvents.EventWindow` | scrap_email.py:363-365 | The corrected window starts at the raw character the keyword comes from and holds at most 600 characters. It is absent iff neither stem occurs. |
| `EmailEvents.EventFieldsSpec` | scrap_email.py:349-379 | Without a keyword the result is ("", ""). Otherwise the date is the window's first date shape, and a time comes only with a date. The time is the first time within 120 characters from the date. |
| `EmailEvents.EventFields` | scrap_email.py:349-379 | (corrected window, see Findings) Without a window the result is ("", ""). Otherwise the date is the window's first date shape. A time comes only with a date. |
| `EmailEvents.EventFieldsAsWritten` | scrap_email.py:349-379 | The same fields over the window the code cuts. |
| `EmailEvents.FieldsSkew` | scrap_email.py:353-379 | On the skew text, the code as written reports the date that comes before the keyword, while the corrected fields are empty. |
| `EmailEvents.EventDateTime` | scrap_email.py:349-379 | (corrected window, see Findings) The method, which also runs the time-first fallback of lines 372-378, returns `EventFields`. The fallback never returns a result, because it runs only on a window without a date, and a slice of such a window has no date either. |
| `EmailEvents.NoDateInSlice` | scrap_email.py:372-378 | Any slice of a window without a date has no date, which is why that path can never return. |
| `EmailEvents.ReadWindow` | scrap_email.py:366-379 | The date and time the method reads off a window are `WindowFields` of it: the first date shape, and the first time within 120 characters from it. |
| `EmailEvents.TimeAfterDate` | scrap_email.py:367-371 | The time read from the 120 characters after the first date is the time of `WindowFields`. |
| `EmailEvents.DateNearTime` | scrap_email.py:372-378 | On a window without a date, the fallback's search of the 160 characters from the time finds no date. |
| `EmailEvents.TipoAudienciaPericia` | scrap_email.py:381-396 | `extrair_tipo_audiencia_pericia` as a definition, without a contract of its own. `EmailEvents.TitleTextShape` and `EmailEvents.TipoAudienciaPericiaShape` state its properties. |
| `EmailEvents.TitleTextShape` | scrap_email.py:381-396 | A description that was found is non-empty and holds no stop character. |
| `EmailEvents.TipoAudienciaPericiaShape` | scrap_email.py:381-396 | Once the detector sees a hearing or an exam, the description is non-empty. The caller's fallback to the bare kind is therefore never taken. |
| `EmailNames.CollapseTextShape` | scrap_email.py:141-142 | The collapsed text is single-spaced and keeps every non-whitespace character, in order. |
| `EmailNames.PoloAtivoName` | scrap_email.py:158-183 | `extrair_nome_polo_ativo_publicacao` as a definition, without a contract of its own. `EmailNames.PoloAtivoNeedsLabel`, `EmailNames.PoloAtivoShape` and `EmailNames.TrimTailIdle` state its properties. |
| `EmailNames.ExtractPoloAtivo` | scrap_email.py:158-183 | The scanning loops compute the name `PoloAtivoName` defines. |
| `EmailNames.PoloAtivoNeedsLabel` | scrap_email.py:158-183 | Without the "polo ativo:" label there is no name. |
| `EmailNames.PoloAtivoShape` | scrap_email.py:158-183 | The name is a slice of the collapsed text. It neither starts nor ends with a dash, dot or space, and contains no stop label. |
| `EmailNames.TrimTailIdle` | scrap_email.py:180-182 | The earlier `strip(" -–—.")` already removes every mark the clean-up loop looks for, so that loop never changes the name. |
| `EmailNames.SkipSpaces` | scrap_email.py:167-168 | The loop stops at the first non-space from `i` on. |
| `EmailNames.NextStop` | scrap_email.py:174-179 | The result is the first index where a stop label starts, or the length when none does. |
| `EmailNames.CleanName` | scrap_email.py:190-192 | A cleaned name neither starts nor ends with a space, '.', ';' or ':'. Every non-space character in it comes from the input. |
| `EmailNames.LookAhead` | scrap_email.py:211-219 | A non-empty look-ahead value is never an end label. |
| `EmailNames.TrtNameList` | scrap_email.py:185-232 | The names `extract_client_names_trt1` joins, as a definition without a contract of its own. `EmailNames.ClientNamesNeedHeader` and `EmailNames.TrtNamesDistinct` state its properties. |
| `EmailNames.ExtractClientNamesTrt1` | scrap_email.py:185-232 | The line loop, the look-ahead loop and the `seen`-set loop compute the names `TrtNameList` defines, joined by "; ". |
| `EmailNames.DedupByKey` | scrap_email.py:224-231 | The `seen`-set loop keeps exactly the first name of each folded form. |
| `EmailNames.ClientNamesNeedHeader` | scrap_email.py:185-232 | Without a header line there are no names. |
| `EmailNames.TrtNamesDistinct` | scrap_email.py:223-231 | The names are non-empty and pairwise different after folding. Their folded forms are exactly those of the pieces found, in first-occurrence order. |
| `EmailNames.BodyNameList` | scrap_email.py:477-518 | The names `extrair_nomes_do_corpo` joins, as a definition without a contract of its own. `EmailNames.BodyNamesDistinct` states its properties. |
| `EmailNames.ExtrairNomesDoCorpo` | scrap_email.py:477-518 | The loops compute the names `BodyNameList` defines, joined by "; ". |
| `EmailNames.AddNew` | scrap_email.py:512-516 | The `if p and p not in nomes` loop appends exactly the new non-empty pieces, in order. |
| `EmailNames.ScanLine` | scrap_email.py:492-516 | One pass of the line loop adds the new names of that line. |
| `EmailNames.BodyNamesDistinct` | scrap_email.py:477-518 | The names are non-empty, trimmed of edge characters and pairwise different. They are exactly the distinct pieces, in first-occurrence order. |
| `EmailBodies.SplitLines` | scrap_email.py:399 | No piece holds a line-break character. |
| `EmailBodies.FlattenIsOneLine` | scrap_email.py:399 | The flattened body has no line-break character. |
| `EmailBodies.TakeNumber` | scrap_email.py:405-410 | The character loop returns the longest prefix made of digits, dashes and dots. |
| `EmailBodies.NumeroFieldSpec` | scrap_email.py:402-412 | The number is "" without the label. Otherwise it is empty or the whole run of number characters right after the label, and it is non-empty only when it holds both a dash and a dot. |
| `EmailBodies.EventosFieldSpec` | scrap_email.py:413-420 | The events are "" without the label. Otherwise they are stripped and never contain the first end marker. They are cut at the first marker of the list that occurs after the label, not at the one that occurs first in the text, and are all of the stripped text when no marker occurs. |
| `EmailBodies.ProcessarCorpoTrt1` | scrap_email.py:398-421 | Number and events as the two field specifications give them. The number is "" or holds a dash and a dot, and the events never contain "Para acessar". |
| `EmailBodies.ProcessarCorpoTrf2` | scrap_email.py:426-448 | The same with the "evento:" label and the TRF2 end markers. |
| `EmailClipping.NoSeparatorNoBlocks` | scrap_email.py:454-456 | A body without a separator yields no publication. |
| `EmailClipping.TaggedRun` | scrap_email.py:457-460 | The group holds only allowed characters. It is "" iff no occurrence of the tag, after its blanks, is followed by an allowed character. |
| `EmailClipping.EventEnd` | scrap_email.py:461-462 | The lazy `.*?` stops at the first index where an access tag or an identifier tag starts, or at the end. |
| `EmailClipping.SqueezeNoBlankLine` | scrap_email.py:463 | The substitution leaves no blank line. |
| `EmailClipping.EventNoBlankLine` | scrap_email.py:461-463 | The event text of every block has no blank line. |
| `EmailClipping.ReadBlocks` | scrap_email.py:456-466 | There is at most one record per block. Every record has a number or a date. The number holds only digits, dots and dashes, and the date only digits and slashes. The event text is stripped and has no blank line. |
| `EmailClipping.Publications` | scrap_email.py:453-466 | `processar_recorte_publicacao` as a definition, without a contract of its own. `EmailClipping.NoSeparatorNoBlocks`, `EmailClipping.ReadBlocks` and `EmailClipping.EventNoBlankLine` state its properties. |
| `EmailClipping.ProcessarRecortePublicacao` | scrap_email.py:453-466 | The block loop returns `Publications(corpo)`. |
| `EmailPmf.FindCliente` | scrap_email.py:756-762 | The first pass computes the client `PmfCliente` defines. |
| `EmailPmf.FindTipo` | scrap_email.py:764-784 | The second pass computes the service type `PmfTipo` defines. |
| `EmailPmf.FindSlot` | scrap_email.py:786-807 | The third pass computes the date and time `PmfSlot` defines. |
| `EmailPmf.ProcessarCorpoPmfgestao` | scrap_email.py:748-814 | The three passes produce the agenda row `PmfRow` defines. |
| `EmailPmf.PmfCliente` | scrap_email.py:756-762 | The client as a definition, without a contract of its own. `EmailPmf.PmfClienteShape` and `EmailPmf.PmfClienteFollowsGreeting` state its properties. |
| `EmailPmf.PmfTipo` | scrap_email.py:764-784 | The service type as a definition, without a contract of its own. `EmailPmf.PmfTipoShape` states its properties. |
| `EmailPmf.PmfSlot` | scrap_email.py:786-807 | The date and time as a definition, without a contract of its own. `EmailPmf.PmfSlotShape` states its properties. |
| `EmailPmf.PmfRow` | scrap_email.py:748-814 | `processar_corpo_pmfgestao` as a definition, without a contract of its own. `EmailPmf.PmfRowShape` states its properties. |
| `EmailPmf.PmfClienteShape` | scrap_email.py:756-762 | The client is stripped, and it is empty without a greeting line. |
| `EmailPmf.PmfClienteFollowsGreeting` | scrap_email.py:756-762 | A non-empty client is the first non-blank line after the first greeting line. |
| `EmailPmf.PmfTipoShape` | scrap_email.py:764-784 | The service type is stripped, and it is empty when no line names the service. |
| `EmailPmf.PmfRowShape` | scrap_email.py:748-814 | The row has nine fields, and its type field, repaired by `corrigir_acentos`, holds none of the misspellings. |
| `EmailPmf.PmfSlotShape` | scrap_email.py:786-807 | The date is stripped and holds no parenthesis. The time is stripped and holds no dash. Both are empty without a slot line. |
| `EmailIngest.Pad9` | scrap_email.py:555 | The padded row has nine fields: the given ones first, then "". |
| `EmailIngest.AgendaOf` | scrap_email.py:552-572 | The system tag is "email" when no tag is given, and the tag otherwise. The date comes from the first field, and the kind is the ninth field. What padding and the ignored field do is stated by `EmailIngest.AgendaOfFields` and `EmailIngest.AgendaOfDate`. |
| `EmailIngest.AgendaOfFields` | scrap_email.py:552-572 | No fields give an empty entry. Padding with "" up to nine fields, changing the third field, or dropping fields past the ninth does not change the entry. |
| `EmailIngest.AgendaOfDate` | scrap_email.py:553-560 | A first field written as `DD/MM/YYYY` from a valid date gives that date. |
| `EmailIngest.BuscarEProcessarEmails` | scrap_email.py:584-745 | The message loop's writes equal `Ingested` of the fetched messages, and the saved watermark equals `Saved`. |
| `EmailIngest.Route` | scrap_email.py:630-737 | What one admitted message writes, as a definition without a contract of its own. `EmailIngest.ClippingShape`, `EmailIngest.PmfShape` and `EmailIngest.CourtShape` state its three branches. |
| `EmailIngest.ProcessarMensagem` | scrap_email.py:630-737 | One message is routed by its sender to the court, clipping or PMF branch, as `Route` defines. |
| `EmailIngest.ProcessarCourt` | scrap_email.py:664-737 | (corrected window, see Findings) A court message writes the automatic agenda entry first, then the `Andamento`. |
| `EmailIngest.PublicationRowsLoop` | scrap_email.py:690-703 | The clipping loop writes the publications that are not election-duty notices, in order. |
| `EmailIngest.AutoAgenda` | scrap_email.py:665-676 | (corrected window, see Findings) The automatic agenda entry as a definition, without a contract of its own. `EmailIngest.CourtShape` and `EmailIngest.AutoAgendaTipo` state its properties. |
| `EmailIngest.AutoAgendaOf` | scrap_email.py:665-676 | (corrected window, see Findings) The scanning methods compute the automatic entry `AutoAgenda` defines. |
| `EmailIngest.AndamentoRowOf` | scrap_email.py:679-735 | The court row comes from the sender's parser, then the fallbacks, then the short date. |
| `EmailIngest.MaxSeen` | scrap_email.py:589-634 | `max_data_processada` as a definition, without a contract of its own. `EmailIngest.MaxSeenAtLeast`, `EmailIngest.MaxSeenBounds` and `EmailIngest.MaxSeenAttained` state its properties. |
| `EmailIngest.Saved` | scrap_email.py:742-743 | The saved watermark as a definition, without a contract of its own. `EmailIngest.SavedExactlyWhenNewer` and `EmailIngest.RerunSkipsDated` state its properties. |
| `EmailIngest.Ingested` | scrap_email.py:593-737 | The run's writes as a definition, without a contract of its own. `EmailIngest.IngestedAppend` and `EmailIngest.SkippedWritesNothing` state its properties. |
| `EmailIngest.MaxSeenAtLeast` | scrap_email.py:589-590 | The tracked maximum never drops below the starting watermark. |
| `EmailIngest.MaxSeenBounds` | scrap_email.py:633-634 | Every dated message of the run is at or before the tracked maximum. |
| `EmailIngest.MaxSeenAttained` | scrap_email.py:633-634 | The maximum is the old watermark or the date of a processed message. |
| `EmailIngest.SavedExactlyWhenNewer` | scrap_email.py:742-743 | The watermark is saved iff some message is dated after it. What is saved is then strictly newer and at least every message's date. |
| `EmailIngest.RerunSkipsDated` | scrap_email.py:630-631 | A rerun from the new watermark skips every dated message of the first run. |
| `EmailIngest.IngestedAppend` | scrap_email.py:593-618 | The run's writes are the writes of its parts, in order. |
| `EmailIngest.SkippedWritesNothing` | scrap_email.py:630-631 | A message dated at or before the watermark writes nothing, wherever it appears. |
| `EmailIngest.ClippingShape` | scrap_email.py:685-705 | A clipping message writes publications only, at most one per block, and none of them is an election-duty notice. |
| `EmailIngest.PmfShape` | scrap_email.py:706-713 | A PMF message writes one agenda entry tagged "pmfgestao" and nothing else. |
| `EmailIngest.CourtShape` | scrap_email.py:664-737 | A court message writes one pending `Andamento` and no publication, plus an automatic agenda entry iff a hearing or exam is detected. That entry is tagged with the sender's address. |
| `EmailIngest.AutoAgendaTipo` | scrap_email.py:670 | The automatic entry always has a description of its own, with no stop character. |
| `EmailIngest.CourtNumberShape` | scrap_email.py:727-728 | The number is the parser's when that is non-empty, else the first CNJ number. It is "" iff both are missing, and otherwise it holds a dash and a dot. |
| `EmailIngest.AndamentoDate` | scrap_email.py:717-722 | The row's start date is the message's own day when its year lies in 1969..2068, and absent without a date. Outside the window it is never the message's day. |
| `EmailIngest.TrtSendersAgree` | scrap_email.py:423-424 | The two TRT senders write the same `Andamento`. |
| `AppRules.TextOf` | app.py:324-329 | `None` and NaN give "". Text gives itself. `AppRules.TextOfEmpty` says when the result is empty. |
| `AppRules.TextOfEmpty` | app.py:324-329 | The result is "" iff the cell is `None`, NaN or the empty text. Reading the result again as a cell gives it back. |
| `AppRules.NormalizeStatus` | app.py:76-81 | The status key holds only ASCII lower-case characters and has no blank at either end. |
| `AppRules.NormalizeStatusIdempotent` | app.py:76-81 | A status key is trimmed ASCII lower case, and normalising it again changes nothing. |
| `AppRules.DetectAudienciaPericia` | app.py:84-94 | `None` gives none. The result is "Audiência" iff the folded text contains "audiencia"; "Perícia" iff it does not but contains "pericia"; none otherwise. |
| `AppRules.DetectorsAgree` | app.py:84-94 | The dashboard's detector and the importer's agree on every text. |
| `AppRules.PrazoCases` | app.py:339-346 | With start and end, the days are end minus today and both dates are kept. With start and days but no end, the end is start plus days. Without a start, or with a start alone, the record comes back unchanged. The start is never touched. |
| `AppRules.ApplyPrazoLogic` | app.py:339-346 | The start is kept, and so is a given end. With a start, the days are recounted from a given end, or else the end is computed from given days. Without a start, or with neither end nor days, the record is unchanged. |
| `AppRules.PrazoFromToday` | app.py:349-353 | A record started today comes out consistent: end minus today is the count. Applying the rule again changes nothing. |
| `AppRules.PrazoRecountsFromToday` | app.py:339-346 | With a past start and only a count, a second application recounts the days from today. |
| `AppRules.WarningLog.Show` | app.py:97-104 | An empty or missing message changes nothing. A listed message is not repeated. A new one is appended and shown. |
| `AppRules.WarningsDistinct` | app.py:97-104 | The list holds each offered non-empty message exactly once, and no empty one. |
| `AppRules.NewRecordValues` | app.py:349-353 | A new record whose start is missing gets today as its start, and the deadline rule adds the end and the days. Any other record keeps its values. |
| `AppRules.Table.Insert` | app.py:367-370 | The table gains one row under a fresh id, and no other row changes. |
| `AppRules.Table.Update` | app.py:357-358 | A missing id changes nothing. Otherwise the row is merged with the new values, and nothing else changes. |
| `AppRules.Table.Delete` | app.py:390-391 | The row with that id, if any, is removed, and nothing else changes. |
| `AppRules.SaveRow` | app.py:348-384 | A new record is inserted with the start rule applied. An existing id is updated. The id of the saved record is returned. |
| `AppRules.ConcluidaValues` | app.py:405-417 | The archive record has exactly the fields of the source's archive dict. |
| `AppRules.Restrict` | app.py:419-420 | The kept keys are exactly those in both the record and the columns, with unchanged values. |
| `AppRules.AgendaArchive` | app.py:405-417 | An agenda row is archived under its own date, time, process number and note. |
| `AppRules.MoveToConcluidas` | app.py:398-425 | `None` or a missing id changes nothing. Otherwise the source loses the row and the archive gains one row with the archive record restricted to its columns, so one count goes down by one and the other up by one, and the archive's next id moves up by one. The columns of both tables and the source's next id do not change. |
| `AppRules.CommonColumns` | app.py:449-451 | A column is common iff it is a source column, a destination column and not "id". |
| `AppRules.CommonColumnsAppend` | app.py:451 | The common columns keep the source order. |
| `AppRules.Project` | app.py:454 | The copied record has exactly the common columns as keys. |
| `AppRules.MoveAllShape` | app.py:452-461 | The source loses exactly the listed rows, and the target keeps all its old rows. Every new target row uses only the common columns and the deadline columns. |
| `AppRules.MoveAllCount` | app.py:452-461 | Each row that leaves the source arrives in the target: the two counts change by the same amount. |
| `AppRules.MoveAllValues` | app.py:452-461 | Every new target row is the copy of a listed source row on the common columns, with the start-date and deadline rule applied. Every listed source row arrives in the target as such a copy. |
| `AppRules.MoveRows` | app.py:444-462 | Both tables end as `MoveAll` on the common columns describes, with the archive's next id included. The columns of both tables and the source's next id do not change. An empty id list changes nothing. |
| `AppRules.ImporterFinanceRoutes` | app.py:766 | (example) The importer's financial sector, "Setor Financeiro", routes to the financial table. |
| `AppRules.ImporterDefaultStays` | app.py:766 | (example) The importer's default sector, "Taina", does not. |
| `AppRules.AccentedLiviaStays` | app.py:766 | (example) The accented spelling "Lívia" is not one of the names. |
| `AppRules.PubValues` | app.py:754-765 | The saved record has exactly the publication fields. |
| `AppRules.AgendaValues` | app.py:734-748 | The agenda record has exactly the agenda fields, and no start column. |
| `AppRules.SubmitDestination` | app.py:732-773 | The agenda is chosen iff a hearing or exam is detected in the answer. Otherwise the financial table is chosen iff the stripped, lower-cased sector is one of the three names, and the publication table in every other case. |
| `AppRules.SubmitPublicacao` | app.py:728-773 | The agenda, financial and publication tables end as `SubmitDestination` says. A record moved away from the publications is deleted there. |
| `CalendarEvents.CleanText` | calendar_integration.py:113-118 | `None` gives "". What is left of other values is stated by `CleanTextTrimmed`. |
| `CalendarEvents.CleanTextTrimmed` | calendar_integration.py:113-118 | Cleaned text has no blank at either end, and cleaning is idempotent. |
| `CalendarEvents.CoerceStr` | calendar_integration.py:178-184 | `None` gives none, and a number gives its decimal text. Text behaves as `CoerceAgreesWithClean` states. |
| `CalendarEvents.CoerceAgreesWithClean` | calendar_integration.py:178-184 | On text, coercion gives none iff cleaning gives "", and otherwise the cleaned text. |
| `CalendarEvents.MatchesFrom` | calendar_integration.py:47 | The matches of the time pattern come left to right and do not overlap. |
| `CalendarEvents.MatchesCoverDigits` | calendar_integration.py:47 | No digit is passed over: every digit lies inside some match. |
| `CalendarEvents.TimesOf` | calendar_integration.py:144-152 | `_extract_times` as a definition, without a contract of its own: the valid clocks read from the matches of the time pattern, in order. `CalendarEvents.ValidTimesMembers` and `CalendarEvents.TimesOfValid` state its properties. |
| `CalendarEvents.ValidTimesMembers` | calendar_integration.py:144-152 | A clock is returned iff it is valid and read from some match. |
| `CalendarEvents.ValidTimesAppend` | calendar_integration.py:144-152 | The returned times keep the order of appearance. |
| `CalendarEvents.TimesOfValid` | calendar_integration.py:144-152 | Every time returned has hour < 24 and minute < 60. |
| `CalendarEvents.ClockOfShape` | calendar_integration.py:148-151 | A match without minutes reads as minute 0. |
| `CalendarEvents.TimesExampleMinutes` | calendar_integration.py:144-152 | (example) "14h30" reads as 14:30. |
| `CalendarEvents.TimesExampleDropped` | calendar_integration.py:144-152 | (example) "25h" gives no time. "9h" gives 9:00. |
| `CalendarEvents.ExtractTimes` | calendar_integration.py:144-152 | The loop returns `TimesOf(horario)`. |
| `CalendarEvents.ComputeEventTimes` | calendar_integration.py:155-175 | `_compute_event_times` as a definition, without a contract of its own. `CalendarEvents.AllDayWithoutTimes` and `CalendarEvents.TimedEvent` state its two cases. |
| `CalendarEvents.AllDayWithoutTimes` | calendar_integration.py:160-163 | Without a valid time, the event is all-day, from its day to the next day. |
| `CalendarEvents.TimedEvent` | calendar_integration.py:164-175 | With a time, the event starts at the first time on its day. It ends at the second time when that is later, and otherwise 60 minutes after the start, so the end is always after the start. |
| `CalendarEvents.BuildSummary` | calendar_integration.py:335-351 | `_build_summary` as a definition, without a contract of its own. `CalendarEvents.SummaryBaseChoice` and `CalendarEvents.SummaryStatusPrefix` state its properties. |
| `Strings.Upper` | calendar_integration.py:336 | `str.upper` is never shorter than the text and is empty only for the empty text. The sharp s becomes "SS"; any text without it is mapped character by character. |
| `CalendarEvents.SummaryBaseChoice` | calendar_integration.py:335-351 | The base is never empty. It starts with the kind and contains the client whenever they are given. It falls back to the subject, then to "Compromisso". |
| `CalendarEvents.SummaryStatusPrefix` | calendar_integration.py:346-351 | A status becomes an upper-case "[STATUS] " prefix to the base. Without a status, the summary is the base. |
| `CalendarEvents.BuildDescription` | calendar_integration.py:353-384 | `_build_description` as a definition, without a contract of its own. `CalendarEvents.PresentLinesMembers`, `CalendarEvents.DescriptionEnds` and `CalendarEvents.DescriptionText` state its properties. |
| `CalendarEvents.PresentLinesMembers` | calendar_integration.py:353-381 | There is exactly one `caption + value` line per non-empty optional field, and nothing else. |
| `CalendarEvents.PresentLinesAppend` | calendar_integration.py:353-381 | The lines of earlier fields come before those of later fields. |
| `CalendarEvents.DescriptionEnds` | calendar_integration.py:353-384 | The last two lines are always the record-id line and the fixed sync line. At most nine lines come before them. |
| `CalendarEvents.DescriptionText` | calendar_integration.py:384 | The text is the optional lines, each followed by a newline, then the id line, a newline and the sync line. |
| `CalendarEvents.Combined` | calendar_integration.py:303-313 | The aggregation of `delete_events` as a definition, without a contract of its own. `CalendarEvents.CombinedSpec` states its meaning. |
| `CalendarEvents.NoFailuresIffAllSucceed` | calendar_integration.py:303-313 | No failure is recorded iff every deletion succeeded. |
| `CalendarEvents.LastFailure` | calendar_integration.py:303-313 | The reported message is that of the last failed deletion. |
| `CalendarEvents.CombinedSpec` | calendar_integration.py:303-313 | The result is (true, none) iff every deletion succeeds. Otherwise it is false with the last failure's message. |
| `CalendarEvents.DeleteEvents` | calendar_integration.py:303-313 | The loop's outcome is the combination of the oracle's per-id outcomes. |
| `PjeScrape.ParseDateBr` | scrap_pje.py:57-65 | A parsed date is valid. |
| `PjeScrape.ParseDateBrReadsBothLayouts` | scrap_pje.py:57-65 | Both layouts read back the date they were written from. |
| `PjeScrape.ParseDateBrIgnoresBlanks` | scrap_pje.py:59 | Surrounding blanks do not matter. |
| `PjeScrape.NormalizeRecord` | scrap_pje.py:151-170 | `normalize_record` as a definition, without a contract of its own. `PjeScrape.NormalizeRecordShape` states its properties. |
| `PjeScrape.NormalizeRecordShape` | scrap_pje.py:151-170 | The process number is "" iff the text holds no CNJ number, and otherwise 25 characters. An unreadable date becomes today. The notes are single-spaced and keep the card text's non-blank characters. The sector is one of the two the classifier gives. |
| `PjeScrape.LatestIffHasKey` | scrap_pje.py:192-205 | A batch has a latest record for a key iff some record has that key. |
| `PjeScrape.UpsertedLookup` | scrap_pje.py:192-205 | After the upsert, a key is stored iff it was stored before or is in the batch. It holds the batch's last record with that key, else its old row. |
| `PjeScrape.UpsertedKeys` | scrap_pje.py:192-205 | The stored keys are the old keys and the batch's keys. |
| `PjeScrape.UpsertExistingKey` | scrap_pje.py:68-71 | A record whose key is stored replaces that row and adds none. |
| `PjeScrape.UpsertIdempotent` | scrap_pje.py:192-205 | Saving the same batch twice is the same as saving it once. |
| `PjeScrape.SaveAsWritten` | scrap_pje.py:173-213 | `save_records` as written, as a definition without a contract of its own. `PjeScrape.SaveAsWrittenRejectsRepeatedKey` shows the failure of the Findings row. |
| `PjeScrape.SaveAsWrittenRejectsRepeatedKey` | scrap_pje.py:206-213 | A batch that repeats a key within one 100-row page, that is, within one command, fails as written, although the upsert it means is well defined. |
| `PjeScrape.LastPerKey` | scrap_pje.py:173-213 | The reduced batch has distinct keys, no new keys, and is empty iff the batch is. |
| `PjeScrape.LatestOfLastPerKey` | scrap_pje.py:173-213 | Keeping the last record per key changes no lookup. |
| `PjeScrape.UpsertedLastPerKey` | scrap_pje.py:173-213 | Keeping the last record per key leaves the upsert's result unchanged. |
| `PjeScrape.SaveRecords` | scrap_pje.py:173-213 | (corrected save, see Findings) The save as a definition, without a contract of its own. `PjeScrape.SaveRecordsCommits` and `PjeScrape.UpsertedLastPerKey` state its properties. |
| `PjeScrape.SaveRecordsCommits` | scrap_pje.py:173-213 | The corrected save always commits, and commits the upsert. |
| `PjeScrape.Database.SaveBatch` | scrap_pje.py:173-213 | (corrected save, see Findings) The table becomes the upsert of the batch, the watermarks are untouched, and the count returned is the batch's length. |
| `PjeScrape.RunSpec` | scrap_pje.py:219-265 | `run` as a definition, with the save as a parameter and without a contract of its own. `PjeScrape.RunRangeCheck`, `PjeScrape.RerunResumesAtWatermark`, `PjeScrape.WatermarkCanMoveBack` and `PjeScrape.RunDryRun` state its properties. |
| `PjeScrape.RunRangeCheck` | scrap_pje.py:219-231 | A reversed range is an error and changes nothing. Any other range is walked. |
| `PjeScrape.RerunResumesAtWatermark` | scrap_pje.py:222-228 | Without bounds, the range runs from the watermark's day to today. |
| `PjeScrape.WatermarkCanMoveBack` | scrap_pje.py:222-259 | With an explicit start before the watermark's day, a successful run moves the watermark back. |
| `PjeScrape.DayLoop` | scrap_pje.py:233-265 | The day loop of `run` as a definition, with the save as a parameter and without a contract of its own. `PjeScrape.DayLoopSaved`, `PjeScrape.NothingAfterFailure`, `PjeScrape.WatermarkIsLastGoodDay`, `PjeScrape.AllDaysSucceed` and `PjeScrape.AsWrittenStopsAtRepeatedKey` state its properties. |
| `PjeScrape.DayLoopNeverRangeError` | scrap_pje.py:233-265 | The day loop itself never reports a range error. |
| `PjeScrape.DayLoopSaved` | scrap_pje.py:237-263 | A successful day saves (or, in a dry run, does not), moves the watermark to that day's 23:59:59, and hands over to the next day. |
| `PjeScrape.DryRunSavesNothing` | scrap_pje.py:240-252 | A dry run leaves the publications untouched and counts nothing. |
| `PjeScrape.RunDryRun` | scrap_pje.py:219-265 | A dry run of `run` saves nothing, and reports 0 when it finishes. |
| `PjeScrape.NothingAfterFailure` | scrap_pje.py:260-262 | The loop stops at the first failing day. Two fetch oracles that agree up to that day give the same result. |
| `PjeScrape.OtherScopesKept` | scrap_pje.py:257-259 | Only the "pje_comunica" watermark is written. |
| `PjeScrape.WatermarkIsLastGoodDay` | scrap_pje.py:257-262 | The watermark is unchanged, or it is the end of a successfully fetched day of the range. |
| `PjeScrape.AllFetchedIff` | scrap_pje.py:234-263 | `AllFetched` holds iff every day of the range is fetched. |
| `PjeScrape.AllDaysSucceed` | scrap_pje.py:233-265 | When every day is fetched, the loop finishes with the watermark at the end of the last day. The total is the number of records fetched, or 0 in a dry run. |
| `PjeScrape.LastDay` | scrap_pje.py:235 | Past the last day the loop stops, and nothing more is counted. |
| `PjeScrape.AsWrittenStopsAtRepeatedKey` | scrap_pje.py:254-262 | As written, a day with two cards with the same key within one 100-row page stops the loop: nothing of that day is saved, and the watermark stays. |
| `PjeScrape.Database.Run` | scrap_pje.py:219-265 | (corrected save, see Findings) The method's new state and outcome equal `RunSpec` with the corrected save. |
| `PjeScrape.Database.RunDays` | scrap_pje.py:233-265 | (corrected save, see Findings) The while loop's new state and outcome equal `DayLoop` with the corrected save. |

## Left out

- Text is modelled on these character classes:
  - `str.isspace` on the Unicode whitespace list;
  - `lower`/`upper` on ASCII and Latin-1 only, with `upper` of "ß" giving "SS";
  - `\d` and `isdigit` on ASCII digits only;
  - `str.isalnum` in `_scan_time_simple` on ASCII and Latin-1 letters and digits only, so a token such as "14h30ωx" splits at "ω" in the model but not in Python;
  - `normalizar`'s NFKD fold written out for ASCII, the Latin-1 letters and a few compatibility signs, with every other character dropped.

  A text with letters outside Latin-1 may fold, change case or split into tokens differently in Python.
- `EmailText.ToDateOrNone`: `fromisoformat` is modelled on `YYYY-MM-DD`, alone or followed by one separator and `HH:MM` or `HH:MM:SS`. An hour alone, fractions of a second, UTC offsets, and the compact and week forms that newer Python versions accept are not modelled; such text gives none in the model.
- `EmailEvents.EventDateTime`: computes the corrected window of the first Findings row, not the code as written. The code as written is `EmailEvents.EventFieldsAsWritten`, and `EmailEvents.FieldsSkew` shows where the two differ.
- `EmailEvents.EventFields`: reads the fields over the corrected window of the first Findings row, not the window as written. Its as-written partner is `EmailEvents.EventFieldsAsWritten`, and `EmailEvents.FieldsSkew` shows where the two differ.
- `EmailIngest.AutoAgendaOf`: uses the corrected window of the first Findings row, as `EmailEvents.EventDateTime` does.
- `EmailIngest.AutoAgenda`: takes its date and time from `EmailEvents.EventFields`, over the corrected window of the first Findings row. The entry as written would take them from `EmailEvents.EventFieldsAsWritten`.
- `EmailIngest.ProcessarCourt`: uses the corrected window of the first Findings row, through `EmailIngest.AutoAgendaOf`.
- `PjeScrape.Database.SaveBatch`: performs the corrected save of the second Findings row, not the code as written. The code as written is `PjeScrape.SaveAsWritten`, and `PjeScrape.SaveAsWrittenRejectsRepeatedKey` shows where the two differ.
- `PjeScrape.SaveRecords`: is the corrected save of the second Findings row, which keeps the last record per key and always commits. The save as written is `PjeScrape.SaveAsWritten`, which fails on a key repeated within one page.
- `PjeScrape.Database.Run`: runs the day loop with the corrected save. The loop with the save as written is `PjeScrape.DayLoop` with `PjeScrape.SaveAsWritten`, stated by `PjeScrape.AsWrittenStopsAtRepeatedKey`.
- `PjeScrape.Database.RunDays`: the same corrected save as `PjeScrape.Database.Run`.
- `PjeScrape.RerunResumesAtWatermark`: assumes that the stored end of day, 23:59:59, reads back as the same day. The source attaches the zone with pytz's `.replace(tzinfo=TZ)` (scrap_pje.py:40, 258), which gives the zone's local-mean-time offset of −03:06 rather than −03:00. If the column keeps that offset, `astimezone(TZ).date()` at scrap_pje.py:224 reads the next day. The column type is not visible, so this is not modelled.
- `EmailBodies.SplitLines`: "\r\n" gives an extra empty piece and a final break an empty last piece. The callers drop empty lines, so their results are not affected.
- `AppRules.NormalizeStatusIdempotent`: `Normalize` lower-cases before trimming. That equals the source's order on ASCII text, which is all that folding leaves.
- The stringification of float and date cells in `_text` and `_clean_text` is not modelled. Cells are text, numbers or none.
- The calendar sync calls of `_save_row`, `_delete_row`, `_move_to_concluidas` and `_move_rows` are left out. They send data outward and only feed `_show_calendar_warning`, which is modelled.
- `_delete_rows` (app.py:431-441) is a bulk delete behind a UI button, outside the rules named above.
- Database row order is left out. Tables are maps from id to row. So `AppRules.MoveRows` and `AppRules.MoveAll` hand out the new target ids in the order of the given id list, where `_move_rows` (app.py:452-455) inserts in the order the `filter(id.in_(ids))` query returns the rows.
- The Google Calendar client is left out: credentials, service construction, and the insert, update, list and delete calls. `delete_events` sees only the per-id outcomes.
- `_ensure_date` is not modelled. Dates arrive as day numbers.
- IMAP search and fetch, MIME walking and the HTML-to-text conversion are left out. The importer works on a list of fetched messages, each with a sender, an optional timestamp and a body text.
- Naive versus aware datetimes are left out: timestamps are integers.
- The unreachable generic sender branch (`processar_corpo_generico`, scrap_email.py:450-451) is not modelled; every sender in `REMETENTES` has its own branch.
- The same message found in both folders is processed twice, as in the source.
- Column types are not modelled, and `capturado_em` is omitted.
- MD5/SHA-256 are replaced by the key tuple they digest, so digest collisions are not modelled.
- The Playwright scraping and the tenacity retry become the fetch oracle.
- Database connection errors and other exceptions inside `run` are folded into a failed day.
- `datetime.now` and `date.today` are parameters.
- `sleep` and logging are left out.
- Where the code and its description differ, the model follows the code: an explicit earlier start moves the watermark back (`PjeScrape.WatermarkCanMoveBack`), so the scraper's watermark can regress.

## Findings

| source | as written | input that shows it | evidently intended | confidence | as-written member | corrected member |
|---|---|---|---|---|---|---|
| scrap_email.py:353-365 | The keyword's index in the folded text `normalizar(texto)` is used to slice the raw text. Folding drops combining and non-Latin signs and expands some signs ("¼" becomes "14"), so the index is off by the change in length: dropped signs make it too small, expansions too large. | Ten "§" signs, then "01/01/2024audiencia": the keyword is at index 10 of the folded text and index 20 of the raw text. The window starts at the date before the keyword, which is picked up as the event date. | The window starts at the raw character the keyword comes from. | not executed | `EmailEvents.EventWindowAsWritten` (`EmailEvents.WindowSkew`) | `EmailEvents.EventWindow` (`EmailEvents.KeywordStart`) |
| scrap_pje.py:173-213 | The records of a day go through `execute_values` as `INSERT ... ON CONFLICT (hash_dedup) DO UPDATE` commands of up to 100 rows per command. PostgreSQL refuses to update the same row twice in one command, so a day with a dedupe key repeated within one such page fails as a whole, and `run` stops there. Repeats in different pages are updated by the later command and commit. | A day with two cards with the same key (the same process, date and text) within one 100-row page (`PjeScrape.SaveAsWrittenRejectsRepeatedKey`, `PjeScrape.AsWrittenStopsAtRepeatedKey`). | The upsert keeps the last card per key, so every fetched day commits. | not executed | `PjeScrape.SaveAsWritten` (`PjeScrape.AsWrittenStopsAtRepeatedKey`) | `PjeScrape.SaveRecords` (`PjeScrape.SaveRecordsCommits`) |
