# Hysterical Ticket, modelled in Dafny

A model of the core of *hysterical_ticket*, a small Python tool for two
Chinese lotteries: the double-colour ball (`ssq`, six red balls and one
blue) and the super lotto (`dlt`, five red and two blue). The model covers:

- **the prize evaluator** (`bingo_ssq.py`): the hit count of a ticket
  against a draw, the decision table from hits to a prize level, the
  payout and label per level, and the two generators. `get_results` scores
  every ticket against one draw. `trace_results` scores every ticket
  against every row of a saved history, draw-major;
- **the history collectors**: the asynchronous one
  (`hysterical_ticket/component/collector.py`) and the older synchronous one
  (`hysteria/collector.py`). Both cover the branch dispatch, the memoised
  latest term, the shaping of table rows into eight stripped cells, and the
  CSV file they write. The asynchronous one also writes the version note
  `"{term}.{branch}"` beside the CSV and skips the fetch while the CSV is
  younger than twelve hours;
- **the kill-number cache** (`fns.py`): the container read from and written
  to `{next_term}.{ext}`, fetched from the two prediction pages only when
  incomplete. The page's numbers are normalised to a sorted set;
- **the front-end helpers** of both packages (`hysterical_ticket/ui.py`,
  `hysteria_ticket/ui.py`): the numbered menu entries, the term pair read
  from a directory listing, the path-to-extension table, and the history
  menu's pipeline. The older package's `setup_ordered_list` and
  `get_term_format` (`hysteria_ticket/ui.py`, lines 60-61 and 88-93) are the
  same code as the newer one's. They are modelled once, by `Ui.OrderedList`
  and `Ui.TermFormat`.

Python exceptions are the `Error` kinds of `Results`. A function that can
raise returns a `Result`. A generator is modelled as a `Stream`: the items
it yields before it stops, and the exception it stops with.

Network replies, parsed HTML pages, the file system (`map<FilePath,
Content>`), file creation times, the clock and the JSON reader are all
parameters. Every request a run sends is recorded, in order, as a
`Request`. Text is `seq<char>`. `str()`, `int()`, `str.split`,
`str.strip` and `sorted(set(...))` are defined in `Numerals`, `Text` and
`Order`, with the properties the model needs proved about them.

Files, one module each: `results.dfy`, `text.dfy`, `numerals.dfy`,
`order.dfy`, `files.dfy` (the shared vocabulary), `prize.dfy`, `demo.dfy`,
`draws.dfy` (the collector logic both collectors share),
`collector.dfy`, `sync_collector.dfy`, `fns.dfy`, `ui.dfy`,
`legacy_ui.dfy`, and `pipeline.dfy` (the collector's saved history read back by the prize evaluator).

## Model

| member | source | states |
|---|---|---|
| Prize.Code | hysterical_ticket/component/bingo_ssq.py:12-19 | Every level code lies in 0..6, and it is 0 exactly for no prize. |
| Prize.CodeIsReversedRank | hysterical_ticket/component/bingo_ssq.py:12-19 | For every winning level, the code counts down from the best: code = 7 - rank. |
| Prize.GetBonus | hysterical_ticket/component/bingo_ssq.py:21-24 | Codes 0..6 have a payout and any other integer is a `KeyError`. No prize pays 0, sixth 5, fifth 10, fourth 200 and third 3000. First and second pay the sentinel -1, and no other level does. |
| Prize.BonusGrowsWithRank | hysterical_ticket/component/bingo_ssq.py:23 | Among the levels with a fixed payout, a strictly better level pays strictly more. |
| Prize.GetZhLevel | hysterical_ticket/component/bingo_ssq.py:26-29 | Codes 0..6 have a label and any other integer is a `KeyError`. |
| Prize.ZhLevelInjective | hysterical_ticket/component/bingo_ssq.py:28 | Different levels have different labels. |
| Prize.IsBingo | hysterical_ticket/component/bingo_ssq.py:32-55 | Outside 0..6 red or 0..1 blue it is an `AssertionError`. Inside, it returns exactly the level that the independent hit-pattern rule `Awarded` gives the pair. |
| Prize.IsBingoMonotoneInRed | hysterical_ticket/component/bingo_ssq.py:36-55 | With the blue result fixed, more red hits never give a worse level. |
| Prize.IsBingoMonotoneInBlue | hysterical_ticket/component/bingo_ssq.py:36-55 | With the red hits fixed, hitting the blue ball never gives a worse level. |
| Prize.RedHits | hysterical_ticket/component/bingo_ssq.py:61-63 | The red hit count is at most the number of ticket slots. It equals that number iff every slot's number is in the draw, and it is 0 iff none is. |
| Prize.RedHitsAppend | hysterical_ticket/component/bingo_ssq.py:61-63 | The hits of two ticket parts add up. |
| Prize.RedHitsTicketPermutation | hysterical_ticket/component/bingo_ssq.py:61-63 | Two ticket parts with the same multiset of numbers get the same hit count. |
| Prize.RedHitsDrawMembership | hysterical_ticket/component/bingo_ssq.py:62 | Two draws holding the same set of numbers give the same hit count, whatever their order or repeats. |
| Prize.CompareNums | hysterical_ticket/component/bingo_ssq.py:58-67 | An empty ticket or an empty draw is an `IndexError`. Otherwise red counts the ticket's red slots found among the draw's red numbers. Blue is 1 exactly when the last numbers agree. |
| Prize.CompareNumsLoop | hysterical_ticket/component/bingo_ssq.py:58-67 | The slot-by-slot loop returns the same pair as `CompareNums`. |
| Prize.CompareNumsPermutation | hysterical_ticket/component/bingo_ssq.py:58-67 | Reordering the red part of the ticket or of the draw leaves the hit pair unchanged. |
| Prize.GradeOf | hysterical_ticket/component/bingo_ssq.py:87-93 | A hit pair in range gets the level that `Awarded` gives it, with that level's payout and label. |
| Prize.Score | hysterical_ticket/component/bingo_ssq.py:86-94 | Scoring succeeds iff ticket and draw are non-empty and there are at most six red hits. A scored result carries the hits of `CompareNums`, the caller's term and the grade of those hits. |
| Prize.ScoreAwards | hysterical_ticket/component/bingo_ssq.py:86-93 | A successful score's level is the level the prize rule awards to its hits, with the matching payout and label. |
| Prize.ScoreErrors | hysterical_ticket/component/bingo_ssq.py:32-67 | An empty ticket or draw fails with `IndexError`. More than six red hits fail with `AssertionError`. |
| Prize.SevenSlotTicketScores | hysterical_ticket/component/bingo_ssq.py:58-67 | A ticket of seven numbers against a non-empty draw always scores. |
| Prize.Yield | hysterical_ticket/component/bingo_ssq.py:84-94 | A generator yields each ticket with its result, in order, up to the first failing step, and stops with that step's error. |
| Prize.GetResults | hysterical_ticket/component/bingo_ssq.py:84-94 | Item i is ticket i with its score and no term. The run completes iff it yields one item per ticket. A failed run stops at the first ticket whose scoring fails, with that ticket's error. |
| Prize.GetResultsComplete | hysterical_ticket/component/bingo_ssq.py:84-94 | With seven-number tickets and a non-empty draw, item i is ticket i with its score, and nothing fails. |
| Prize.CacheLines | hysterical_ticket/component/bingo_ssq.py:97-98 | Every kept line is non-empty, and a line is kept iff it is a non-empty line after the first. Order and repeats are stated by `Text.NonEmptyAppend` and `Prize.CacheLinesOfCsv`. |
| Prize.CacheLinesOfCsv | hysterical_ticket/component/bingo_ssq.py:97-98 | For a first line followed by newline-ended, non-empty row lines, the kept lines are exactly the row lines, in order and with repeats. The empty text after the final newline is dropped. |
| Prize.DecodedRows | hysterical_ticket/component/bingo_ssq.py:98-100 | The reader gives one row per kept line: row k is kept line k decoded. |
| Prize.Chain | hysterical_ticket/component/bingo_ssq.py:100-113 | Nested generator loops complete iff every stream completes. |
| Prize.ChainLength | hysterical_ticket/component/bingo_ssq.py:100-113 | When each of k streams yields n items, the chain yields k * n items. |
| Prize.ChainBlock | hysterical_ticket/component/bingo_ssq.py:100-113 | When each stream yields n items, stream j's items are the j-th block of n in the chain. |
| Prize.ChainFailure | hysterical_ticket/component/bingo_ssq.py:100-113 | When stream j is the first to fail, the chain yields every item of the earlier streams, then stream j's partial items, and stops with stream j's error. |
| Prize.RowScan | hysterical_ticket/component/bingo_ssq.py:101-113 | A row's term is its first field and its draw is the rest. An empty row fails with `IndexError`. |
| Prize.ScanDraws | hysterical_ticket/component/bingo_ssq.py:100-113 | The scan of every ticket against every row completes iff each row's scan does. |
| Prize.TraceResults | hysterical_ticket/component/bingo_ssq.py:96-113 | `trace_results` completes iff the scan of every decoded kept line completes. |
| Prize.TraceResultsAt | hysterical_ticket/component/bingo_ssq.py:96-113 | A missing cache file fails with `FileNotFoundError` before yielding anything. Otherwise the scan completes iff every decoded kept line of the file's text scans. |
| Prize.TraceResultsOrder | hysterical_ticket/component/bingo_ssq.py:96-113 | In a complete scan, item j * \|tickets\| + i is ticket i scored against the j-th kept line of the file, in file order. The line's first field is the term and the rest is the draw. |
| Prize.ScanDrawsLength | hysterical_ticket/component/bingo_ssq.py:100-113 | A scan that completes yields one result per (row, ticket) pair. |
| Prize.ScanDrawsOrder | hysterical_ticket/component/bingo_ssq.py:100-113 | Item j * \|tickets\| + i of a complete scan is ticket i scored against row j's draw, carrying row j's term. |
| Prize.ScanDrawsFailure | hysterical_ticket/component/bingo_ssq.py:100-113 | When row j is the first whose scan fails, the results of all earlier rows are yielded, then row j's partial results, and the scan stops with row j's error. |
| Prize.EmptyRowAfterGoodRow | hysterical_ticket/component/bingo_ssq.py:100-104 | A good row followed by an empty one yields the good row's result, then fails with `IndexError`. |
| Prize.ShortRowIsScored | hysterical_ticket/component/bingo_ssq.py:98-104 | A row with fewer than eight fields is still scored; no field-count check exists. |
| Prize.BlueOnlyWinsSixth | hysterical_ticket/component/bingo_ssq.py:45-47 | No red hit and the right blue ball win the sixth prize, which pays 5. |
| Prize.SingleRedHit | hysterical_ticket/component/bingo_ssq.py:61-63 | A ticket with exactly one red slot in the draw counts one red hit. |
| Prize.OneRedHitWinsNothing | hysterical_ticket/component/bingo_ssq.py:36-38 | One red hit and the wrong blue ball win nothing and pay 0. |
| Prize.AllRedHit | hysterical_ticket/component/bingo_ssq.py:43-55 | All six reds without the blue win the second prize; with the blue they win the first. Both pay -1. |
| Prize.RepeatedNumberCountsTwice | hysterical_ticket/component/bingo_ssq.py:61-63 | A ticket number that the draw holds is counted once per slot it occupies. |
| Demo.TicketOneWinsNothing | examples/demo_get_results.py:23-31 | The demo's first ticket hits one red and misses the blue: no prize. |
| Demo.TicketTwoWinsSixth | examples/demo_get_results.py:23-31 | The demo's second ticket hits only the blue: sixth prize, 5. |
| Draws.Select | hysterical_ticket/component/collector.py:48-76 | The branch is the double-colour ball exactly for `Branch.SSQ` or `"ssq"`, and the super lotto exactly for `Branch.DLT` or `"dlt"`. Any other branch is unknown. |
| Draws.HeaderLayout | hysterical_ticket/component/collector.py:48-72 | The header is `term`, then `red_k` for each red ball and `blue_k` for each blue ball, numbered from 1: eight columns for both games. |
| Draws.LatestTermOf | hysterical_ticket/component/collector.py:84-85 | The term is the `value` of `input#end` inside `div.wrap_datachart`. A missing division, input or attribute raises `AttributeError`, `TypeError` or `KeyError`. |
| Draws.RowShape | hysterical_ticket/component/collector.py:92-118 | A row shapes exactly when it has at least eight cells. The result is the first eight cells stripped; a shorter row is an `IndexError`. |
| Draws.ParsersAgree | hysterical_ticket/component/collector.py:92-118 | The double-colour-ball and super-lotto row parsers give the same result on every row. |
| Draws.ShapeRows | hysterical_ticket/component/collector.py:97-103 | The table shapes iff every row does. On success there is one shaped row per row, in order. On failure the error is `IndexError`. |
| Draws.ParseTable | hysterical_ticket/component/collector.py:93-94 | A page without `tbody#tdata` is an `AttributeError`. |
| Draws.ParsedRows | hysterical_ticket/component/collector.py:92-118 | Parsed row i is the first eight cells of table row i, stripped, whichever game parses it. |
| Draws.ShapeRowsAgree | hysterical_ticket/component/collector.py:92-118 | Both games shape a whole table the same way. |
| Draws.Create | hysterical_ticket/component/collector.py:40-76 | A known branch gives an empty collector of its game. An unknown one exits with status 1. |
| Draws.GetLatestTerm | hysterical_ticket/component/collector.py:78-90 | A memoised term is answered without a request. Otherwise the term page is requested, and what it yields is memoised. |
| Draws.LatestTermMemoised | hysterical_ticket/component/collector.py:79-80 | After a non-empty term was read, asking again sends nothing and returns the same term. |
| Draws.GetHistory | hysterical_ticket/component/collector.py:120-131 | A filled container is returned without a request. Otherwise the term, then the table for terms 1 to that term, are requested. The parsed rows replace the container, and the call returns `None`. |
| Draws.HistoryMemoised | hysterical_ticket/component/collector.py:122-124 | After a fetch stored rows, the next call sends nothing and returns those rows. |
| Draws.FirstFetchRequests | hysterical_ticket/component/collector.py:126-127 | When the term page yields a term, a new collector's first fetch sends the term request. It then sends the table request with `start=1` and `end=` that term, and nothing else. |
| Collector.SaveHistory | hysterical_ticket/component/collector.py:133-144 | The CSV holds the header and the rows. The version note `{"version": term}` is written beside it, and no other file changes. |
| Collector.SavedRows | hysterical_ticket/component/collector.py:134-137 | Saved row 0 is the eight-column header. Saved row i + 1 is container row i. |
| Collector.BranchOf | hysterical_ticket/component/collector.py:152 | The branch taken from an extension contains no dot. |
| Collector.Collect | hysterical_ticket/component/collector.py:152-161 | A failed collection leaves the files unchanged. An unknown branch exits with status 1 and sends nothing. A known branch first requests its term page. |
| Collector.TraceHistory | hysterical_ticket/component/collector.py:147-161 | A fresh file means nothing is sent or written. Otherwise it collects the branch its extension names. |
| Collector.TraceStoresTable | hysterical_ticket/component/collector.py:147-161 | A successful trace of a stale file sent exactly the term and table requests. It saved the stripped table under the header, with the term it read in the note. |
| Collector.SsqExtension | hysterical_ticket/component/collector.py:152-153 | The extension `.ssq` fetches from the double-colour-ball site. |
| Collector.ExtensionBranch | hysterical_ticket/component/collector.py:152 | Removing the dots from `"." + name`, where name has none, gives name. |
| SyncCollector.ProjectPath | hysteria/settings.py:10-14 | Both game files live in the project's `database` directory. |
| SyncCollector.ProjectPathsDiffer | hysteria/settings.py:13-14 | The two games never share a file. |
| SyncCollector.Create | hysteria/collector.py:34-72 | A known branch gives the shared collector state. Its save path is always the game's project path, whatever `_sp` was passed. An unknown branch exits with status 1. |
| SyncCollector.AddressesOfBranch | hysteria/collector.py:78-93 | The absolute table and term addresses are the asynchronous collector's base URL followed by the same paths. |
| SyncCollector.GetHistory | hysteria/collector.py:131-140 | It has the same memoisation and request order as the asynchronous fetch, at absolute URLs. |
| SyncCollector.SaveHistory | hysteria/collector.py:142-147 | The project path gets the header and the rows. Nothing else changes, and no version note is written. |
| SyncCollector.TraceHistory | hysteria/collector.py:150-153 | A failed trace changes no file. A successful one adds exactly the game's project path. |
| SyncCollector.OutputIgnored | hysteria/collector.py:150-153 | The `output` argument has no effect on the trace. |
| SyncCollector.AgreesWithAsync | hysteria/collector.py:131-147 | For the same branch and replies, both collectors send the same requests and fail alike. They also write the same CSV content. |
| SyncCollector.SsqSavesToProjectPath | hysteria/collector.py:156-157 | `trace_ssq_history` writes `database/ssq.csv`, header first. |
| Fns.FromDict | hysterical_ticket/component/fns.py:23-29 | An object gives a container with each missing field empty. A non-object is an `AttributeError`. |
| Fns.FromMetadata | hysterical_ticket/component/fns.py:39-46 | A missing file, non-JSON text or a missing token gives the empty container. A top-level non-object is a `TypeError`. |
| Fns.MetadataRoundTrip | hysterical_ticket/component/fns.py:51-54 | Reading back what `as_metadata` wrote gives the same container. |
| Fns.ReadyIffBothNonEmpty | hysterical_ticket/component/fns.py:48-49 | The empty container is not ready. Two lists form a ready container iff both are non-empty. |
| Fns.DottedExt | hysterical_ticket/component/fns.py:69-70 | The extension always starts with a dot, and one is added only when missing. |
| Fns.DottedExtIdempotent | hysterical_ticket/component/fns.py:69-70 | Normalising twice is normalising once. |
| Fns.FromDb | hysterical_ticket/component/fns.py:77-94 | A name that does not split on `.` into exactly two parts is a `ValueError`. Otherwise the container comes from the file. The output path of the result is the file read. |
| Fns.FromDbNeedsOneDot | hysterical_ticket/component/fns.py:85 | `from_db` accepts a name iff it has exactly one dot and its metadata reads. |
| Fns.KillNumbers | hysterical_ticket/component/fns.py:108-109 | The numbers are strictly ascending, and are exactly the non-empty `-`-separated pieces. |
| Fns.KillNumbersCanonical | hysterical_ticket/component/fns.py:108-109 | Only one list can be the result: any strictly ascending list of exactly those pieces is it. |
| Fns.KillNumbersOfJoin | hysterical_ticket/component/fns.py:108-109 | Ascending distinct numbers joined by `-` are read back unchanged. |
| Fns.ParseResult | hysterical_ticket/component/fns.py:103-111 | No `tbody` is an `AttributeError`, and fewer than seven rows leave the container unchanged. The seventh row from the end must split into two on a space. Its numbers replace the field named by the page's URL, and an unknown URL fails. |
| Fns.Fetch | hysterical_ticket/component/fns.py:113-122 | A ready container is returned with no request. Otherwise the red page is requested, then the blue, and both are parsed in that order. |
| Fns.RedPageParses | hysterical_ticket/component/fns.py:107-111 | A well-formed page from the red URL replaces exactly the red field with its sorted numbers. |
| Fns.BluePageParses | hysterical_ticket/component/fns.py:107-111 | A well-formed page from the blue URL replaces exactly the blue field with its sorted numbers. |
| Fns.FetchFillsBoth | hysterical_ticket/component/fns.py:117-122 | Two pages answered from their own URLs, well formed and with non-empty numbers, make the container ready. |
| Fns.Save | hysterical_ticket/component/fns.py:124-126 | The output file gets the container's metadata, and nothing else changes. |
| Fns.GetFnsContainer | hysterical_ticket/component/fns.py:129-142 | A failure writes nothing. A success writes the container back to the file it read. |
| Fns.ReadyFileRun | hysterical_ticket/component/fns.py:113-115 | A file holding exactly what `save` writes for a ready container is returned with no request. Writing it back leaves every file as it was. |
| Fns.CachedRunSendsNothing | hysterical_ticket/component/fns.py:113-115 | Take a file with a one-dot name holding a ready container as `save` writes it. The next run sends nothing, returns that container and leaves the files as they were. |
| Ui.OrderedList | hysterical_ticket/ui.py:33-34 | There is one entry per item. |
| Ui.OrderedListNumbering | hysterical_ticket/ui.py:33-34 | Entry i's text before `". "` parses back to i + 1, and the rest is item i. |
| Ui.TermOfName | hysterical_ticket/ui.py:56 | Only a `ValueError` can fail the parse: an empty separator or a non-number. |
| Ui.LatestTerm | hysterical_ticket/ui.py:53-56 | Only a `ValueError` can fail the scan. With no matching name the term is 0. |
| Ui.TermFormat | hysterical_ticket/ui.py:52-57 | The result is a pair (n, n + 1), and (0, 1) when no name ends with the extension. |
| Ui.TermFormatLoop | hysterical_ticket/ui.py:52-57 | The name-by-name loop returns what `TermFormat` does. |
| Ui.PrefixFailure | hysterical_ticket/ui.py:54-56 | The first unparsable matching name fails the whole scan. |
| Ui.LastMatchWins | hysterical_ticket/ui.py:54-56 | The term comes from the last matching name in listing order, not the largest. |
| Ui.NumberedNameParses | hysterical_ticket/ui.py:56 | `"{n}{ext}"` with a dotted extension matches, and its term is n. |
| Ui.VersionNoteGivesTerm | hysterical_ticket/ui.py:52-57 | A listing holding only the note `"{n}.{branch}"` gives (n, n + 1). |
| Ui.CollectorNoteGivesTerm | hysterical_ticket/component/collector.py:140-143 | The note the collector saves for a numeric term is read back by the term scan as that term. |
| Ui.SolutionExt | hysterical_ticket/ui.py:91-94 | The double-colour-ball history path maps to `.ssq` and the super-lotto path to `.dlt`. Any other path is a `KeyError`. |
| Ui.IgnoredNumbers | hysterical_ticket/ui.py:60-67 | A `KeyError` while loading kill numbers gives none. Every other failure propagates. |
| Ui.PromptFor | hysterical_ticket/ui.py:117-123 | Kill numbers are loaded, and requests sent for them, only when the extension ends with `ssq`. The terms are the listing's pair. |
| Ui.MenuGetHistory | hysterical_ticket/ui.py:101-123 | It looks up the extension (`KeyError` for another path), then traces the history. A failed trace stops the menu with the trace's requests. A successful one continues with the prompt, and the requests add up in order. |
| Ui.DltLoadsNoKillNumbers | hysterical_ticket/ui.py:120-123 | The super-lotto menu sends only the collector's requests and never carries kill numbers. |
| Ui.SsqKillFile | hysterical_ticket/ui.py:121-122 | The kill-number file `{next}.ssq` has exactly one dot. The loader therefore accepts it iff its metadata reads. |
| LegacyUi.AsWrittenKeepsPastFiles | hysteria_ticket/ui.py:65 | As written, an existing file whose creation time is at most twelve hours in the future is never refetched. |
| LegacyUi.DayOldFileKeptAsWritten | hysteria_ticket/ui.py:72 | As written, a day-old file is kept, though the newer collector counts it as stale. |
| LegacyUi.StaleFileRefetched | hysteria_ticket/ui.py:64-75 | A file more than twelve hours old is refetched by the intended test. The test as written keeps it. |
| LegacyUi.RefetchAgreesWithFreshness | hysteria_ticket/ui.py:65 | The intended test refetches exactly what the newer collector counts as stale, except for a file exactly twelve hours old. |
| LegacyUi.TraceBranch | hysteria_ticket/ui.py:63-75 | The corrected trace: a collection is planned iff the file is missing or more than twelve hours old. It is of the given branch into the given file. |
| LegacyUi.TraceBranchAsWritten | hysteria_ticket/ui.py:63-75 | The trace as written: a collection is planned iff the file is missing or its creation time is more than twelve hours after now. It is of the given branch into the given file. |
| LegacyUi.SolutionOf | hysteria_ticket/ui.py:114-117 | The double-colour-ball path maps to the `ssq` trace with `.ssq`, and the super-lotto path to `dlt` with `.dlt`. Any other path is a `KeyError`. |
| LegacyUi.SolutionBranchMatchesExtension | hysteria_ticket/ui.py:114-117 | Each solution's branch is the one its extension names in the newer package. |
| LegacyUi.MenuGetHistory | hysteria_ticket/ui.py:124-137 | It fails with `KeyError` for an unknown path, or with `ValueError` from the term scan. Otherwise it returns the plan of the solution's trace as written, and the term pair. |
| LegacyUi.SsqMenuPlansSsq | hysteria_ticket/ui.py:124-130 | The double-colour-ball menu plans an `ssq` collection into its own file exactly when the written test fires. |
| LegacyUi.MenuKeepsPastFiles | hysteria_ticket/ui.py:64-68 | The menu keeps any existing history file whose creation time is at most twelve hours after now, so a past file is never collected again. |
| LegacyUi.DayOldHistoryMenu | hysteria_ticket/ui.py:124-130 | The double-colour-ball file created a day ago, with an empty cache listing: the menu keeps it and offers (0, 1). The corrected trace would collect it. |
| Text.SplitJoin | hysterical_ticket/component/fns.py:85 | Joining the pieces of a split gives back the text. |
| Text.RemoveAllIsConcatOfSplit | hysterical_ticket/component/collector.py:152 | Removing every dot is concatenating the pieces of a split on dots. |
| Text.NonEmptyAppend | hysterical_ticket/component/bingo_ssq.py:98 | Filtering out empty lines keeps order and repeats: the filter of a concatenation is the concatenation of the filters. |
| Pipeline.CsvDataLines | hysterical_ticket/component/bingo_ssq.py:97-98 | The reader applied to a CSV file's lines after the header gives back the data rows, when the reader inverts the writer on them. |
| Pipeline.SavedHistoryScored | hysterical_ticket/component/bingo_ssq.py:96-113 | Scoring the file `save_history` wrote is scoring the collected rows, header dropped, in the collector's order, when the reader inverts the writer. |
| Pipeline.SavedHistoryOrder | hysterical_ticket/component/bingo_ssq.py:100-113 | In the scores of a saved history, item j * \|tickets\| + i is ticket i scored against collected row j with that row's term. |
| Pipeline.MissingHistoryFails | hysterical_ticket/component/bingo_ssq.py:97 | With no history saved yet, scoring yields nothing and fails with `FileNotFoundError`. |
| Text.StripIdempotent | hysterical_ticket/component/collector.py:99 | Stripping twice is stripping once. |
| Numerals.NatToStringParses | hysterical_ticket/ui.py:34 | `int(str(n))` is n for every natural n. |
| Numerals.IntToStringParses | hysterical_ticket/ui.py:122 | `int(str(i))` is i for every integer i. |
| Order.StrictlySortedUnique | hysterical_ticket/component/fns.py:109 | Two strictly ascending lists with the same elements are equal. |

## Left out

- The network: `httpx` and `requests` calls become reply parameters.
  - A transport failure is a reply `Err(Unavailable)`.
  - A reply with any status is a page, since neither collector checks the status.
  - `res.url` after redirects is the `url` field of the reply.
- HTML: BeautifulSoup is reduced to the lookups made. `Page` has the term input and the `td` texts per `tr`; `KillPage` has the `tr` texts of the first `tbody`.
- CSV and JSON text:
  - The files written hold `Records` (rows) and `Document` (a JSON value) rather than their text.
  - `trace_results` and the kill-number loader read through a line decoder and a JSON reader given as parameters. The file's text is what a `readText` parameter renders from the stored content.
  - The sidecar's JSON formatting (indentation, `ensure_ascii`) is not modelled.
  - JSON numbers are integers only. The floats `json.loads` can return are not modelled; no field the program reads holds one.
- Pipeline.SavedHistoryScored: holds only when the reader inverts the writer on the saved rows, and when no rendered row contains a newline. A field with an embedded newline, which `csv` would quote across lines, is not modelled.
- Fns.MetadataRoundTrip: holds only for a JSON reader that inverts the writer on the saved document.
- `int()` accepts surrounding whitespace (Python's whitespace set), an optional sign and ASCII digits. Underscores between digits and non-ASCII digits are not modelled.
- Time: `time.time()` and `st_ctime` are whole seconds passed as parameters.
- `os.listdir`: its order is unspecified, so the listing is a parameter, given after the trace has run.
- UI glue is not modelled:
  - `Toolkit.clean`, a float size sum and a directory deletion;
  - `reset_global_proxy`, which edits an environment variable;
  - `menu_main`, the easygui dialogs, `pyperclip`, `webbrowser`, `os.startfile`, `os.makedirs` and `mkdir`;
  - logging;
  - the prompt templates' `str.format`. `hysterical_ticket/component/prompts.py` is not part of this model.
- `asyncio.gather`: the two kill-number requests are recorded as sent together. A failure is reported for the first failing reply in list order.
- The older UI's collector (`hysteria_ticket.collector`) is not part of this model. `LegacyUi.TraceBranchAsWritten`, which the menu runs, returns the collection it would run as a `Plan` instead of running it. The corrected `LegacyUi.TraceBranch` is not used by the menu; it states the intended behaviour next to the as-written one.
- `trace_results`: a malformed row is not rejected, since the code has no field-count check. Results yielded before an empty row are not withdrawn.
- `hysteria/utils.py` (logging set-up) and `verifier.py` are not part of this model.
- SyncCollector.AgreesWithAsync: the CSV contents are compared only when the asynchronous collector's version note does not overwrite its own CSV path. The note's name would have to equal the CSV's name for that to happen.

## Findings

| source | as written | input that shows it | evidently intended | confidence | as-written member | corrected member |
|---|---|---|---|---|---|---|
| hysteria_ticket/ui.py:65 | refetch when `not output.exists() or output.stat().st_ctime - time.time() > 43200` (line 72 is the same) | an existing file created at time 0 and checked at time 86400: `0 - 86400 > 43200` is false, so the day-old file is never refetched | refetch when the file is missing or `time.time() - st_ctime > 43200`, like the newer collector's test, apart from a file exactly twelve hours old | high, not executed | LegacyUi.DayOldHistoryMenu | LegacyUi.TraceBranch |
