# Preferred-stock screener: a verified model of its decision logic

This project models the decision logic of a small screener for exchange-listed preferred
stocks and proves properties of it in Dafny. The screener's four parts are modelled as
follows.

- **Ticker spellings** (`logic.py`). A user-facing ticker `BASE-SUF` is rewritten as
  `BASE-PSUF` for the market-data provider and as `BASE/PSUF` for the charting site
  (module `Tickers`).
- **Two bar screens and their scan loops** (`logic.py`).
  - The range-compression screen `fetch_and_process` keeps a ticker whose three-month
    range is at most 1.00 while its bars move by at least 0.10 a day on average. It also
    attaches a "Short" label (module `SpreadScreen`).
  - The wick-imbalance screen `fetch_imbalance` counts green bars with small lower wicks
    and red bars with small upper wicks. It downloads symbols in chunks of ten
    (module `ImbalanceScreen`).
  - Both loops report progress and stop when the callback answers STOP. The provider is
    a function from symbol to rows, or to none when the call raises. The callback is an
    oracle indexed by the report's ordinal (modules `Bars` and `Progress`).
- **Holdings-to-series resolution** (`analyze_pff_prefs.py`, `resolve_pff_tickers.py`).
  - The master list of base tickers (module `MasterList`).
  - The company-name suffix cutter (module `CompanyName`).
  - The series resolver: CUSIP table and cache, then weight/price fingerprints, then
    " SERIES X" in the name, then ABR price bands, then the base ticker (module `Series`).
  - The per-base grouping of holdings rows and the header-line search (module `Holdings`).
  - The flattening of the groups into rows sorted by weight (module `HoldingsExport`).
  - The closest-price match of holdings rows against the master list (module `PffResolve`).
- **Watchlist bookkeeping** (`app.py`). The cache a refresh fills from the ticker file,
  with its 24-hour skip rule, its status transitions, the "new" marks and the guard
  against a second refresh. Also the job records of the spread finder (module `Watchlist`).

Python `str` operations are modelled in module `Text`: `strip`, `upper`, `split`, `in`,
`startswith`, `endswith`, `replace`, `zfill` and `float`, plus the comma-or-newline list
idiom. `Option` and `Result` are in module `Wrappers`.

Prices are exact `real`s, so thresholds such as 1.00, 0.10, 0.051 and the slack 0.00001
compare exactly. Each loop of the program is a method. The method is proved equal to a
fold function, and the lemmas state what the fold means.

Two facts about `parse_ticker_yf` and its chart twin are easy to miss:

- A rewritten ticker is exactly one character longer than the original. The dash is kept
  or turned into `/`, and one `P` is inserted (`Tickers.ChartMirrorsProvider`).
- The `P` is inserted before multi-letter suffixes too: `BAC-PL` becomes `BAC-PPL`
  (`Tickers.ExampleTwoLetters`).

## Model

| member | source | states |
|---|---|---|
| Tickers.ProviderSymbolRule | logic.py:13-19 | A ticker with exactly one dash becomes the part before the dash, then `-P`, then the part after it, whatever the suffix's length; every other ticker is returned unchanged |
| Tickers.ChartMirrorsProvider | logic.py:107-112 | The chart spelling differs from the provider spelling only at the dash, which becomes `/`; both rewrites add exactly one character; other tickers pass through both unchanged |
| Tickers.ExampleSingleLetter | logic.py:10-18 | `ABR-D` becomes `ABR-PD` for the provider and `ABR/PD` for the chart |
| Tickers.ExampleEmptySuffix | logic.py:13-18 | `ETI-` becomes `ETI-P` |
| Tickers.ExampleTwoLetters | logic.py:13-18 | `BAC-PL` becomes `BAC-PPL` |
| Tickers.ExampleTwoDashes | logic.py:13-19 | A ticker with two dashes is unchanged |
| Bars.Present | logic.py:189 | The rows that carry data: every bar kept, no other |
| Bars.PresentSnoc | logic.py:189 | One more row adds its bar at the end exactly when it carries data, so the bars keep the rows' order |
| Bars.PresentCount | logic.py:189 | There are as many bars as row positions that carry data |
| Bars.MaxHigh | logic.py:49 | `max(High)` bounds every bar's high and is attained |
| Bars.MinLow | logic.py:50 | `min(Low)` bounds every bar's low from below and is attained |
| Bars.Tail | logic.py:195 | `tail(days)` is the last `min(days, n)` bars, in order |
| Bars.MeanSpreadWithinBand | logic.py:45-50 | The mean daily spread is at most the width of any band holding every bar, so a match's average spread never exceeds its total range |
| SpreadScreen.ScreenMeaning | logic.py:40-88 | A ticker is skipped iff it has no data. It matches iff `max(High) - min(Low) <= 1.00` and `mean(High - Low) >= 0.10`, both bounds inclusive. The record carries both spellings and its band, and is "Short" iff at least 12 bars are red and every red bar has `High - Open <= 0.051`; otherwise it has no pattern |
| SpreadScreen.ScreenRecord | logic.py:63-88 | The record of a match: its min and max are the frame's, its spread is their difference, `0.10 <= avg <= spread <= 1.00`, and it has no "new" flag |
| SpreadScreen.ShortPatternMeaning | logic.py:66-76 | The Short pattern holds iff there are at least 12 red bars and no red bar's upper wick exceeds 0.051 |
| SpreadScreen.RedBars | logic.py:68 | The red bars are exactly the bars with close below open |
| SpreadScreen.RedBarsSnoc | logic.py:68 | One more bar is appended to the red bars exactly when it is red, so they keep the bars' order |
| SpreadScreen.RedBarsCount | logic.py:68-71 | The number of red bars, which the "Short" rule compares with 12, is the number of positions holding a red bar |
| SpreadScreen.FetchAndScreen | logic.py:29-42 | The fetch tries the provider spelling, then the raw spelling when that comes back empty; the outcome is `Failed` when a call raises and the screen of the frame otherwise |
| SpreadScreen.FetchAndProcess | logic.py:21-100 | The scan loop returns the records and progress reports of the fold `ScanSpread`, including the report of a ticker whose fetch raised |
| SpreadScreen.FailedFetchReports | logic.py:92-98 | A ticker whose fetch raises adds no record but still sends report `(i + 1, total)`, and the callback's answer to it decides whether the scan goes on |
| SpreadScreen.FailedFetchStops | logic.py:92-98 | With tickers `[A, B]`, A's fetch raising and STOP answered to the first report, the scan ends with no record and one report `(1, 2)`, and B is never screened |
| SpreadScreen.ScanIsPrefix | logic.py:25-98 | A scan processes a prefix of the list, and its records are those of that prefix in order. Either every report was answered "go on" and the prefix is the whole list, or the last report was the first answered STOP |
| SpreadScreen.ScanWithoutStop | logic.py:94-98 | With a callback that never says STOP, every ticker is screened |
| SpreadScreen.ReportsUpToShape | logic.py:25-98 | Progress values strictly increase, lie in `1..n` and carry the list's length as total. Ticker `k` sends report `k + 1` iff it was not skipped; there are no more records than reports and no more reports than tickers |
| SpreadScreen.ScanSpreadMeaning | logic.py:21-100 | At most one report per ticker and at most one record per report. Progress values strictly increase within the total. Every record names a listed ticker that passed the screen, with its spellings and no "new" flag |
| ImbalanceScreen.CountsDisjoint | logic.py:201-210 | No bar is both a qualifying green and a qualifying red bar, so the two counts together never exceed the number of bars |
| ImbalanceScreen.EvaluateMeaning | logic.py:189-226 | A frame yields a record iff at least 15 rows carry data and one count reaches its minimum. "Long" iff the green count reaches its minimum, "Short" only otherwise. Counts are over the last `days` bars and together are at most `min(days, bars)` |
| ImbalanceScreen.ProviderSymbols | logic.py:129 | The provider symbol of every ticker, in input order |
| ImbalanceScreen.TickerMapMeaning | logic.py:129 | The symbol map's keys are exactly the provider symbols, and each maps to a ticker with that symbol and none after it |
| ImbalanceScreen.LastTicker | logic.py:129 | A symbol maps to the last listed ticker with that provider symbol |
| ImbalanceScreen.SymbolList | logic.py:130 | The distinct provider symbols, no more of them than tickers |
| ImbalanceScreen.FetchImbalance | logic.py:114-240 | The chunked scan returns the records and reports of the fold `ImbalanceScan` |
| ImbalanceScreen.ScanChunks | logic.py:138-238 | The chunk loop equals the fold over chunks |
| ImbalanceScreen.ScreenChunk | logic.py:172-226 | The per-symbol loop of one downloaded chunk equals the fold over that chunk, and it reports whether STOP was answered |
| ImbalanceScreen.ChunkStepFailed | logic.py:231-238 | A chunk whose download fails counts all its symbols and adds no record; after the report `(i, total)` sent before the chunk it sends `(i + len(chunk), total)`, and the scan goes on whatever the callback answers to it |
| ImbalanceScreen.ScanOutcome | logic.py:132-240 | The records are those of the first evaluated symbols, in order. A STOP before a chunk leaves every counted symbol evaluated; a STOP after counting a symbol leaves that symbol unevaluated. Progress never goes back, never exceeds the total, and without STOP every symbol is evaluated |
| ImbalanceScreen.ImbalanceRecords | logic.py:129-226 | Counted symbols never exceed the tickers. No provider symbol gets two records. Each record is for the last listed ticker with its symbol, with both spellings |
| ImbalanceScreen.ScanCollects | logic.py:136-178 | A scan's records are those of the symbols it evaluated, and it counts no more symbols than there are tickers |
| MasterList.LoadMasterBases | analyze_pff_prefs.py:13-32 | No set when the ticker file is missing; otherwise the set of bases of its entries |
| MasterList.CollectBases | analyze_pff_prefs.py:26-30 | The set-building loop yields exactly the non-empty bases of the entries |
| MasterList.MasterBaseSetMeaning | analyze_pff_prefs.py:25-30 | Every member is a base: non-empty, stripped, upper case, no dash, comma or newline. It comes from some entry of the file, and every entry with a non-empty base contributes it |
| MasterList.BasesOfMeaning | analyze_pff_prefs.py:27-30 | A base is in the set iff it is the non-empty base of some entry |
| MasterList.ExampleLowerCase | analyze_pff_prefs.py:28 | `bac-q` contributes `BAC` |
| MasterList.ExampleSpaceBeforeDash | analyze_pff_prefs.py:28 | ` ETI-` contributes `ETI` |
| MasterList.ExampleLeadingDash | analyze_pff_prefs.py:28-29 | `-X` has an empty base and contributes nothing |
| CompanyName.ExtractCompanyName | analyze_pff_prefs.py:34-57 | The method with its suffix loop computes `CleanName` |
| CompanyName.CutEach | analyze_pff_prefs.py:53-55 | The suffix loop cuts each listed suffix the name ends with, in list order |
| CompanyName.CleanNameMeaning | analyze_pff_prefs.py:38-57 | An empty name gives "N/A", and any other name gives an upper-case result |
| CompanyName.CleanNameRemoves | analyze_pff_prefs.py:51-56 | What is kept before the final strip is a prefix of the upper-cased name, and the rest of the name is exactly the suffixes `Picks` selects, each at most once, in list order |
| CompanyName.PickedWhenFirst | analyze_pff_prefs.py:53-55 | The first listed suffix the name ends with is always picked, and the cutting goes on from the name without it |
| CompanyName.CutSuffixesDecomposition | analyze_pff_prefs.py:53-55 | Cutting only removes text from the end: the name is what is left followed by the suffixes that were cut |
| CompanyName.NoSuffixNoCut | analyze_pff_prefs.py:53-55 | A name ending with none of the suffixes is unchanged |
| Series.SeriesResolver.ResolveSeries | analyze_pff_prefs.py:83-129 | The resolver's method returns the series of `Resolve` and leaves the cache `Resolve` computes |
| Series.MatchFingerprint | analyze_pff_prefs.py:110-113 | The fingerprint loop returns the series of the first matching entry |
| Series.FirstFingerprintMeaning | analyze_pff_prefs.py:111-113 | No result iff no entry matches (same base, `abs(weight - w) < 0.02`, price within the range inclusive); otherwise the result is a matching entry's series, with no match before it |
| Series.FingerprintsExclusive | analyze_pff_prefs.py:70-78 | The table's entries are pairwise apart |
| Series.AtMostOneFingerprint | analyze_pff_prefs.py:70-78 | With the table as given, at most one entry matches any input, so the result does not depend on the table's order |
| Series.HeuristicMeaning | analyze_pff_prefs.py:109-129 | A matching fingerprint wins. Failing one, an alphabetic letter after " SERIES " gives `base-L`. Failing that, ABR gives ABR-F above 20, ABR-E above 17.52 and ABR-D otherwise. Any other base is returned as it is |
| Series.ResolvePriority | analyze_pff_prefs.py:87-129 | A CUSIP decides whatever the name, price and weight. One that pads to a table key gives that entry and leaves the cache alone. Without a CUSIP the heuristics decide on the normalised base and the upper-cased name, and the cache is untouched |
| Series.ResolveCacheGrows | analyze_pff_prefs.py:96-107 | Cached entries keep their values; the only entry a call can add is for the normalised CUSIP, holding the ticker returned |
| Series.ResolveReplay | analyze_pff_prefs.py:96-107 | Resolving again against the resulting cache gives the same answer without consulting the search |
| Series.FromSearchPlain | analyze_pff_prefs.py:99-104 | A searched symbol without "-P" is used as it is; no quote symbol falls back to the base |
| Series.ExampleProviderSymbol | analyze_pff_prefs.py:101 | The searched symbol `ABR-PF` becomes `ABR-F` |
| Series.ExampleShortCusip | analyze_pff_prefs.py:92-94 | `38923850`, missing its leading zero, still resolves to ABR-F |
| Series.BlankCusipSharesTicker | analyze_pff_prefs.py:91-107 | As written, once one blank-CUSIP row is resolved, every later blank-CUSIP row gets the same ticker |
| Series.BlankCusipExample | analyze_pff_prefs.py:91-107 | As written, a BAC "SERIES L" row followed by a WFC "SERIES L" row, both with blank CUSIPs, shows the WFC row as "BAC" |
| Series.BlankCusipFallsBack | analyze_pff_prefs.py:109-129 | Corrected: a blank CUSIP cell counts as no CUSIP, so the heuristics decide and the cache is untouched |
| Series.BlankCusipExampleCorrected | analyze_pff_prefs.py:115-121 | Corrected: the WFC row of that example resolves to WFC-L |
| Holdings.FindHeader | analyze_pff_prefs.py:151-155 | The index of the first line containing `Ticker,Name,Sector`, or 0 when there is none |
| Holdings.ParseAmountNumeral | analyze_pff_prefs.py:186-192 | A numeral cell reads as its value |
| Holdings.ParseAmountGrouped | analyze_pff_prefs.py:186-192 | A cell with a thousands comma, such as `1,250`, reads as the digits on both sides written together |
| Holdings.ParseAmountRejects | analyze_pff_prefs.py:186-194 | A `-` or `--` cell, which stays text when the table is read, does not read as a number |
| Holdings.AmountsOfNumerals | analyze_pff_prefs.py:185-192 | Three numeral cells give their three values as weight, market value and price |
| Holdings.AmountsOfGrouped | analyze_pff_prefs.py:185-192 | A market value with a thousands comma is read with the comma dropped |
| Holdings.AmountsOfUnreadable | analyze_pff_prefs.py:189-194 | One `-` or `--` cell among the three makes `float` raise, and all three amounts become 0.0 |
| Holdings.AnalyzeHoldings | analyze_pff_prefs.py:171-213 | The grouping loop's groups, base order, count and resolver cache equal the fold `Analyze`, with the CUSIP cell passed on as written (a blank cell as "nan") |
| Holdings.AnalyzeRow | analyze_pff_prefs.py:172-212 | One pass: a skipped row changes nothing; a kept row takes one fold step |
| Holdings.AppendRow | analyze_pff_prefs.py:185-212 | A kept row is resolved with its CUSIP cell as written and appended to its base's group; a new base's company name comes from this row |
| Holdings.StepBlankCusip | analyze_pff_prefs.py:174-199 | As written, a kept row with a blank CUSIP leaves a cache entry "000000nan" holding its entry's series, and a row that finds that entry already there gets the series an earlier blank row got |
| Holdings.AppendPref | analyze_pff_prefs.py:199-213 | Appending creates the group for a new base (named by the given company name), extends the base's entries by one, and increments the count |
| Holdings.AnalyzeWellFormed | analyze_pff_prefs.py:199-213 | Each base with a group is listed once. The processed count equals the number of appended entries and the number of kept rows |
| Holdings.AnalyzeGroups | analyze_pff_prefs.py:199-212 | A base has a group iff some kept row has that base. Its company name is the cleaned name of the first such row. Its entries record those rows one for one, in order: name and amounts, and the series when the CUSIP needs no search |
| Holdings.AnalyzeHoldingsMeaning | analyze_pff_prefs.py:171-213 | The three facts above for the analysis the program runs, whether the CUSIP cell is read as written or with a blank cell as none |
| Holdings.KeptRowsMeaning | analyze_pff_prefs.py:176-183 | A row is kept iff its ticker is neither `-` nor contains "Ticker", and a given master set contains its base |
| Holdings.MasterFilter | analyze_pff_prefs.py:182-183 | With a master set, even an empty one, no group has a base outside it; an empty set keeps nothing |
| Holdings.AnalyzeKeys | analyze_pff_prefs.py:199-203 | A base has a group iff some kept row has that base, whatever the resolution gives |
| Holdings.ResolvingRecords | analyze_pff_prefs.py:83-129 | Each row gets the series its CUSIP table entry or the heuristics call for, for either reading of the CUSIP cell |
| Holdings.NormalizeBase | analyze_pff_prefs.py:179 | A row's base is already normalised, so the resolver's own normalisation changes nothing |
| HoldingsExport.RowsOf | analyze_pff_prefs.py:227-237 | One output row per entry of the group, in order, with the base and company name |
| HoldingsExport.FlattenRows | analyze_pff_prefs.py:225-237 | The nested flattening loop yields the rows of `Flatten` |
| HoldingsExport.ExportResults | analyze_pff_prefs.py:219-246 | The export is `Export`: nothing for no rows, else the rows sorted by weight |
| HoldingsExport.SortByWeightMeaning | analyze_pff_prefs.py:246 | The sort orders the rows by non-increasing weight and is a permutation |
| HoldingsExport.FlattenCount | analyze_pff_prefs.py:226-237 | One output row per entry of the listed groups |
| HoldingsExport.FlattenMembers | analyze_pff_prefs.py:226-237 | Each output row is an entry of a listed group, under its base and company name |
| HoldingsExport.ExportMeaning | analyze_pff_prefs.py:219-246 | Nothing is exported iff no row was processed. Otherwise there is one output row per processed row, ordered by weight descending, and exactly the groups' rows |
| PffResolve.CleanPriceMeaning | resolve_pff_tickers.py:14-22 | A missing cell gives 0.0 and a numeric cell its own value; a numeral, with or without a leading `$`, gives its value |
| PffResolve.CleanPriceDigits | resolve_pff_tickers.py:17-20 | A cell of digits, or of `$` and digits, gives the digits' value |
| PffResolve.CleanPriceGrouped | resolve_pff_tickers.py:17-20 | A price with a thousands comma, such as `$1,234`, gives the digits on both sides written together |
| PffResolve.CleanPriceEmpty | resolve_pff_tickers.py:19-22 | An empty cell and `N/A` give 0.0 |
| PffResolve.CandidatesMeaning | resolve_pff_tickers.py:47-51 | The candidates are exactly the master rows whose ticker equals the base or starts with the base and a dash |
| PffResolve.CandidateExample | resolve_pff_tickers.py:49-51 | `JPM-A` and `JPM` are candidates of `JPM`; `JPMORGAN` is not |
| PffResolve.ClosestMeaning | resolve_pff_tickers.py:55-56 | The chosen candidate's price difference is minimal, and no earlier candidate attains it |
| PffResolve.ResolveRowMeaning | resolve_pff_tickers.py:41-60 | Only rows with candidates change, and only in series and company name. The series is a candidate of the base whose price is closest, and the company name is that master row's issuer |
| PffResolve.UpdateRows | resolve_pff_tickers.py:40-61 | The in-place loop replaces each row it counts by its update and leaves the others unchanged |
| PffResolve.ResolvePff | resolve_pff_tickers.py:40-61 | Each row is replaced in place by its resolution; the count is the number of rows with candidates |
| PffResolve.CountWhereMeaning | resolve_pff_tickers.py:61 | The resolved count is the number of row positions that have candidates |
| Text.SplitTickerList | app.py:72 | Every entry of a split list is non-empty, stripped, and free of `,` and newline |
| Text.ListRoundTrip | app.py:128 | A list of such entries, written with commas, splits back into the same list |
| Text.Dedup | app.py:73 | The distinct list has no duplicates, the same members, and is no longer |
| Text.DigitsValueAppend | analyze_pff_prefs.py:186-192 | The value of two runs of digits written together is the first's value shifted by the second's length plus the second's value |
| Watchlist.MarkNewMeaning | app.py:67-87 | A result is marked new iff its ticker is not among the previous results' tickers, otherwise not new; no other field changes |
| Watchlist.MarkNewIdempotent | app.py:83-87 | Marking twice against the same tickers is marking once |
| Watchlist.MarkNewInPlace | app.py:83-87 | The in-place marking loop sets each result's flag as `MarkNew` says |
| Watchlist.RefreshMeaning | app.py:52-99 | A skipped refresh changes nothing. An unreadable file leaves results, time stamps and total, with status error and progress 0. Otherwise the refresh completes at `now`, with total the number of distinct entries and progress within it. It has at most one record per entry, each record's ticker is an entry, and each record is new iff its ticker was not in the previous results |
| Watchlist.RefreshList | app.py:72-74 | The screened list holds each non-blank stripped entry of the file once |
| Watchlist.ForcedRefreshRuns | app.py:113-119 | A forced refresh always runs and ends completed or in error, with the new marked results or the old ones |
| Watchlist.PrefsCache.constructor | app.py:17-24 | The cache starts idle, with no results, time stamp 0, progress 0 and total 0 |
| Watchlist.PrefsCache.Begin | app.py:56-63 | A non-forced refresh with non-empty results less than 86400 s old changes nothing; otherwise status becomes processing and progress 0 |
| Watchlist.PrefsCache.Finish | app.py:65-99 | The new state is `Finished`: old tickers, split and distinct list, total, scan, last progress, marked results, completed with time stamps. An unreadable file gives status error only |
| Watchlist.PrefsCache.Refresh | app.py:52-99 | A refresh leaves the cache as `Refreshed` of the old cache |
| Watchlist.PrefsCache.RequestRefresh | app.py:113-119 | A request is rejected iff a refresh is processing, and then nothing changes; otherwise a forced refresh runs |
| Watchlist.JobMeaning | app.py:121-145 | Empty text creates no job. Otherwise a processing job at progress 0 is created, with total the number of entries and other jobs untouched. Once processed it is completed, with progress within its total, at most one record per entry, and each record for an entry |
| Watchlist.JobBoard.constructor | app.py:16 | No jobs at start |
| Watchlist.JobBoard.FindSpreads | app.py:121-137 | An error iff the text is empty; otherwise the job is recorded as `Submitted` says and its entries are returned |
| Watchlist.JobBoard.ProcessJob | app.py:139-145 | The job gets its scan's records, its last progress and status completed; an unknown job id changes nothing |

## Left out

- Network and library calls are parameters:
  - the provider's history and batch downloads;
  - the CUSIP search;
  - the pandas MultiIndex column extraction.
- File I/O is an input or left out:
  - CSV and Excel reading and writing;
  - the ticker file, given as its contents or as none when it cannot be read;
  - the JSON history load and save (app.py:26-50);
  - the `__main__` path selection.
- Logging, printing and `time.sleep` are left out.
- The current time (`time.time()`, `time.ctime()`) is an input.
- Threads, Flask routes and `uuid` are left out. A refresh and a job each run as one
  sequential call, and the job id is a parameter.
- Rounding of output fields (`round(..., 2)`, `round(..., 3)`) is not modelled: records
  carry the raw values.
- NaN mechanics are reduced to a per-row "no data" flag (`dropna`, `pd.isna`). A price
  cell that is a NaN number is modelled as a missing cell.
- String handling is simplified:
  - `upper` and `isalpha` are ASCII-only;
  - `float` reads plain decimals with an optional sign, but not exponents, `inf`, `nan` or
    underscores;
  - pandas' formatting of a numeric CUSIP cell (such as `38923850.0`) is not modelled:
    CUSIP cells are text.
- Holdings.AmountsOf: an empty or NA amount cell (`""`, `N/A` and pandas' other default NA
  strings) is NaN once the table is read. `str` turns it into `"nan"`, which `float` reads, so
  in the program only that amount is NaN and the other two keep their values. The model has no
  NaN reals and its `float` does not read `"nan"`, so such a cell, given as the text `"nan"`,
  sets all three amounts to 0.0. Its amount lemmas are therefore stated for cells that stay
  text, such as `-`.
- Watchlist.PrefsCache.Finish: `list(set(tickers))` has Python's hash order, which the
  program does not fix. The model screens the distinct entries in first-occurrence order,
  so its statements are about the set of entries and not their order.
- Watchlist.PrefsCache.Refresh: the progress values a concurrent reader could see during a
  run are not modelled; only the final progress is.
- Watchlist.PrefsCache.RequestRefresh: the guard is modelled, but the race between two
  requests that both pass it is not, since threads are left out.
- HoldingsExport.FlattenRows: `sorted(results.items())` flattens the groups in key order.
  The model flattens them in first-seen order. Because the weight sort follows, this changes
  only the order of rows of equal weight, which pandas' unstable default sort leaves
  unspecified anyway. `ExportMeaning` therefore states the weight order and the permutation,
  not a tie order.
- PffResolve.ClosestMeaning: `sort_values('diff').iloc[0]` may return any candidate with
  the minimal difference. The model picks the first such candidate in master-list order.
  The stated property (minimal difference) holds for every choice.
- The master-list `Current Price` column is cleaned like any other price cell
  (`CleanPrice`). The master Excel file itself is not modelled.
- Diagnostics and scrapers are not part of this model: spreadsheet generators, Selenium
  scrapers, the rate-limited deep resolver, and verification scripts that only print.

## Findings

| source | as written | input that shows it | evidently intended | confidence | as-written member | corrected member |
|---|---|---|---|---|---|---|
| analyze_pff_prefs.py:91-107 | A blank CUSIP cell (read at line 174) is NaN, which is truthy, so `if cusip:` takes the CUSIP branch with the key `str(nan).zfill(9)` = `000000nan`. The first such row caches its ticker under that key, and every later blank-CUSIP row gets the same ticker | A BAC row named "BAC SERIES L" and then a WFC row named "WFC SERIES L", both with blank CUSIPs, weight 0.5 and price 25, when the search for `000000nan` finds nothing: the WFC row is shown as "BAC" | A blank CUSIP means no CUSIP: the row falls back to the fingerprint and name heuristics, and the WFC row is "WFC-L" | not executed | Series.BlankCusipSharesTicker, Series.BlankCusipExample, Holdings.StepBlankCusip | Series.BlankCusipFallsBack, Series.BlankCusipExampleCorrected |

The grouping methods (`AnalyzeHoldings`, `AnalyzeRow`, `AppendRow`) pass the CUSIP cell on
as written, through `Delegated(search, CusipArgAsWritten)`. The grouping lemmas
(`AnalyzeHoldingsMeaning`, `ResolvingRecords`, `AnalyzeGroups`) hold for any reading of the
cell, so they also describe the corrected grouping `Delegated(search, CusipArg)`.
