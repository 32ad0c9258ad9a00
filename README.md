# db_builder core, modelled in Dafny

This project models the data-processing core of the db_builder stock
database tools and proves properties of it.

- **Stock-to-index correlation** (`StockDownloader/src/utils/correlation_calculator.py`).
  - For one stock and one year, every trading day on which the stock has a
    change ranks every index by the distance between its change and the
    stock's change. The ranking is competition style: equal distances share
    a rank, and the next rank skips.
  - Each index's average rank over its valid days decides the year's
    closest index. That index is written to the stock's `index_<year>`
    column.
- **Annual-return similarity** (`stock_index_similarity.py`).
  - Each stock's and each index's return per calendar year is the change
    from its first to its last close.
  - For every year, the stock is matched to the index whose return is
    nearest. The matches are meant to be stored as the stock's `similar_indices`
    JSON column. The `StockInfo` mapping has no such column, so as written the
    commit stores nothing (see "## Findings").
- **SQL export** (`daily_update/export_data.py`). The rows of three daily
  tables are rendered as `INSERT` statements.
- **Hot-rank, ETF and download upserts.**
  - Sources: `daily_update/hot_rank_update.py`, `StockDownloader/src/services/etf_service.py`
    and `StockDownloader/src/tasks/download_hot_rank_task.py`.
  - Fetched rows are upserted into tables keyed by (code, date). Each save
    is one transaction.
  - The batch loops go on after one stock or ETF fails.
  - Fetching is wrapped in a retry with exponential back-off.

Database tables are Dafny maps or sequences that are passed in and returned.
The provider calls are parameters: functions from a code to what the call
returns. Store failures are injected as parameters:
- `failAt`: the index of the statement that raises;
- `failing`: the stocks whose own step raises;
- `aborted`: an error outside the per-stock step.

The loops of the source are methods with loop invariants. Each method is
proved equal to a specification function. The lemmas state what those
functions mean.

Modules:
- `Common`: Option, Result, `Abs`, and `Pick`, which chooses an element of a set.
- `Sums`: sums over sequences.
- `Selection`: Python's first-minimum selection.
- `KeyedTable`: upserts into a map, with their counts.
- `Decimal`: `str(int)`.
- `Models`: the shared records and stock selection.
- One module per core source file.

## Model

| member | source | states |
|---|---|---|
| Models.SelectedStocks | StockDownloader/src/utils/correlation_calculator.py:130-137 | a stock is visited exactly when it exists and either no symbol (or an empty one) is given or it is the named stock |
| Selection.FirstMin | StockDownloader/src/utils/correlation_calculator.py:113 | `min` by key over the symbols that have an average: none exactly when no symbol has one, otherwise the first position holding the least value |
| Selection.FirstMinUnique | StockDownloader/src/utils/correlation_calculator.py:113 | the first minimum is unique, so the winner is well defined |
| CorrelationCalculator.YearRows | StockDownloader/src/utils/correlation_calculator.py:27-35 | the stock's rows dated inside the year, and only those |
| CorrelationCalculator.Changes | StockDownloader/src/utils/correlation_calculator.py:44-48 | `stock_changes` has a date exactly when some row of that date has a change, and holds the change of the last such row |
| CorrelationCalculator.ValidDates | StockDownloader/src/utils/correlation_calculator.py:67 | the days iterated are the keys of `stock_changes`, each once |
| CorrelationCalculator.DayDiffs | StockDownloader/src/utils/correlation_calculator.py:74-81 | the day's differences are exactly the index rows with a change, each paired with the absolute difference between its change and the stock's, one per such row |
| CorrelationCalculator.InsertByDiff | StockDownloader/src/utils/correlation_calculator.py:88 | inserting keeps the list sorted by difference and adds exactly that entry |
| CorrelationCalculator.SortByDiff | StockDownloader/src/utils/correlation_calculator.py:88 | the sort by difference is sorted and a permutation of the day's differences |
| CorrelationCalculator.SortedRankIsPosition | StockDownloader/src/utils/correlation_calculator.py:91-98 | in sorted order, the first entry of a new difference gets rank position + 1 (`current_score = i + 1`) |
| CorrelationCalculator.RankBounds | StockDownloader/src/utils/correlation_calculator.py:91-98 | every rank lies between 1 and the number of valid indices that day |
| CorrelationCalculator.RankMonotone | StockDownloader/src/utils/correlation_calculator.py:91-98 | a later entry in sorted order never gets a smaller rank |
| CorrelationCalculator.RankExample | StockDownloader/src/utils/correlation_calculator.py:90-98 | distances 0.01, 0.02, 0.02, 0.05 get ranks 1, 2, 2, 4 |
| CorrelationCalculator.RankAtLeastOne | StockDownloader/src/utils/correlation_calculator.py:91 | no rank is below 1 |
| CorrelationCalculator.DayScoreSortInvariant | StockDownloader/src/utils/correlation_calculator.py:88-98 | an index's rank and count for a day do not depend on the order the day's rows came in |
| CorrelationCalculator.Averages | StockDownloader/src/utils/correlation_calculator.py:100-106 | one average per listed symbol, in listed order, present only for symbols with a valid day |
| CorrelationCalculator.BestOfIsFirstLowest | StockDownloader/src/utils/correlation_calculator.py:112-113 | the winner has a valid day, no index with a valid day has a lower average, and on a tie the winner is listed first |
| CorrelationCalculator.BestOfNone | StockDownloader/src/utils/correlation_calculator.py:100-110 | there is no winner exactly when no listed index has a valid day |
| CorrelationCalculator.CorrelationWinner | StockDownloader/src/utils/correlation_calculator.py:11-115 | the returned winner is a listed index of lowest average among those with valid days |
| CorrelationCalculator.CorrelationNoMatch | StockDownloader/src/utils/correlation_calculator.py:37-60 | `None, {}, {}` exactly when the stock has no row in the year, no row has a change, no index exists, or no index shares a valid day |
| CorrelationCalculator.ScoreAtLeastDays | StockDownloader/src/utils/correlation_calculator.py:91-97 | every index's total score is at least its valid-day count, and both are non-negative |
| CorrelationCalculator.ScoresOrderIndependent | StockDownloader/src/utils/correlation_calculator.py:67 | totals do not depend on the order in which the days are visited |
| CorrelationCalculator.ValidDayNeedsBothChanges | StockDownloader/src/utils/correlation_calculator.py:67-81 | a day counts for an index only when both the stock and that index have a change that day |
| CorrelationCalculator.DayCountIsRowCount | StockDownloader/src/utils/correlation_calculator.py:77-97 | an index is counted once for each of its rows with a change that day |
| CorrelationCalculator.AtMostOneRowPerKey | StockDownloader/src/utils/correlation_calculator.py:69-71 | with one row per (symbol, date), an index has at most one counted row a day |
| CorrelationCalculator.ValidDaysBounded | StockDownloader/src/utils/correlation_calculator.py:97 | an index's valid days never exceed the stock's valid days |
| CorrelationCalculator.CollectStockChanges | StockDownloader/src/utils/correlation_calculator.py:45-48 | the loop builds `stock_changes` and its key order |
| CorrelationCalculator.CollectDifferences | StockDownloader/src/utils/correlation_calculator.py:74-81 | the loop builds the day's differences |
| CorrelationCalculator.LoopRank | StockDownloader/src/utils/correlation_calculator.py:91-98 | the `current_score` / `prev_diff` update yields the competition rank of the entry |
| CorrelationCalculator.AccumulateDay | StockDownloader/src/utils/correlation_calculator.py:91-98 | the rank loop adds each index's rank and one valid day, and touches no other key |
| CorrelationCalculator.SelectBestIndex | StockDownloader/src/utils/correlation_calculator.py:100-113 | the averaging and `min` loop returns the first lowest-average index |
| CorrelationCalculator.ScoreDay | StockDownloader/src/utils/correlation_calculator.py:67-98 | one day adds that day's rank and count for every listed index |
| CorrelationCalculator.ScoreAllDays | StockDownloader/src/utils/correlation_calculator.py:63-98 | the day loop yields each index's total rank and valid-day count |
| CorrelationCalculator.CalculateCorrelationForStock | StockDownloader/src/utils/correlation_calculator.py:11-115 | the method returns the winner, scores and valid days that the specification defines, including every early `None` return |
| CorrelationCalculator.RefreshNothing | StockDownloader/src/utils/correlation_calculator.py:131-134 | a missing named stock leaves `stock_info` unchanged |
| CorrelationCalculator.UpdatedColumnsFrame | StockDownloader/src/utils/correlation_calculator.py:146-158 | a changed column is an existing `index_<year>` column of a requested past or current year, and it holds that year's non-empty winner |
| CorrelationCalculator.UpdatedColumnsWritten | StockDownloader/src/utils/correlation_calculator.py:146-158 | a requested, non-future column year with a non-empty winner ends up holding that winner |
| CorrelationCalculator.RefreshIndexColumns | StockDownloader/src/utils/correlation_calculator.py:146-158 | the year loop of one stock, proved against the column function above |
| CorrelationCalculator.RefreshStocks | StockDownloader/src/utils/correlation_calculator.py:144-191 | the stock loop refreshes, in order, the stocks before the first one whose turn raises, leaves every other row unchanged, and raises exactly when some stock's turn does |
| CorrelationCalculator.FirstFailing | StockDownloader/src/utils/correlation_calculator.py:144-191 | the position of the first stock whose turn raises: none before it raises, and it does unless it is the end |
| CorrelationCalculator.CorrelationRunOutcome | StockDownloader/src/utils/correlation_calculator.py:128-195 | the batch raises exactly when the stock query or some visited stock's turn raises; a row is refreshed exactly when its stock is visited before any failing one, and every other row keeps its values |
| CorrelationCalculator.CorrelationRunWithoutFailure | StockDownloader/src/utils/correlation_calculator.py:128-191 | when nothing raises, the batch refreshes exactly the selected stocks, whatever order the query yields them in |
| CorrelationCalculator.UpdateStockIndexCorrelation | StockDownloader/src/utils/correlation_calculator.py:118-195 | the batch with the default years 2020-2024, the stock selection, commits after each stock and the abort on the first exception |
| StockIndexSimilarity.StrLessTotal | stock_index_similarity.py:147 | the symbol order of `groupby` is a strict total order on strings |
| StockIndexSimilarity.SortedInsert | stock_index_similarity.py:147 | inserting a symbol keeps the order strict and adds exactly that symbol |
| StockIndexSimilarity.SymbolOrder | stock_index_similarity.py:141-148 | the index symbols are visited in sorted order, each once, and are exactly the symbols with rows |
| StockIndexSimilarity.Earliest | stock_index_similarity.py:80-83 | the first row after sorting by date is a row of the group dated no later than any other |
| StockIndexSimilarity.Latest | stock_index_similarity.py:80-84 | the last row after sorting by date is a row of the group dated no earlier than any other |
| StockIndexSimilarity.AnnualReturns | stock_index_similarity.py:76-90 | there is a return for a year exactly when some row falls in that year |
| StockIndexSimilarity.GroupReturn | stock_index_similarity.py:83-87 | a year's return is (last close − first close) / first close, or none when the first close is 0 |
| StockIndexSimilarity.AnnualReturnValue | stock_index_similarity.py:78-88 | the return stored for a year is the change from the year's earliest to its latest close |
| StockIndexSimilarity.SingleDayYearReturnsZero | stock_index_similarity.py:83-87 | a year with one trading day has return 0 |
| StockIndexSimilarity.AnnualReturnsNonEmpty | stock_index_similarity.py:175-179 | non-empty price data always has some annual return, so the second skip never fires after the first |
| StockIndexSimilarity.CalculateAnnualReturn | stock_index_similarity.py:59-90 | the group loop computes exactly the annual returns |
| StockIndexSimilarity.Distances | stock_index_similarity.py:110-112 | one distance per index, in visiting order: the absolute difference of the returns when both the stock and the index have a finite return for the year, and none otherwise |
| StockIndexSimilarity.NearestIndexIsClosest | stock_index_similarity.py:106-115 | the chosen index has the year and no index is nearer; on a tie the alphabetically first symbol wins (strict `<`) |
| StockIndexSimilarity.FindNearestForYear | stock_index_similarity.py:107-115 | the `min_diff` loop returns the nearest index |
| StockIndexSimilarity.SimilarIndicesKeys | stock_index_similarity.py:117-118 | the result has the key `str(year)` exactly for the years with a truthy nearest index, and maps it to that index |
| StockIndexSimilarity.AddSimilarYear | stock_index_similarity.py:106-118 | one year of the outer loop adds that year's entry |
| StockIndexSimilarity.FindMostSimilarIndex | stock_index_similarity.py:93-120 | the year loop builds the similar-indices map |
| StockIndexSimilarity.ReturnYears | stock_index_similarity.py:78 | a price series has a return for a year exactly when one of its rows falls in that year |
| StockIndexSimilarity.IndexReturnsCoverIndices | stock_index_similarity.py:146-148 | every index with rows has its returns, and those cover exactly its years |
| StockIndexSimilarity.ComputeIndexReturns | stock_index_similarity.py:141-148 | the grouping loop computes every index's annual returns in `groupby` order |
| StockIndexSimilarity.StockSimilarWritten | stock_index_similarity.py:162-186 | a stock without price rows is skipped; any other stock gets the similar indices of its annual returns |
| StockIndexSimilarity.SimilarityBatchRows | stock_index_similarity.py:151-201 | with `similar_indices` mapped: every row keeps its name and index columns; a row changes only when the stock is selected, has prices, does not fail and the batch is not rolled back, and then holds each year's nearest index |
| StockIndexSimilarity.SimilarityIsolation | stock_index_similarity.py:157-192 | another stock's failure does not change this stock's result |
| StockIndexSimilarity.RefreshSimilar | stock_index_similarity.py:162-186 | one stock's step, proved against its specification |
| StockIndexSimilarity.RefreshSimilarStocks | stock_index_similarity.py:157-192 | the stock loop refreshes exactly the selected stocks that do not fail |
| StockIndexSimilarity.UpdateStockSimilarIndices | stock_index_similarity.py:123-201 | with `similar_indices` mapped: the whole update, including selection and rollback |
| StockIndexSimilarity.SimilarityBatchAsWrittenSavesNothing | stock_index_similarity.py:185-195 | as written, the committed table equals the table before the batch, since the attribute set at line 186 is not a mapped column |
| StockIndexSimilarity.UnmappedColumnExample | stock_index_similarity.py:185-195 | one stock with one price row and one index priced the same day: the batch computes a `similar_indices` value, yet the stored table is unchanged |
| StockIndexSimilarity.UpdateStockSimilarIndicesAsWritten | stock_index_similarity.py:123-201 | the update as written stores exactly the table it started from |
| Decimal.NatToString | daily_update/export_data.py:124-125 | `str(n)` is a non-empty string of digits |
| Decimal.ParseIntToString | daily_update/export_data.py:124-125 | `str(n)` reads back as n, for every integer n |
| Decimal.IntToStringInjective | stock_index_similarity.py:118 | distinct years give distinct `str(year)` keys |
| ExportData.Escape | daily_update/export_data.py:129-130 | escaping adds one character per single quote |
| ExportData.UnescapeEscape | daily_update/export_data.py:129-130 | doubling quotes is undone by reading `''` as `'` |
| ExportData.EscapedQuotesPaired | daily_update/export_data.py:129-130 | every quote in the escaped text is next to another quote, so the literal cannot end early |
| ExportData.QuoteRoundTrip | daily_update/export_data.py:127-130 | a quoted literal reads back as the original text |
| ExportData.RenderValueReadsBack | daily_update/export_data.py:122-130 | text reads back as itself; an integer reads back as itself; for values whose float text is what `str()` of a float prints, exactly a null renders as NULL |
| ExportData.RenderValueAsWrittenAgrees | daily_update/export_data.py:122-130 | the code as written fails exactly on dates, text and other values, and otherwise renders as the corrected code does |
| ExportData.JoinLength | daily_update/export_data.py:132 | `", ".join` has the parts' length plus one separator per gap |
| ExportData.RowValues | daily_update/export_data.py:117-130 | one rendered value per column |
| ExportData.InsertLines | daily_update/export_data.py:115-134 | one `INSERT` statement per row |
| ExportData.BuildValues | daily_update/export_data.py:117-130 | the column loop renders each value in column order |
| ExportData.TableExportLines | daily_update/export_data.py:115-134 | statement i lists every column and renders cell (i, k) as the k-th value |
| ExportData.WriteInserts | daily_update/export_data.py:115-134 | the row loop writes exactly the statements of the rows |
| ExportData.ExportTable | daily_update/export_data.py:103-141 | the export succeeds exactly when the query succeeds; no rows or no columns write only a notice |
| ExportData.RowValuesAsWrittenFails | daily_update/export_data.py:126 | one failing value fails the row as written |
| ExportData.AsWrittenLinesFail | daily_update/export_data.py:126 | one failing value fails the table's statements as written |
| ExportData.NameErrorFailsExport | daily_update/export_data.py:126-141 | a table with a text cell fails as written and exports after correction |
| ExportData.NameErrorExample | daily_update/export_data.py:126 | a `daily_stock` row with symbol "000001" fails as written and exports after correction |
| ExportData.ExportAll | daily_update/export_data.py:172-186 | with the corrected serialiser: all three tables are exported, and success means every table exported |
| ExportData.RunExport | daily_update/export_data.py:147-209 | with the corrected serialiser: days ≤ 0, or a start date whose subtraction overflows, exits with status 1 before exporting; otherwise the status is 0 exactly when every table exported |
| ExportData.RowValuesAsWrittenOk | daily_update/export_data.py:117-130 | a row of None, numbers and datetimes renders as written |
| ExportData.AsWrittenLinesOk | daily_update/export_data.py:115-134 | rows of None, numbers and datetimes write all their statements as written |
| ExportData.TableExportAsWrittenSucceeds | daily_update/export_data.py:103-141 | as written, a table's export succeeds exactly when its query succeeds and no cell is a date, text or other value |
| ExportData.BuildValuesAsWritten | daily_update/export_data.py:117-130 | the value loop as written renders in column order and stops at the first value that raises |
| ExportData.AsWrittenLinesStop | daily_update/export_data.py:115-141 | once a row raises, the later rows write nothing |
| ExportData.WriteInsertsAsWritten | daily_update/export_data.py:115-134 | the row loop as written writes the statements of the rows before the first one that raises |
| ExportData.ExportTableAsWritten | daily_update/export_data.py:103-141 | `export_table_data` as written, proved against its specification |
| ExportData.ExportAllAsWritten | daily_update/export_data.py:172-186 | as written, every table is exported, and success means every query succeeded and no table holds a date, text or other cell |
| ExportData.RunExportAsWritten | daily_update/export_data.py:147-209 | as written, days ≤ 0 or an overflowing start date exits with status 1 before exporting; a table holding a text cell (any non-empty daily table) makes the status 1 |
| KeyedTable.UpsertedFrame | daily_update/hot_rank_update.py:269-316 | an upsert adds exactly the new keys and leaves every other row as it was |
| KeyedTable.UpsertedLastWins | daily_update/hot_rank_update.py:269-316 | the last pair of a key decides that key's row |
| KeyedTable.InsertCountIsGrowth | daily_update/hot_rank_update.py:269-316 | the table grows by the inserts, which are at most the number of pairs |
| HotRankUpdate.RetriedMeaning | daily_update/hot_rank_update.py:68-78 | at most `max_retries` calls, all failing except possibly the last; the first success is returned; the call raises only after `max_retries` failures; nothing is called (None) when `max_retries ≤ 0` |
| HotRankUpdate.RetryWithDelay | daily_update/hot_rank_update.py:57-92 | the wrapper's loop returns what the specification defines, waiting once between consecutive calls, with the i-th wait equal to the doubled delay plus jitter |
| HotRankUpdate.BackOffStep | daily_update/hot_rank_update.py:80-89 | the wait is the delay plus jitter times the delay, and the delay doubles each retry |
| HotRankUpdate.WaitBounds | daily_update/hot_rank_update.py:81-82 | each wait lies between 1.1 and 1.5 times the current delay |
| HotRankUpdate.HotRankSymbolProperties | daily_update/hot_rank_update.py:146-148 | a `BJ` code (any case) becomes `SZ` plus its remainder, the length is kept, other codes pass unchanged, and the rewrite is idempotent |
| HotRankUpdate.SlicePrefix | daily_update/hot_rank_update.py:343-349 | a Python prefix slice is a prefix of the list |
| HotRankUpdate.CodesToUpdateBound | daily_update/hot_rank_update.py:339-349 | with a positive `max_stocks` the codes are the first `max_stocks` of the given codes (of the stock list when none are given, all when fewer); without a limit they are all of them |
| HotRankUpdate.SaveHotRankCounts | daily_update/hot_rank_update.py:253-322 | a save is skipped for a non-frame or empty frame and is all or nothing; updates plus inserts equal the rows, and the table grows by the inserts |
| HotRankUpdate.UpsertedRows | daily_update/hot_rank_update.py:269-316 | each row lands under (code, its date), the last row of a date winning, and other codes are untouched |
| HotRankUpdate.UpsertRows | daily_update/hot_rank_update.py:269-316 | the row loop raises exactly when a date fails to parse or a statement fails, and otherwise upserts with its counts |
| HotRankUpdate.SaveHotRankToDb | daily_update/hot_rank_update.py:243-322 | the save, proved against its specification |
| HotRankUpdate.RefreshCodesFrame | daily_update/hot_rank_update.py:354-367 | no row is dropped, and only rows of visited codes change |
| HotRankUpdate.RefreshCodesIsolation | daily_update/hot_rank_update.py:364-367 | a code whose save raises leaves the table as the earlier codes made it |
| HotRankUpdate.UpdateHotRankData | daily_update/hot_rank_update.py:324-372 | raises only when neither codes nor a stock list is available; otherwise refreshes the selected codes in order |
| EtfService.SaveEtfListEffect | StockDownloader/src/services/etf_service.py:91-122 | a list save is all or nothing; a listed symbol gets its last listed name, exactly the listed symbols are added, and other ETFs are unchanged |
| EtfService.SaveEtfListToDb | StockDownloader/src/services/etf_service.py:104-122 | the list loop, proved against its specification |
| EtfService.DailyPairsMeaning | StockDownloader/src/services/etf_service.py:141-150 | one (symbol, date) entry per row with a parseable date; rows with an unparseable date are skipped |
| EtfService.SaveEtfDailyEffect | StockDownloader/src/services/etf_service.py:124-188 | a daily save is all or nothing; updated plus inserted equals the rows with a valid date; the table grows by the inserts; only this symbol's keys change, each to the bar of a row of that date |
| EtfService.UpsertedWritesPairs | StockDownloader/src/services/etf_service.py:150-181 | every row an upsert changes holds the value of one of its pairs |
| EtfService.UpsertDailyRows | StockDownloader/src/services/etf_service.py:141-181 | the row loop with its skip and its two counters |
| EtfService.SaveEtfDailyDataToDb | StockDownloader/src/services/etf_service.py:124-188 | the daily save, proved against its specification |
| EtfService.RefreshEtfsFrame | StockDownloader/src/services/etf_service.py:206-218 | no bar is dropped, and only bars of listed ETFs change |
| EtfService.RefreshEtfsIsolation | StockDownloader/src/services/etf_service.py:209-218 | an ETF whose fetch or save raises leaves the table as the earlier ETFs made it |
| EtfService.UpdateEtfData | StockDownloader/src/services/etf_service.py:190-223 | false exactly when fetching or saving the list fails, with nothing changed; otherwise the list is saved and every ETF refreshed in order |
| DownloadHotRankTask.RowsToSave | StockDownloader/src/tasks/download_hot_rank_task.py:32-50 | the rows go on to be saved only when the result is a non-empty list or a non-empty frame |
| DownloadHotRankTask.DownloadDispatch | StockDownloader/src/tasks/download_hot_rank_task.py:27-89 | nothing is written exactly for None, an empty list, an empty frame or an unknown type; a raising fetch, date or statement also writes nothing; a list is saved like a frame |
| DownloadHotRankTask.DownloadSaves | StockDownloader/src/tasks/download_hot_rank_task.py:55-84 | a save upserts each row under (code, its date), the last row of a date winning; other codes are untouched; updates plus inserts equal the rows |
| DownloadHotRankTask.DownloadHotRankData | StockDownloader/src/tasks/download_hot_rank_task.py:20-89 | the task for one stock, proved against its specification |
| DownloadHotRankTask.DownloadCodesFrame | StockDownloader/src/tasks/download_hot_rank_task.py:111-125 | no row is dropped; rows of empty or unvisited codes are unchanged |
| DownloadHotRankTask.DownloadCodesIsolation | StockDownloader/src/tasks/download_hot_rank_task.py:112-125 | an empty code, or a code whose download raises, leaves the table as the earlier codes made it |
| DownloadHotRankTask.DownloadAll | StockDownloader/src/tasks/download_hot_rank_task.py:91-130 | the task raises exactly when fetching the stock list raises; a raising, missing or empty list writes nothing |
| DownloadHotRankTask.DownloadAllHotRankData | StockDownloader/src/tasks/download_hot_rank_task.py:91-130 | the stock-list fetch is re-raised; a missing or empty stock list does nothing; otherwise each non-empty code is downloaded in order |

## Left out

- Database access is not modelled: sessions, queries, commits and the DDL of `add_similar_indices_column` (stock_index_similarity.py:134). Tables are maps or sequences passed in and returned. A store failure is a parameter.
- Provider calls and pandas shapes are not modelled: akshare, `get_stock_list`, `fetch_etf_list`, `fetch_etf_daily_data`, and the column remapping in `get_stock_hot_rank` (daily_update/hot_rank_update.py:164-237). What a call returns is a parameter, after `pd.to_datetime` / `strptime` has produced a date or no date.
- `get_stock_hot_rank` itself is left out for the same reason. Only its `BJ` → `SZ` symbol rewrite is modelled (HotRankSymbol).
- Clocks, sleeps and randomness are parameters: `datetime.now()` becomes `currentYear` and the export's start date, which is `None` when `end_date - timedelta(days=days)` overflows (export_data.py:160-161); that error is modelled, while a failing `os.makedirs` is not. `random.uniform` jitter is a function of the retry index. `time.sleep` between stocks is not modelled.
- Floating point is modelled as exact `real`: IEEE rounding, `round(x, 4)` on the ratios, and `float('inf')`. A non-finite annual return (first close 0) is `None`. A NaN from pandas is not modelled: in the export, a SQL NULL in a numeric column reaches the serialiser as NaN and is written as `nan`, not `NULL`.
- JSON and file output are not modelled. `similar_indices` is the map passed to `json.dumps`; its key order is not kept. Export files are modelled as their statement lines; the header comments with the export time are left out.
- Logging and printing are not modelled, including the score table that `update_stock_index_correlation` prints when run as a script.
- Concurrency is not modelled: server.py runs these jobs in threads, and the code itself is sequential.
- SQLAlchemy session state after an error is not modelled. Examples are a session left unusable after a failed flush inside the similarity loop, and the autoflush that makes an earlier row of the same key visible to a later lookup. The model treats each raising stock as skipped and sees earlier rows (Upserted).
- The wide `DerivedIndex` schema is left out. A `stock_info` row keeps the symbol (its key), `name` and the `index_2020` … `index_2024` columns that StockDownloader/src/database/models/info.py:6-18 maps, plus a `similar_indices` value that the mapping lacks (see the next lines).
- DataFrames with rows but no columns (an empty frame in pandas) are not separate inputs in the hot-rank modules. A frame is its list of rows.
- CorrelationCalculator.CalculateCorrelationForStock requires every index row's symbol to be listed. The listed symbols are the distinct symbols of the same table, so this always holds; without it, `index_scores[symbol]` would raise `KeyError`.
- CorrelationCalculator.UpdateStockIndexCorrelation: which database call raises is a parameter (`queryFails` for the stock query, `failing` for the stocks whose queries or commit raise). There is no `try` around a stock in `update_stock_index_correlation` (correlation_calculator.py:144-191), so the first exception ends the batch: stocks committed before it keep their changes and the failing stock's uncommitted columns are discarded when the session closes.
- HotRankUpdate.HotRankSymbol handles ASCII codes only: Python's `upper()` also turns a few non-ASCII letters (such as U+01F0) into "J" plus a combining mark, which the model does not do.
- ExportData.RenderValueReadsBack assumes a float's text is what `str()` of a float prints (digits, sign, point, exponent, `nan`, `inf`).
- etf_service.py:17 imports `ETFInfo` from `models/info.py`, which defines only `StockInfo` and `IndexInfo`, so importing the module as shipped fails. The model follows the function bodies and assumes an `ETFInfo(symbol, name)` table exists.
- StockIndexSimilarity.SimilarityBatchRows describes the batch with a mapped `similar_indices` column. As written, `StockInfo` has no such column, so the stored table is unchanged (SimilarityBatchAsWritten).
- StockIndexSimilarity.UpdateStockSimilarIndices returns the session's rows as if `similar_indices` were mapped. UpdateStockSimilarIndicesAsWritten gives what the commit actually stores: the table as it was.
- The `download_all_hot_rank_data(max_stocks=10)` call under `__main__` passes a keyword the function does not accept. It is not modelled.
- In export_data.py:130, the f-string reuses its own quote character inside the braces. That is a syntax error before Python 3.12. The model assumes Python 3.12 or later.

## Findings

| source | as written | input that shows it | evidently intended | confidence | as-written member | corrected member |
|---|---|---|---|---|---|---|
| daily_update/export_data.py:126 | `isinstance(value, date)` names `date`, which the module never imports (line 13 imports only `datetime` and `timedelta`). Every value that is not None, int, float or datetime raises `NameError`, and the table's export returns False | a `daily_stock` query returning one row with column `symbol` = "000001" | date values are quoted, and text values fall through to the quoted, escaped branch | not executed | ExportData.NameErrorExample | ExportData.ExportTable |
| stock_index_similarity.py:186 | `stock_info.similar_indices = json.dumps(...)` sets an attribute that `StockInfo` (models/info.py:6-18) does not map, so the session does not track it and `db.commit()` at line 195 stores nothing, although `add_similar_indices_column` creates the column | one selected stock with one price row, and one index with a row on the same day | each refreshed stock's `similar_indices` column holds its nearest index per year, as the module docstring (lines 2-5) says | not executed | StockIndexSimilarity.UnmappedColumnExample | StockIndexSimilarity.SimilarityBatchRows |
