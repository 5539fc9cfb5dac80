# GDAX candlestick synchroniser, modelled in Dafny

This project models the gap-filling candlestick synchroniser of
`get_gdax_candlesticks.py`. For each market on the GDAX exchange, one run does
the following:

1. Reads the market catalog.
2. Makes sure a per-market table `gdax_<market>_candlesticks` exists.
3. Reads the table's newest and oldest timestamps (the watermarks).
4. Fetches three hours of one-minute candles after the newest watermark and
   three hours before the oldest.
5. Writes each fetched row with `REPLACE INTO`, keyed by the integer `time`
   primary key.
6. Counts the rows and reports the total and the number added.

The database is a class `Sync.Store` whose field `tables` maps each table name
to a table. A table is a `map<int, Candle>` from timestamp to the five stored
columns. Because the key is the map key, a table can never hold two rows with
the same timestamp. The loops of the source stay loops: `CheckTables`,
`InsertRows` and `LambdaHandler` are methods that update `tables` in place, and
`GetMarkets` builds its list by appending. `GetMarkets` is proved to return
`MarketIds`, and each method of `Store` is proved to leave the store equal to
a pure specification function of the old store (`Provisioned`, `MergeInto`,
`MarketStep`, `RunMarkets`, `Handler`). The lemmas state the properties of
those functions.

The collaborators are parameters:

- the exchange's historical-rate call is a function `fetch(market, start, end)`
  that yields `Some(rows)`, or `None` when the client call raises;
- the row counts that the reporting sink (Firebase) holds when the run starts
  form a function `counts(table)`. During the run each market reads the count
  as the run has left it: `update_firebase` writes each published total to the
  path that later reads of the same table use, so a market listed twice sees
  the total published on its first pass (`Sync.Recorded`);
- the clock reading `round(time.time())` is an integer `now`, the same for
  every market of a run;
- the table names whose `CREATE TABLE` would fail form a set `failing`.

A fetched row is a list of JSON scalars (`Field`: an integer, a real, or
anything else). A row is written when it has at least six fields and the first
six are numbers. A fractional time is rounded into the `bigint` key, halves away
from zero. Any other row raises inside the `try` of `insert_rows`, so it is
skipped.

An exception that `lambda_handler` does not catch ends the whole run. The
markets processed before it keep what was written for them. The model returns
such an exception as `failure` (`Wrappers.Error`). These exceptions are:

- a product without an `id`;
- a watermark or count query on a missing table;
- `MAX(time)` of an empty table, which is NULL and cannot be formatted;
- the `NameError` after a failed fetch.

Two places where the code departs from what it evidently intends are listed
under "## Findings". The parameter `Mode` selects between the code as written
(`AsWritten`) and the corrected behaviour (`Intended`). Every other part of the
model is the same in both modes.

The model follows these behaviours of the code:

- **Cold start.** With no recorded rows, both watermarks are `now`. The
  backward window is then the full `(now - 10800, now)`, not a window of zero
  width (`Watermarks.ColdStartWindows`).
- **Branch source.** The choice between querying the table and using `now`
  depends on the row count recorded in the reporting sink, not on the table
  itself.
- **Query failures.** A failing watermark query does not abandon just one
  market: it ends the run.
- **Missing tables.** A table whose creation failed is still used. Its inserts
  are skipped one by one, and its `COUNT(*)` then ends the run.
- **Failed fetches.** As written, a failed exchange call does not return an
  empty batch: it ends the run (first finding).

## Model

| member | source | states |
|---|---|---|
| Candles.ParseRow | get_gdax_candlesticks.py:144-156 | a row is written exactly when it has at least six fields and the first six are numbers; its key is field 0; fields after the sixth are ignored |
| Candles.RoundHalfAway | get_gdax_candlesticks.py:75-77 | a fractional time goes into the `bigint` key as the nearest integer, halves away from zero |
| MergeWriter.Upsert | get_gdax_candlesticks.py:145-156 | one REPLACE: a well-formed row sets its timestamp to its candle and leaves every other timestamp alone; a failing row changes nothing |
| MergeWriter.Merge | get_gdax_candlesticks.py:144-156 | the REPLACE loop over a batch never removes a timestamp |
| MergeWriter.MergeIsOverride | get_gdax_candlesticks.py:144-156 | merging a batch equals overriding the table with the batch's own rows: written timestamps take the batch's value, all others keep theirs |
| MergeWriter.MergeKeys | get_gdax_candlesticks.py:144-156 | the key set after a merge is the old key set plus the timestamps of the batch's well-formed rows |
| MergeWriter.MergeLastWriteWins | get_gdax_candlesticks.py:147-153 | a timestamp written by the batch holds the columns of the last well-formed row with that timestamp (REPLACE semantics) |
| MergeWriter.LastWriteExists | get_gdax_candlesticks.py:144-153 | every timestamp of the batch has such a last row, so the merged value of every written key is determined |
| MergeWriter.MergeKeepsUnwritten | get_gdax_candlesticks.py:144-156 | a timestamp not in the batch keeps its row, or stays absent |
| MergeWriter.MergeIdempotent | get_gdax_candlesticks.py:144-156 | merging the same batch twice gives the same table as merging it once |
| MergeWriter.MergeConcat | get_gdax_candlesticks.py:185-189 | the forward merge followed by the backward merge equals one merge of the concatenated batches |
| MergeWriter.FailedRowSkipped | get_gdax_candlesticks.py:155-156 | a row that fails to insert changes nothing; the rows around it are written as if it were absent |
| MergeWriter.MergeRowCount | get_gdax_candlesticks.py:144-156 | the row count never decreases and grows by at most one per fetched row |
| Naming.TableName | get_gdax_candlesticks.py:181 | the table name is `gdax_`, then the lower-cased market id, then `_candlesticks` |
| Naming.Like | get_gdax_candlesticks.py:70-73 | a pattern without `%` matches only names of its own length that agree with it at every position that is not `_` |
| Naming.Lower | get_gdax_candlesticks.py:70 | lower-casing keeps the length and lower-cases each character |
| Naming.TableNameSameIffLowerSame | get_gdax_candlesticks.py:181 | two markets address the same table if and only if their lower-cased identifiers are equal |
| Naming.TableNameIgnoresCase | get_gdax_candlesticks.py:181 | a market written in either case addresses the same table |
| Naming.LikeReflexive | get_gdax_candlesticks.py:70-73 | a table name matches itself as a LIKE pattern, so an existing table is always found |
| Naming.LikeUnderscore | get_gdax_candlesticks.py:70-73 | a pattern without `%` matches every equally long name that agrees with it except at its `_` positions |
| Watermarks.Newest | get_gdax_candlesticks.py:90-92 | `MAX(time)`: a stored timestamp no smaller than any other |
| Watermarks.Oldest | get_gdax_candlesticks.py:96-98 | `MIN(time)`: a stored timestamp no larger than any other |
| Watermarks.GetMarks | get_gdax_candlesticks.py:88-107 | a recorded count of 0 or less gives (now, now); otherwise a missing table or an empty one (NULL maximum) is an error, and an existing non-empty one always succeeds with its maximum and minimum timestamp |
| Watermarks.PlanWindows | get_gdax_candlesticks.py:109-118 | the forward window starts at the newest watermark, the backward window ends at the oldest, and each is exactly 10800 seconds wide |
| Watermarks.WindowsTouchStoredRangeAtEnds | get_gdax_candlesticks.py:88-118 | on the query path oldest <= newest, and a stored timestamp lies in the forward or backward window only if it is the newest or oldest watermark itself |
| Watermarks.ColdStartWindows | get_gdax_candlesticks.py:102-118 | with no recorded rows the windows are (now, now+10800) and (now-10800, now), whatever the table holds |
| Markets.MarketIds | get_gdax_candlesticks.py:124-129 | the ids of all products, in order and with the same count, or a KeyError if a product has no id |
| Markets.GetMarkets | get_gdax_candlesticks.py:124-129 | the append loop returns exactly `MarketIds`: the product ids in order and with the same count, failing exactly when some product lacks an id |
| Sync.TableFound | get_gdax_candlesticks.py:70-73 | an existing table is always found; with the exact-name probe a table is found exactly when it exists |
| Sync.ProvisionOne | get_gdax_candlesticks.py:69-83 | one probe-and-create step either leaves the store as it was or adds one empty table under the market's name, which was absent and whose creation does not fail; the table exists afterwards unless creation failed or, as written, the probe matched another table |
| Sync.Provisioned | get_gdax_candlesticks.py:68-83 | the probe-and-create loop removes no table, and every table it adds is empty |
| Sync.ProvisionOneKeepsExisting | get_gdax_candlesticks.py:69-83 | one probe-and-create step leaves every existing table and its rows untouched |
| Sync.ProvisionKeepsExisting | get_gdax_candlesticks.py:68-83 | provisioning leaves every existing table and its rows untouched |
| Sync.ProvisionCreatesOnlyMarketTables | get_gdax_candlesticks.py:68-83 | every new table is empty, named after a listed market, and not one whose creation failed |
| Sync.ProvisionCovers | get_gdax_candlesticks.py:68-83 | afterwards each market has its table unless creation failed or, as written, another table's name matched its LIKE pattern |
| Sync.IntendedProvisionCoversAll | get_gdax_candlesticks.py:68-83 | with an exact-name probe, every listed market has its table afterwards unless its creation failed |
| Sync.LikeProbeSkipsShadowedMarket | get_gdax_candlesticks.py:70-73 | as written, a market whose pattern matches another existing table gets no table; with the exact probe it gets one |
| Sync.LikeProbeSkipsNewMarket | get_gdax_candlesticks.py:70-73 | as written, an existing `gdax_x-y_candlesticks` table prevents the creation of `gdax_x_y_candlesticks` for market `X_Y` |
| Sync.Fetched | get_gdax_candlesticks.py:131-142 | a successful call hands on its rows; as written a failed call is a NameError, and in the intended design it is an empty batch |
| Sync.TotalRows | get_gdax_candlesticks.py:158-163 | `COUNT(*)` is the table's number of timestamps, and fails on a missing table |
| Sync.MergeInto | get_gdax_candlesticks.py:144-156 | the REPLACE loop creates no table, merges the rows into the named table if it exists, and leaves every other table unchanged |
| Sync.RowsAdded | get_gdax_candlesticks.py:165-168 | the logged delta added to the recorded count gives the new total; it is negative exactly when the table holds fewer rows than were recorded |
| Sync.MarketStep | get_gdax_candlesticks.py:180-192 | one market's step creates and drops no table, and its report names that market and its table |
| Sync.StepBatchFromExchange | get_gdax_candlesticks.py:183-189 | every row a step merges is one the exchange returned for that market: none when the watermarks or the forward fetch fail, the forward rows when only the backward fetch fails, both batches otherwise |
| Sync.MarketStepMerges | get_gdax_candlesticks.py:180-189 | one market's step leaves the store as the old store with that step's batch (`StepBatch`) merged into the market's table; forward rows stay committed when the backward fetch then fails |
| Sync.GrownKeepsRows | get_gdax_candlesticks.py:144-156 | a table grown by merged exchange rows keeps every timestamp it had and has at least as many rows |
| Sync.MergeIntoGrows | get_gdax_candlesticks.py:144-156 | merging rows the exchange returned for a table leaves every table as its old contents with such rows merged in |
| Sync.MarketStepCompletes | get_gdax_candlesticks.py:180-192 | when the table exists, the watermarks are read and both fetches return, the table becomes the old table merged with the forward and then the backward rows, and the report carries its new size and that size minus the recorded count |
| Sync.MarketStepFrame | get_gdax_candlesticks.py:180-189 | one market's step creates no table, changes no other table, and leaves its own table as the old table with rows the exchange returned for that market merged in |
| Sync.MarketStepReport | get_gdax_candlesticks.py:180-192 | the report names the market and its table, its total is the table's row count, and rows_added equals total minus the recorded count; when the recorded count was right, rows_added is the number of new timestamps and is not negative |
| Sync.RecordedIsLastPublished | get_gdax_candlesticks.py:170-182 | the count a market reads is the total last published for its table in this run, or the count held before the run when the table has not been published; a report for another table does not change it |
| Sync.RunMarkets | get_gdax_candlesticks.py:180-193 | the market loop creates and drops no table and publishes at most one report per market |
| Sync.RunMarketsSnoc | get_gdax_candlesticks.py:180-193 | one more market adds that market's step, run on the store and recorded counts the earlier markets left, unless the run has already ended |
| Sync.Handler | get_gdax_candlesticks.py:173-196 | a product without an id ends the run before any table is touched; otherwise no table is dropped |
| Sync.RunStopsAtFailure | get_gdax_candlesticks.py:173-196 | once a market has raised, later markets change nothing and add no report |
| Sync.RunReportCount | get_gdax_candlesticks.py:180-193 | a run has no failure if and only if every market is reported |
| Sync.RunReportsInOrder | get_gdax_candlesticks.py:180-193 | reports come in catalog order, each naming its market and that market's table |
| Sync.RunOnlyGrows | get_gdax_candlesticks.py:180-193 | a run leaves every table as its old contents with rows the exchange returned for that table's markets merged in, so no row is removed |
| Sync.RunLeavesOtherTables | get_gdax_candlesticks.py:180-193 | a table not named after any listed market is untouched |
| Sync.HandlerNeverLosesRows | get_gdax_candlesticks.py:173-196 | over a whole run, every existing table ends as its old contents with rows the exchange returned for it merged in; a new table belongs to a listed market and holds only rows the exchange returned for it |
| Sync.IntendedFetchNeverAborts | get_gdax_candlesticks.py:131-142 | in the intended design a failed fetch never ends the run |
| Sync.IntendedFailureIsEmptyBatch | get_gdax_candlesticks.py:131-142 | in the intended design a run with failed fetches equals the run in which those fetches returned no rows |
| Sync.AsWrittenFetchFailureEndsRun | get_gdax_candlesticks.py:139-141 | as written, when the first market's exchange call fails, the run ends with a NameError and no market is reported, even when later fetches would succeed |
| Sync.Store.constructor | get_gdax_candlesticks.py:174-175 | the store starts with the given tables |
| Sync.Store.CheckTables | get_gdax_candlesticks.py:68-83 | the probe-and-create loop leaves the store equal to `Provisioned` of the old store |
| Sync.Store.InsertRows | get_gdax_candlesticks.py:144-156 | the REPLACE loop leaves the named table equal to the old table merged with the rows, and changes nothing if the table is missing |
| Sync.Store.SyncMarket | get_gdax_candlesticks.py:180-192 | one pass of the market loop leaves the store and outcome that `MarketStep` gives for the old store |
| Sync.Store.SyncAll | get_gdax_candlesticks.py:180-193 | the market loop leaves the store, reports and failure that `RunMarkets` gives for the old store, stopping at the first exception |
| Sync.Store.LambdaHandler | get_gdax_candlesticks.py:173-196 | the whole run leaves the store, reports and failure that `Handler` gives for the old store |
| Scenarios.WarmTableStep | get_gdax_candlesticks.py:88-118 | rows at 1000, 2000 and 3000 with a count of 3 give watermarks (3000, 1000) and windows (3000, 13800) and (-9800, 1000); merging one row at each far end gives 5 rows, 2 added, and watermarks (13800, -9800) |
| Scenarios.ColdPassAddsCandle | get_gdax_candlesticks.py:180-192 | an empty table with no recorded rows gains the candle at `now`: 1 row, 1 added |
| Scenarios.WarmPassAddsNothing | get_gdax_candlesticks.py:180-192 | the same table with a recorded count of 1 is queried, fetches the same window and adds nothing |
| Scenarios.RepeatedMarketReadsPublishedCount | get_gdax_candlesticks.py:180-193 | a market listed twice reads on its second pass the total published on its first: the reports are (1 row, 1 added) and then (1 row, 0 added) |
| Scenarios.ColdTableStep | get_gdax_candlesticks.py:102-118 | an empty table at time 5000000 gives windows (5000000, 5010800) and (4989200, 5000000); empty fetches leave it empty with 0 rows added |

## Left out

- The MySQL connection, cursor, commits and `sys.exit` on a failed connect (lines 60-66, 194-195): the store is an in-memory value owned by `Store`.
- Firebase (lines 46-58, 170-171): the recorded count is the parameter `counts`. Publishing is the returned list of reports.
- A missing Firebase record, for which `get` returns None: this case is not modelled. Python 3 raises on `None > 0`, and `total_rows - None` raises in any version.
- The GDAX client (lines 120-142): `fetch` is a parameter. The real call receives ISO date strings. The model passes the window as integer seconds.
- `unix_to_iso` (lines 85-86): it depends on the local time zone. Windows stay integer seconds. The log lines are left out.
- `time.time()` and `time.sleep` (lines 103, 187, 193): the clock is the parameter `now`. Throttling has no effect on the store.
- Sync.RunMarkets: every market of a run sees the same `now`. The source reads the clock afresh for each market on the cold-start branch, after the sleeps of the markets before it, so later markets see a later time.
- `unix_to_iso` raises (OverflowError, ValueError or OSError) for a timestamp outside the platform's date range, which would end the run. The model plans windows for every integer watermark and does not model that failure.
- A failing Firebase `put` in `update_firebase` (line 171) raises and ends the run. The model always publishes the report.
- Watermarks.GetMarks: both queries see the same table, so newest and oldest come from one snapshot. Concurrent writers between the two queries are not modelled.
- Candles.ParseRow: strings that spell a number, booleans and the shape of an error response are treated as failing rows. The source formats these unquoted into SQL, where some of them would be accepted.
- Candles.RoundHalfAway: the rounding of values written with an exponent (approximate-value literals) and the range limits of `bigint` are not modelled.
- Candle values are stored as exact reals. The single-precision rounding of MySQL `float` columns is not modelled.
- Naming.Lower: only ASCII letters are lower-cased. Python's `str.lower` also lower-cases non-ASCII letters.
- Naming.Like: the `\` escape and case-insensitive table-name settings of MySQL are not modelled. Characters of a market id that would break the SQL quoting are not modelled either.
- get_gdax_live_orderbook.py, create_endpoint_with_sagemaker_model.py and get_tradingview_technicals.py are not part of this model. They cover websocket and floating-point order-book aggregation, cloud provisioning and browser scraping.

## Findings

| source | as written | input that shows it | evidently intended | confidence | as-written member | corrected member |
|---|---|---|---|---|---|---|
| get_gdax_candlesticks.py:133-142 | when the client call raises, `data` is never bound and line 141 raises NameError, which ends the whole run | a catalog of two markets whose first exchange call raises, with no recorded rows for the first | log the failure and continue with an empty batch, so that other markets are still synchronised | high; not executed | Sync.AsWrittenFetchFailureEndsRun | Sync.IntendedFailureIsEmptyBatch |
| get_gdax_candlesticks.py:70-73 | the existence probe `show tables like "<name>"` reads each `_` of the name as a one-character wildcard | an existing table `gdax_x-y_candlesticks` and a new market `X_Y` | probe for the exact table name, so that every new market gets its table | medium (exchange ids use `-`); not executed | Sync.LikeProbeSkipsNewMarket | Sync.IntendedProvisionCoversAll |
