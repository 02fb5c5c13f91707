# Transaction store and CSV upload API, modelled in Dafny

This project models the core of a small FastAPI service that loads e-commerce
transactions from a CSV upload into SQLite and answers per-user summaries.

- `app/db.py` is the store. It holds one table `transactions` keyed by
  `transaction_id`. `init_db` creates the table, or drops and recreates it.
  `insert_many` runs an INSERT OR IGNORE batch and returns the number of new
  rows. `query_summary` returns COUNT, MIN, MAX and AVG of the amount over
  one user's rows whose timestamp text lies within optional inclusive bounds.
- `app/main.py` holds the two endpoints.
  - `upload_csv` checks the file name and the header and resets the table.
    It then converts the body chunk by chunk and inserts each chunk, adding
    up the inserted counts.
  - `get_summary` rejects non-positive user ids. It turns the optional
    bounds into ISO text and maps the store's aggregates into the response.

Files:

- `common.dfy` holds `Option`.
- `text.dfy` holds `LexLe`. It is the order SQLite's default BINARY
  collation gives TEXT values. The file proves that `LexLe` is a total order.
- `db.dfy` holds the store.
  - The table is a `map<string, Row>`.
  - `InsertAll` specifies an INSERT OR IGNORE batch.
  - `Matching` specifies the WHERE clause.
  - `Summarises` specifies what COUNT/MIN/MAX/AVG return.
  - Class `TransactionStore` has the fields `tableExists` and `rows`. Its
    methods `InitDb`, `InsertMany` and `QuerySummary` are proved against
    those specifications.
- `api.dfy` holds the endpoints.
  - It has the name and header checks and the projection of body lines onto
    the five stored columns.
  - `Chunks` cuts the body into chunks and `IngestChunks` specifies the load.
  - `UploadCsv`, with its chunk loop `LoadChunks`, and `GetSummary` are the
    endpoint methods.
- `scenario.dfy` holds the sample of `tests/test_api.py` evaluated on the
  model.

The CSV tokeniser is not modelled: a body line arrives already split into
cells keyed by column name, or as a line the tokeniser rejects. The pandas
and dateutil conversions are function-typed parameters that either give a
value or fail. SQLite's "no such table" error (a store on which `init_db`
never ran) is modelled by the `tableExists` flag. Amounts are reals, so
AVG is exact.

## Model

| member | source | states |
|---|---|---|
| Text.LexLeReflexive | app/db.py:66-74 | every timestamp lies within `BETWEEN ts AND ts` |
| Text.LexLeTotal | app/db.py:66-74 | any two timestamp texts are comparable |
| Text.LexLeAntisymmetric | app/db.py:66-74 | two texts each at most the other are equal |
| Text.LexLeTransitive | app/db.py:66-74 | the text order is transitive |
| Text.LexLeFirstDifference | app/db.py:66-74 | texts that agree up to an index and differ there are ordered by the characters at that index, whatever their lengths |
| Db.InsertAllKeepsStored | app/db.py:45-50 | INSERT OR IGNORE never overwrites: every stored key keeps its row |
| Db.InsertAllKeys | app/db.py:45-50 | after a batch the keys are the old keys plus the batch's ids |
| Db.InsertAllKeyed | app/db.py:9-16 | every row stays under its own primary key |
| Db.InsertAllFirstWins | app/db.py:45-50 | an id not yet stored gets the first row of the batch that carries it |
| Db.InsertAllAppend | app/db.py:41-54 | inserting a + b equals inserting a, then b |
| Db.InsertAllStoredIds | app/db.py:45-50 | a batch whose ids are all stored changes nothing |
| Db.InsertAllIdempotent | app/db.py:41-54 | a repeated batch finds no new id and leaves the table unchanged |
| Db.InsertAllCount | app/db.py:50-54 | the table grows by the number of the batch's ids not yet stored, at most the batch length |
| Db.ReversedBoundsSelectNothing | app/db.py:66-68 | a start after the end selects no row, and is not rejected |
| Db.PointRange | app/db.py:66-68 | `BETWEEN ts AND ts` selects exactly the user's rows stamped ts |
| Db.SummaryOrdered | app/db.py:76-80 | over a non-empty selection, min <= avg <= max |
| Db.SummarisesUnique | app/db.py:76-82 | the selected rows determine the four aggregates |
| Db.SelectAggregates | app/db.py:76-82 | the one-pass scan returns COUNT, MIN, MAX and AVG = sum / count, and all-NULL but count 0 when nothing is selected |
| Db.TransactionStore.constructor | app/db.py:5-7 | a fresh database file has no `transactions` table |
| Db.TransactionStore.InitDb | app/db.py:29-38 | replace empties the table; otherwise CREATE IF NOT EXISTS keeps the rows; the table exists afterwards |
| Db.TransactionStore.InsertMany | app/db.py:41-54 | the table becomes the batch applied by INSERT OR IGNORE; the result is the number of new ids and the table grows by it; with no table it fails and changes nothing |
| Db.TransactionStore.QuerySummary | app/db.py:57-87 | with a table, the result summarises exactly the user's rows within the bounds; a None or empty bound does not constrain; a user id outside the signed 64-bit range fails to bind (OverflowError); the store is not changed |
| Api.IsCsvNameSuffix | app/main.py:18-19 | a name passes exactly when it ends in "." and c, s, v in either case |
| Api.Missing | app/main.py:28 | the missing list holds exactly the required columns not in the header, in required order; it is empty exactly when all are present |
| Api.MissingOnlyRequired | app/main.py:28 | the missing list depends only on which required columns the header has |
| Api.ExtraColumnsIgnored | app/main.py:28-30 | adding columns outside the required five never changes the missing list |
| Api.ProjectReadsRequiredOnly | app/main.py:47-50 | lines that agree on the five required cells give the same row |
| Api.ProjectChunkAt | app/main.py:47-50 | a converted chunk has one row per line, in line order; a failing line fails the chunk |
| Api.ProjectChunkAllLines | app/main.py:47-50 | a chunk whose every line converts converts |
| Api.ProjectChunkAppend | app/main.py:46-50 | converting a + b converts a and b and concatenates |
| Api.Chunks | app/main.py:42-46 | chunks are non-empty, hold at most `chunksize` lines, all but the last exactly that many, and together are the body |
| Api.IngestWholeBody | app/main.py:45-53 | a chunked load completes exactly when the whole body converts, and then carries its rows in order |
| Api.IngestAborted | app/main.py:45-53 | a failed load carries the rows of the chunks before the first failing chunk |
| Api.ChunkSizeIrrelevant | app/main.py:42-51 | the chunk size does not change whether a load completes, and, for a load that completes, which rows it inserts |
| Api.LoadChunks | app/main.py:42-55 | the table ends as the loaded rows inserted into the reset table; the response is the number of distinct ids loaded, or 500 when a chunk fails, with earlier chunks kept |
| Api.UploadCsv | app/main.py:15-55 | a bad name or header gives 400 before the store is touched; otherwise the table is reset and loaded, and the count is the number of distinct ids of the body |
| Api.GetSummary | app/main.py:58-81 | user id <= 0 gives 400; an unparsable non-empty bound gives 400; with no table, or a user id of 2^63 or more that sqlite3 cannot bind, 500; otherwise the response echoes the id and ISO bounds and summarises exactly the selected rows |
| Scenario.SampleLoad | tests/test_api.py:24-33 | the three sample rows are stored under their ids and are three distinct ids, so a load of these rows reports 3 |
| Scenario.SampleUserMatching | tests/test_api.py:35-39 | user 1 owns tx1 and tx2 |
| Scenario.SampleUserSummary | tests/test_api.py:35-42 | tx1 and tx2 summarise to count 2, min 50.0, max 100.0, mean 75.0 |
| Scenario.SampleUserResponse | tests/test_api.py:35-42 | any summary of user 1 over the sample table is count 2, min 50.0, max 100.0, mean 75.0 |
| Scenario.SampleUserRange | tests/test_api.py:44-45 | from 2024-09-02T00:00:00 to 2024-09-03T00:00:00 (unchanged by `isoformat`), user 1 owns only tx2 |
| Scenario.SampleUserRangeResponse | tests/test_api.py:44-49 | any summary of user 1 over that range is count 1 with min 50.0 (and max and mean 50.0) |
| Scenario.SampleNames | tests/test_api.py:52-55 | "sample.csv" passes the name check and "bad.txt" does not |
| Scenario.SampleHeader | tests/test_api.py:15-21 | a header of exactly the required columns is accepted |

## Left out

- FastAPI routing, the async read of the upload, the pydantic response classes and the text of error messages. Responses are datatypes carrying the status code or the fields.
- The CSV tokeniser, quoting and dtype inference of pandas, `parse_dates` with `isoformat`, `astype(float)`, and dateutil's `parse_date`. They are foreign code, modelled as the `Codecs` and `parseDate` parameters.
- NULL cells other than `product_id`. pandas reads a blank or NA cell as NaN, and SQLite stores NaN as NULL. OR IGNORE then silently skips a row with NULL `user_id` or `transaction_amount`. It stores a row with NULL `transaction_id`, since a TEXT primary key accepts NULL, and NULL keys never conflict, so every such row is stored and counted. The model has no NULL key: a codec either maps such a cell to a value or rejects it, and a rejected cell fails its chunk with 500. A codec that maps every blank id to one text collapses those rows into one key, where SQLite stores each of them.
- Db.TransactionStore.InsertMany: it has no 64-bit bind limit on `user_id` and `product_id`. In an upload, a codec that rejects a cell too large for SQLite's INTEGER gives the 500 that the source's OverflowError gives.
- Per-chunk type inference. pandas infers a column's dtype and the `parse_dates` format separately for each chunk, so the same cell can convert differently in different chunks (an id "007" becomes "7" in a chunk of numeric ids but stays "007" beside a non-numeric id). The `Codecs` convert a cell the same way in every chunk, so `Api.ChunkSizeIrrelevant` holds only for conversions that work cell by cell.
- Floating-point rounding of amounts and of AVG. Amounts are reals.
- The `rowcount == -1` fallback of `insert_many` (app/db.py:52). The driver reports the row count for `executemany`.
- The `if result` fallback of `query_summary` (app/db.py:85-87). An aggregate SELECT always returns one row, so the branch is unreachable.
- SQLite type affinity of the stored values.
- Connections, PRAGMAs, the `(user_id, timestamp)` index and the database path. They have no effect on results.
- Concurrent uploads and queries. Each endpoint runs to completion on one store.
- Full Unicode `str.lower()`. ASCII lowering decides `.endswith(".csv")` the same way, because no other character lowers to `.`, `c`, `s` or `v`.
- A `user_id` that is not an integer. FastAPI rejects it before `get_summary` runs.
- `generate_dummy.py`, which generates random test data.
