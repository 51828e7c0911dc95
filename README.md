# Weather data loader and insight service — a verified model

The service has three parts, each modelled with its proofs:

1. **Bulk loading.** It loads hourly weather forecasts from `.csv` files into a document collection. There are two loaders:
   - chunk tasks at fixed row offsets (`app.py`);
   - a streaming loop that flushes a buffer of rows (`load_data.py`).
2. **Insight route.** For one location it says, for each forecast hour, whether a condition holds: `veryHot`, or `rainyAndCold`. The route is defined twice with the same logic (`app.py` asynchronously, `query_data.py` synchronously), and is modelled once.
3. **Shared data model.** Rows, columns, the directory listing, exceptions, responses, and the store.

The model is split into these modules:

- `WeatherData` (`weather_data.dfy`) — the shared data model:
  - A CSV data row is a `map<string, string>`, and a directory entry is a name with its parsed data rows (header excluded).
  - Python's exceptions are a `Result` datatype.
  - A route's reply is a `Response` datatype.
  - The collection is a class `Collection`:
    - `docs` holds the documents, which only ever grow.
    - `trace` logs the `Insert(batch)` and `CreateIndex(keys)` operations that took effect, in order.
    - The store itself decides which batches (`refused`) and which queries (`refusedQueries`) it refuses with `PyMongoError`, and whether it refuses to build the index (`refusesIndex`). A refused operation changes nothing.
- `Arith` (`arith.dfy`) — ceiling division and the division lemmas the counting proofs use.
- `ChunkReader` (`chunk_reader.dfy`) — the generator `read_csv_from_row` as a class `CsvRowGenerator`:
  - It is lazy and skips rows on the first `next()`.
  - Collecting at most `BUFFER_SIZE` rows is a loop with `break`.
  - The chunk task performs one `insert_many`.
- `LoadPlanner` (`load_planner.dfy`) — `generate_read_and_write_tasks`:
  - The offsets `0, B, 2B, …` below a row count `R` form a loop.
  - One task is made per offset and per `.csv` file.
  - Lemmas cover count, shape, disjointness and coverage.
  - The configured constants are checked as an instance.
- `BatchLoader` (`batch_loader.dfy`) — the buffer loop of `load_csvs_to_db`:
  - A file's batches are `Batches(rows, b)`.
  - A whole load is `AllBatches(files, b)`.
  - The loop is proved against both.
  - When the store refuses a batch, the loop stops, with a 500 reply.
  - The index is created after all inserts; a refused index also gives the 500 reply.
- `Insight` (`insight.dfy`) — `weather_insight`:
  - The two validations, in order.
  - The exact-match query.
  - The per-record evaluation: choice of precipitation field, then strict thresholds.
  - The response list built record by record.

The buffer size and the row count are parameters (`b >= 1`, `r`). The source's constants `BUFFER_SIZE = 100000` and `CSV_ROW_COUNT = 259201` are instances of them (`LoadPlanner.ConfiguredOffsets`).

- **Skipping past the end of a file raises.** In `read_csv_from_row` (app.py:45-46), the unguarded `next(reader)` lets `StopIteration` escape from the generator body while it skips rows. Since Python 3.7 (PEP 479) the caller then sees `RuntimeError`. The `except StopIteration` in `read_csv_and_write_to_db` does not catch that. So a chunk task whose start offset is greater than the file's row count fails. A task whose start offset equals the row count inserts an empty list. The model states both cases (`ChunkReader.CollectChunk`, `ChunkReader.ReadCsvAndWriteToDb`).

## Model

| member | source | states |
|---|---|---|
| WeatherData.CsvFiles | load_data.py:32 | the kept entries are exactly the listing's entries whose name ends in `.csv`, and there are never more of them than in the listing |
| WeatherData.CsvFilesAppend | load_data.py:32 | filtering two runs of a listing gives the kept entries of the first followed by those of the second, so listing order is kept |
| WeatherData.Select | query_data.py:33-34 | a document is found exactly when it is in the store and matches the query, and nothing more is found than is stored |
| WeatherData.SelectAppend | query_data.py:33-34 | the query result over two runs of documents is the result over the first followed by the result over the second, so store order is kept |
| WeatherData.SelectAll | query_data.py:33-34 | when every stored document matches, the query returns the whole store in store order |
| WeatherData.Collection.constructor | app.py:33-37 | a collection handle with the given refusal decisions for batches, queries and the index; it starts empty, which is a modelling convenience (the real collection persists and may already hold rows) that no other contract relies on, since every operation is stated relative to the current contents |
| WeatherData.Collection.Find | query_data.py:33-34 | `find` fails with PyMongoError exactly for a refused query; otherwise it returns the matching documents in store order and changes nothing |
| WeatherData.Collection.InsertMany | load_data.py:47 | `insert_many` succeeds exactly when the store accepts the batch, and then appends the whole batch and logs one Insert; when refused it raises PyMongoError and changes nothing |
| WeatherData.Collection.CreateIndexOn | load_data.py:58 | `create_index` leaves the documents alone; it succeeds exactly when the store does not refuse the index, and then logs one CreateIndex with the keys in call order; when refused it raises PyMongoError and logs nothing |
| ChunkReader.ChunkRows | app.py:55-60 | the chunk for a start offset has at most b rows, exactly min(b, n − start), and its i-th row is the file's row start + i |
| ChunkReader.CsvRowGenerator.constructor | app.py:41-48 | creating the generator runs nothing: what it will produce is the rows from `start`, or RuntimeError when the file has fewer than `start` rows |
| ChunkReader.CsvRowGenerator.Next | app.py:41-48 | each `next()` yields the first pending row and leaves the rest pending; with no row left it gives StopIteration and stays exhausted; when the skip ran past the end it raises RuntimeError once and is exhausted from then on |
| ChunkReader.CollectChunk | app.py:54-60 | the rows collected from a fresh generator are `rows[start..min(start + b, n)]` when start ≤ n, and RuntimeError when start > n |
| ChunkReader.ReadCsvAndWriteToDb | app.py:52-63 | a chunk task makes exactly one insert of its chunk, also when the chunk is empty; it appends the chunk and logs one Insert, or raises PyMongoError (refused) or RuntimeError (start > n) with the store unchanged |
| LoadPlanner.OffsetsFromAt | app.py:76-79 | the j-th offset of the while loop started at s is s + j·B |
| LoadPlanner.OffsetsFromLength | app.py:76-79 | the loop started at s emits nothing when s ≥ R; otherwise it emits k ≥ 1 offsets with s + (k − 1)·B < R ≤ s + k·B |
| LoadPlanner.OffsetsCount | app.py:76-79 | a file gets ceil(R / B) offsets |
| LoadPlanner.OffsetAt | app.py:76-79 | the j-th offset is j·B, a multiple of B, and below R |
| LoadPlanner.OffsetsShape | app.py:76-79 | the offsets are multiples of B below R; consecutive offsets differ by exactly B, so they strictly increase and the ranges [s, s + B) are pairwise disjoint |
| LoadPlanner.OffsetsCover | app.py:76-79 | with k offsets, every x < k·B lies in exactly one range [s, s + B) and no x ≥ k·B lies in any, and k·B ≥ R |
| LoadPlanner.ConfiguredOffsets | app.py:26-28 | with BUFFER_SIZE = 100000 and CSV_ROW_COUNT = 259201 the offsets are 0, 100000, 200000, which is ceil(259201 / 100000) = 3 |
| LoadPlanner.LoadedRowsFrom | app.py:56 | the chunks taken at the offsets from s on, concatenated, are the file's rows from s up to min(e, n), where e is the first point s + k·B that is not below R |
| LoadPlanner.OffsetsEndIs | app.py:76-79 | that first point not below R is s + k·B for the k offsets generated from s |
| LoadPlanner.FileChunksCover | app.py:56 | when no offset passes the end of the file, a file's chunks together are its first min(k·B, n) rows in order, so rows at index ≥ k·B are never read |
| LoadPlanner.PlanCount | app.py:74-79 | the task list has (#csv files) × (#offsets) tasks |
| LoadPlanner.PlanAt | app.py:74-79 | task f·k + j is the task for file f at offset j: files in listing order, offsets in order within a file |
| LoadPlanner.PlanMembers | app.py:74-79 | every task is for one of the files and at one of the offsets |
| LoadPlanner.GenerateReadAndWriteTasks | app.py:67-81 | the error pair (400, "No CSV files found in the folder") is returned exactly when no name ends in `.csv`; otherwise the tasks are the plan for the `.csv` entries, (#csv) × ceil(R / B) of them, each for a `.csv` entry of the listing |
| BatchLoader.FlattenAppend | load_data.py:44-54 | the rows of two runs of batches are the rows of the first followed by the rows of the second |
| BatchLoader.BatchesFlatten | load_data.py:44-54 | a file's batches, concatenated, are exactly the file's rows: none lost, none repeated, order kept |
| BatchLoader.BatchesBounded | load_data.py:45-54 | each batch is non-empty and has at most BUFFER_SIZE rows, and every batch but the last has exactly BUFFER_SIZE |
| BatchLoader.BatchesCount | load_data.py:44-54 | a file of n rows gets ceil(n / b) inserts, which is n div b plus one when b does not divide n; the last has n mod b rows, or b when b divides n |
| BatchLoader.ConfiguredBatches | load_data.py:16 | with BUFFER_SIZE = 100000, a file of 259201 rows is written in three inserts, the last holding 59201 rows |
| BatchLoader.BatchesAfterFullBuffer | load_data.py:46-48 | a full buffer is written as one batch ahead of the batches of the rows after it |
| BatchLoader.FullBufferStep | load_data.py:46-49 | after flushing a full buffer, the batches still to write are those of the rows after it, since the buffer starts again empty |
| BatchLoader.AllBatchesFlatten | load_data.py:38-54 | the batches of a whole load, concatenated, are all files' rows, file after file in listing order |
| BatchLoader.AllBatchesNonEmpty | load_data.py:52-54 | no batch of a load is empty, so no empty insert is ever issued |
| BatchLoader.AllAcceptedMeans | load_data.py:63-65 | all batches are written exactly when the store refuses none of them |
| BatchLoader.AcceptedPrefixAppend | load_data.py:38-54 | after a run of accepted batches, the written prefix goes on into what follows |
| BatchLoader.AcceptedPrefixShape | load_data.py:63-65 | what gets written is a prefix of the batches, all accepted, and when it is shorter the batch right after it is the refused one |
| BatchLoader.AcceptedPrefixStops | load_data.py:63-65 | once a batch is refused nothing after it is written, whatever follows |
| BatchLoader.WriteFileInBatches | load_data.py:40-54 | the buffer loop for one file succeeds exactly when the store accepts all of the file's batches; the store gains the rows of the accepted prefix of those batches, one Insert each, and a refusal raises PyMongoError. After a full write of n rows, buffer_count is n div b, so the last progress figure buffer_count × b is n − n mod b, the rows written in full batches |
| BatchLoader.LoadCsvsToDb | load_data.py:32-68 | with no `.csv` name the reply is 400 and the store is untouched. Otherwise the store gains the rows of the batches written before the first refusal. When nothing is refused the store gains all files' rows in listing order, and then, when the index is built, the log is the inserts followed by exactly one CreateIndex on (Longitude, Latitude) and the reply is the success message; when the index is refused, after every insert landed, the reply is 500 "Error writing to database" and the log is the inserts alone. After a refused insert the reply is the same 500 and no index is created |
| BatchLoader.NextFile | load_data.py:38-42 | the batches still to write are the current file's, followed by those of the later files |
| BatchLoader.FileAccepted | load_data.py:38-54 | after a fully accepted file, the store holds the rows of all batches so far, and the log holds one Insert per batch |
| BatchLoader.FileRefused | load_data.py:63-65 | after a refusal inside a file, the store holds the rows of the accepted prefix of the whole load, and the load counts as refused |
| BatchLoader.AllAcceptedAppend | load_data.py:38-54 | after accepted batches, the whole run is accepted exactly when the rest is |
| BatchLoader.TrailingBuffer | load_data.py:52-54 | once every row is read, the rows left in the buffer form the last batch, and an empty buffer leaves no batch to write |
| BatchLoader.WriteFailed | load_data.py:47 | a refused batch after accepted ones stops the writes there, whatever follows |
| BatchLoader.Written | load_data.py:47 | an accepted batch extends the written prefix, the stored rows and the log by that batch |
| Insight.ValidateRequest | app.py:108-116 | "Missing query parameters"/400 exactly when any of condition, lat, lon is absent or empty, whatever the condition says. Given all three, "Invalid condition"/400 exactly for a name other than the two accepted. Otherwise the request is accepted with lat, lon and the named condition |
| Insight.LocationQuery | app.py:120 | the query has the two keys Latitude and Longitude, and a document matches it exactly when both of its fields equal lat and lon |
| Insight.PrecipitationMm | app.py:129-132 | with the in/hr field present, the precipitation is its value × 25.4 and the mm/hr field is not read; otherwise it is the mm/hr value; it fails exactly when the chosen field is missing or not a number |
| Insight.EvaluateRecord | app.py:126-139 | a record evaluates exactly when it has a forecast time, a numeric temperature and a readable precipitation, under either condition. The entry copies forecast_time unchanged. conditionMet is temp > 30 for veryHot, and temp < 10 ∧ precipitation > 0.5 for rainyAndCold, all strict. A missing forecast_time raises KeyError |
| Insight.InsightsMeans | app.py:124-139 | the response list exists exactly when every selected record evaluates, and then has one entry per record, the k-th being record k's |
| Insight.InsightsPrefixFails | app.py:124-148 | once some record fails, the whole response fails |
| Insight.WeatherInsight | app.py:107-148 | a validation failure is returned with its 400 message; a refused query gives 500 "Database query error"; otherwise the reply is the response list over the matching documents in store order, or 500 "Internal server error" when some record raises |
| Insight.InchesTakePrecedence | query_data.py:42-45 | when a record has the in/hr field, its mm/hr field does not affect the result |
| Insight.UnitsAgree | query_data.py:42-45 | a record giving v in/hr evaluates the same as the record giving v × 25.4 mm/hr instead |
| Insight.NoPrecipitationFails | query_data.py:40-45 | a record with neither precipitation field fails under either condition, because the precipitation is computed before the condition is looked at |

## Left out

- HTTP layer: routing, `request.args`, `jsonify` and status tuples. Query arguments are `Option<string>` values, and a reply is a `Response` value.
- The route `load_data_to_db` of app.py (app.py:84-103) is not modelled:
  - its folder check;
  - its `create_index` on (Latitude, Longitude) ahead of the tasks (app.py:91);
  - its `gather`;
  - its exception mapping, including what it does with the error pair from `generate_read_and_write_tasks` (app.py:92-94).
  `generate_read_and_write_tasks` itself is modelled through its return value.
- Concurrency: the semaphore of four (app.py:53, app.py:72), `create_task` and `gather`.
  - Each chunk task is a sequential step (`ChunkReader.ReadCsvAndWriteToDb`).
  - The order in which concurrent tasks reach the store is not modelled.
  - So which prefix of the tasks is stored after a failure is not modelled either.
- Filesystem:
  - `os.getcwd`, `os.path.exists` and its 400 reply (load_data.py:28-30), and `os.path.join` are left out.
  - `os.listdir` becomes an input sequence of directory entries in listing order.
- CSV parsing by `csv.DictReader`: header handling, quoting, and malformed rows. A file is its parsed data rows. `read_csv_file_stream` (load_data.py:19-23) is that row sequence, read in order.
- MongoDB: `insert_many`, `find` and `create_index` are an append, an order-preserving filter and a log entry, each of which the store may refuse as a whole with PyMongoError. Left out:
  - the `_id` field added to inserted documents;
  - index deduplication;
  - the store's own result order;
  - the driver's rejection of an empty `insert_many`;
  - cursor errors part-way through iteration;
  - partial writes of a refused batch.
  Whether a batch, a query or the index is refused is the store's given decision.
- `WeatherData.Collection.refused` is a fixed set of batches, so a batch with the same rows as one the store accepted is accepted again. A store that fails part-way, for example on a dropped connection, and refuses a repeated batch it accepted before is not modelled; `insert_many` (load_data.py:47, load_data.py:54, app.py:62) can fail on any call.
- Un-awaited Motor calls in load_data.py and query_data.py are modelled with the synchronous semantics the code is written against.
- Numbers:
  - `float()` is the parameter `parse: string -> Option<real>`, where `None` stands for ValueError.
  - Arithmetic is exact on reals: there is no IEEE rounding of `× 25.4`, and no NaN or infinity.
- The model raises PyMongoError, RuntimeError (the generator's skip past the end), KeyError (a missing field) and ValueError (`float()` on a non-number). Left out are the others the code can meet: an IOError on opening a file, csv errors on malformed rows, and a TypeError when `float()` gets a stored value that is neither text nor a number (the model's rows hold text only).
- Logging calls are left out. The progress figure `buffer_count * BUFFER_SIZE` (load_data.py:50) is not emitted; `BatchLoader.WriteFileInBatches` returns `buffer_count`, its loop keeps buffer_count × b equal to the rows flushed so far, and its contract gives the final count.
- query_data.py's `weather_insight` (query_data.py:20-61) has the same logic as app.py's, without `async`: a plain loop over the cursor instead of `async for`. `Insight.WeatherInsight` models both.
