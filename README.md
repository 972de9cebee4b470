# Log store model

A Dafny model of the storage core of a small logging service written in Go:
a SQLite table `logs` that the service appends records to and reads back a
page of 100 rows at a time, the page-count arithmetic that goes with it,
the validation and default-filling step of the `POST /api/logs` handler,
and the in-memory `Logger` type.

- `wrappers.dfy` — `Option` and `Result`.
- `json.dfy` (module `Json`) — the JSON value type, `Metadata` (string keys
  to JSON values) and `Codec`, the pair of functions that stands for
  `json.Marshal` / `json.Unmarshal`. The one assumption the store makes of
  them, that encodable metadata encodes to non-empty text that decodes back
  to itself, is the predicate `Codec.RoundTrips`, required only by the
  lemmas that depend on it.
- `database.dfy` (module `Database`) — `LogEntry`, the stored `Row` (metadata
  as text), the class `LogStore` with the table as `rows` (primary-key order)
  and the AUTOINCREMENT counter `nextId`. The schema's rules (strictly
  increasing ids below the counter, which starts at 1; `level` one of `TRACE, DEBUG,
  INFO, WARN, ERROR, FATAL`, compared exactly) are the invariant `Schema`,
  kept by every method. `InsertLog` fails with `EncodeError` before any
  write when the metadata cannot be serialised, with `Full` when the 64-bit
  rowid space is exhausted, with `CheckViolation` for any other level, and
  otherwise appends exactly one row. `GetLogs` is the row loop, proved to
  return `PageOf`, the rows at positions `[n*100, min(n*100+100, |rows|))`
  each read back with the empty-or-malformed-metadata fallback.
  `TotalPages` is the ceiling of `total / 100`.
- `endpoints.dfy` (module `Endpoints`) — `Normalize` and the handler body
  `PostLog`, which overwrites empty fields one at a time and calls
  `InsertLog`.
- `logger.dfy` (module `Logging`) — the class `Logger`.

The clock (`CURRENT_TIMESTAMP`) is the parameter `now` of `InsertLog` and
`PostLog`; timestamps are an opaque integer instant.

The handler's default level is lower-case `"info"` (endpoints.go:35),
which the table's exact CHECK (database.go:45) rejects, so an entry posted
without a level is never stored (`DefaultLevelRejected`, and the last
`ensures` of `PostLog`). The handler's default hostname is `"unknown"`
(endpoints.go:44), while the column default is `'localhost'`
(database.go:48). The column defaults of `level`, `source`, `hostname`,
`environment` and `metadata` are never used, because the INSERT
(database.go:75-77) supplies those columns; `id` and `timestamp` are filled
by the table on every insert (database.go:43-44), as `nextId` and `now`.

## Model

| member | source | states |
|---|---|---|
| `Database.InsertError` | database.go:68-80 | on a reliable datastore, an insert succeeds exactly when the metadata encodes, the rowid counter is within 64 bits and the level is one of the six exact names; a failed encoding is reported as such; an encodable entry with another level fails the CHECK |
| `Database.DecodeMetadata` | database.go:115-122 | stored text that decodes yields the decoded map; any non-empty result came from decoding non-empty text, so empty or malformed text yields the empty map |
| `Database.PageOf` | database.go:88-90 | a page holds at most 100 entries; it is empty exactly when `n*100 >= |rows|`; otherwise it holds `min(100, |rows| - n*100)` entries, entry k being row `n*100 + k` read back |
| `Database.TotalPages` | database.go:151-154 | the result is the ceiling of `total/100`: the least p with `p*100 >= total` (0 for 0, 2 for 200, 3 for 250) |
| `Database.LogStore.Open` | database.go:41-51 | a store over a table satisfying the schema's key and CHECK rules holds that table and counter and is valid |
| `Database.LogStore.InsertLog` | database.go:68-80 | keeps the schema invariant; the result is `InsertError`; on failure rows and counter are unchanged; on success the table is the old table plus one row carrying the next id, the given fields, `now` and the encoded metadata, the counter grows by one, and the new id exceeds every earlier id |
| `Database.LogStore.GetLogs` | database.go:82-128 | with no argument reads page 0, otherwise page `page[0]`; the loop returns exactly `PageOf` of the table, so an out-of-range page is an empty sequence, not an error |
| `Database.LogStore.GetPaginationInfo` | database.go:136-161 | the total equals the row count, the page size is 100, and the page count is the least p with `p*100 >= |rows|` |
| `Database.PageNonEmptyIff` | database.go:151-154 | page n has rows if and only if `n < TotalPages(|rows|)` |
| `Database.PagesPrefix` | database.go:88-90 | reading pages 0..k-1 in turn yields the first `min(k*100, |rows|)` rows, in order, each read back |
| `Database.PagesCoverTable` | database.go:151-154 | reading pages 0..TotalPages-1 in turn yields every row exactly once, in primary-key order |
| `Database.PageInKeyOrder` | database.go:43 | on a table satisfying the schema, the entries of a page have strictly increasing ids |
| `Database.CorruptMetadataIsLocal` | database.go:115-122 | replacing one row's stored metadata with empty or undecodable text empties that entry's metadata only; the page keeps its length and every other entry |
| `Database.MetadataRoundTrip` | database.go:115-119 | under the codec's round-trip promise, metadata written by an insert is read back unchanged |
| `Database.AppendThenRead` | database.go:74-77 | after a successful insert the new row is the last entry of page `|rows|/100`, with the level, message, source, hostname, environment, timestamp and metadata it was given, and every other entry on that page has a smaller id |
| `Endpoints.Normalize` | endpoints.go:33-48 | fails with "message is required" exactly when the message is empty; on success every defaultable field is non-empty and message and metadata are passed through |
| `Endpoints.NormalizeFields` | endpoints.go:34-48 | empty level becomes "info", empty source and hostname "unknown", empty environment "development"; non-empty fields, the message and the metadata are unchanged |
| `Endpoints.NormalizeIdempotent` | endpoints.go:34-48 | normalising a normalised entry gives the same result |
| `Endpoints.DefaultLevelRejected` | endpoints.go:34-36 | an entry posted without a level gets "info", and the insert of such an entry always fails |
| `Endpoints.PostLog` | endpoints.go:33-56 | an empty message is rejected with "message is required" and the store is untouched; otherwise the normalised entry is inserted and the outcome and new store state are those `InsertError` predicts; an entry without a level is never saved |
| `Logging.Logger.NewLogger` | logger.go:8-13 | the new logger has the given level and no messages |
| `Logging.Logger.Log` | logger.go:15-17 | the message list becomes the old list plus the message at the end; the level is unchanged |
| `Logging.Logger.GetLogs` | logger.go:19-21 | returns the messages in the order they were logged and changes nothing |

## Left out

- Database initialisation: opening the file, ping, the WAL pragma, executing the DDL and the indexes (database.go:25-66) are I/O; only the constraints the DDL declares are kept, as `Schema` (an empty database is `Open` with no rows and counter 1).
- JSON syntax: `json.Marshal` and `json.Unmarshal` are a foreign library, modelled as the abstract `Codec`; Go's nil map and empty map are not distinguished, and numbers are reals rather than `float64`.
- Timestamps: `CURRENT_TIMESTAMP` is the wall clock, passed in as `now`.
- `Database.LogStore.InsertLog`: write failures of the datastore itself (disk I/O errors, a locked or busy database, a full disk) that `db.Exec` (database.go:74-79) can return are not modelled; on such a failure no row would be added.
- I/O errors of the query, the scan and `rows.Err()` (database.go:91-93, 111-113, 127, 137-149) are not modelled; reads always succeed.
- `Database.LogStore.GetLogs`: requires page numbers from 0 to (2^63-1)/100; negative pages and larger ones, whose `pageNum * FETCH_LIMIT` wraps around in Go's `int` and would rest on SQLite's treatment of a negative OFFSET, are not modelled.
- SQLite's choice of error when both the rowid space is exhausted and the level is invalid is modelled as `Full`; only the fact that the insert fails is relied on.
- The HTTP layer: the Fiber app, CORS, compression, body parsing and its 400 answer, status codes and JSON responses, and `app.Listen` (endpoints.go:13-31, 51-68); the outcome of `PostLog` stands for the 201/400/500 answers. The GET route, which always reads page 0, is routing.
- `main.go`: a command-line driver using stdin, stdout and `log.Fatal`.
- Concurrency: WAL reader/writer behaviour and consistency between a count and a page read under concurrent writers; the model is single-threaded.
- `Logging.Logger.GetLogs`: returns a copy; Go returns a slice sharing the logger's backing array, so a caller writing through it would change the logger — that aliasing is not modelled.
