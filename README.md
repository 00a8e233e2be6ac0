# circe: a verified model of the ODBC-over-HTTP batch query bridge

circe is a small HTTP service written in Rust. It accepts a POST whose body is a JSON
array of SQL query texts, runs each query over one ODBC connection, and answers with a
JSON array holding, for each query, either its rows as JSON objects or a single
`{"Error": ...}` entry. This project models in Dafny the logic of `src/main.rs`:

- the column classifier (`enum Type` and `get_types`),
- the query executor (`do_query`) with its fetch loop and per-cell typed reads,
- the request validation and batch loop of `router`.

It then proves what that logic guarantees.

The ODBC driver becomes a scripted oracle (`Odbc.Script`). For one statement, a script
fixes what each call answers:

- `Statement::with_parent` (prepare),
- `exec_direct`,
- `num_result_cols`,
- `describe_col` for each index,
- the successive `fetch` calls,
- `get_data::<f64>`, `get_data::<i64>` and `get_data::<String>` for each row and column.

A `Connection` maps the k-th statement prepared on it, together with its query text, to
such a script. The handler receives the connection it would open as a parameter, and
reports through its `connected` result whether it opened it.

Files:

- `json.dfy` (module `Json`): the `serde_json::Value` the bridge builds, and the opaque
  `F64` token.
- `odbc.dfy` (module `Odbc`): the integer widths, the driver's `SqlDataType` tags, and the
  oracle.
- `types.dfy` (module `ColumnTypes`): column classification, `get_types` as the loop
  method `GetTypes`, and the recursive function `Descriptors` that specifies it.
- `query.dfy` (module `Query`): `do_query`. `QueryValue` is the functional definition
  (src/main.rs:76-143), `DoQuery` is the loop method proved equal to it, and the lemmas
  state what the outcome is. `QueryValue` is built from three definitions:
  - `FetchLoop`, the `while let` fetch loop (src/main.rs:104-140);
  - `RowFrom` and `RowRecord`, the per-row record loop (src/main.rs:111-135);
  - `ColumnTypes.DescribeAt`, one column description with its fallback (src/main.rs:51-68).
- `handler.dfy` (module `Handler`): `router`'s dispatch, the decoding of the body into
  query texts (`DecodeQueries`), and the batch loop (`RunBatch`).

Integer widths are modelled explicitly:

- A column count is an `i16`. `cols as u16 + 1` is computed modulo 2^16 (`ColsArg`).
- A cell position passed to `get_data` is the enumerate index cast to `u16` (`AsU16`).
- Integer cells are `i64`.

Behaviour of the source worth noting:

- A failed `describe_col` does not make the query fail. That column becomes
  `("unknown", String)` (src/main.rs:67). Only a failed `num_result_cols` or a failed
  `fetch` gives "Can't fetch results: ".
- A cell error's message keeps the "Can't fetch data: " prefix (src/main.rs:116-130).
- `get_data` yields `None` for SQL NULL. The cell is then JSON `null`, for every category.
  `json!` also turns a non-finite `f64` into `null`. So a Float cell holds a float or
  `null` (`Query.HasType`).
- The two kinds of outcome share one encoding. A successful query returning one text
  column named `Error` gives exactly the value of a failed stage (`Query.ErrorEntryIsAmbiguous`),
  so an outcome does not always say which kind it is.

Index convention, modelled as written. Descriptors come from `describe_col(1..n)`
(src/main.rs:50). The cell of the k-th descriptor is read with `get_data(k)`, at the
0-based `enumerate` position (src/main.rs:112-126). So in a record, the value under the
k-th column's name is what `get_data(k)` answers, while k's name and category come from
`describe_col(k + 1)` (`Query.IsRecord`, `ColumnTypes.Descriptors`). This is not
corrected. Whether it reads the intended column depends on the driver's numbering, and the
driver is outside this model.

## Model

| member | source | states |
|---|---|---|
| `Odbc.AsU16` | src/main.rs:114-126 | Below 2^16 the cast leaves the index unchanged. Above, it keeps the low 16 bits. |
| `ColumnTypes.Classify` | src/main.rs:55-64 | Float exactly for SQL_DOUBLE, SQL_REAL, SQL_FLOAT, SQL_DECIMAL and SQL_NUMERIC. Int exactly for SQL_INTEGER and SQL_SMALLINT. String for every other tag the model distinguishes, BIGINT and TINYINT included. Defined for every such tag. |
| `ColumnTypes.ColsArg` | src/main.rs:101 | For a count n >= 0 the argument is n + 1. The u16 cast and the +1 wrap, so -1 gives 0 and n < -1 gives n + 65537. |
| `ColumnTypes.DescriptorsFrom` | src/main.rs:50-71 | From index i on: one descriptor per index i..cols-1, entry k taken from `describe_col(i + k)`, in order. |
| `ColumnTypes.Descriptors` | src/main.rs:48-74 | `get_types` gives one descriptor per column index 1..cols-1. Entry k comes from `describe_col(k + 1)`, so a failure yields ("unknown", String) rather than an error. |
| `ColumnTypes.DescribesReportedColumns` | src/main.rs:95-102 | With a reported count n >= 0, exactly n descriptors. Entry k comes from `describe_col(k + 1)`. |
| `ColumnTypes.GetTypes` | src/main.rs:48-74 | The `for` loop that pushes descriptors returns exactly `Descriptors(s, cols)`. |
| `Query.CellValue` | src/main.rs:113-132 | A cell is read with the `get_data` of its column's category, at the given position. Reading succeeds iff that driver call succeeds. A value read has its category's JSON type, or is null. |
| `Query.RowFromSucceeds` | src/main.rs:112-135 | Building a record from column j on succeeds iff every cell from j on reads. |
| `Query.RowFromKeys` | src/main.rs:111-135 | A built record's keys are exactly the earlier keys plus the names of the remaining columns. |
| `Query.RowFromKeeps` | src/main.rs:111-135 | A built record keeps each earlier key whose name no remaining column has, with its value unchanged. |
| `Query.RowFromLastWins` | src/main.rs:112-135 | In a built record, the value under a name is the cell of the last column with that name (`Map::insert` overwrites). |
| `Query.RowFromInserts` | src/main.rs:111-135 | A built record's keys are the earlier keys plus the remaining column names. The last column with a name supplies its value (`Map::insert` overwrites), and keys of other names keep their values. |
| `Query.RowFromReportsFirstFailure` | src/main.rs:112-131 | A failed record carries the message of its first failing cell. |
| `Query.RecordContents` | src/main.rs:111-135 | A row's record exists iff all its cells read. Its keys are then exactly the column names, and the value under each is its last column's typed cell. Otherwise the first failing cell's message is reported. |
| `Query.LeadingRows` | src/main.rs:105-110 | The number of fetch calls that deliver a row before the first call that does not. |
| `Query.RowCount` | src/main.rs:105-110 | Fetch calls 0..n-1 deliver a row and call n does not. |
| `Query.FetchLoopRows` | src/main.rs:104-140 | If all delivered rows yield records and the cursor ends, the loop returns the gathered rows, then one record per row in fetch order. |
| `Query.FetchLoopFetchError` | src/main.rs:105-109 | If a fetch fails after fully read rows, the loop returns that fetch's error and none of the rows. |
| `Query.FetchLoopCellError` | src/main.rs:112-131 | If row r0 is the first row whose record fails, the loop returns its "Can't fetch data: " error and none of the rows. |
| `Query.StageErrors` | src/main.rs:77-100 | The first failing stage decides the outcome: `[{"Error": prefix + msg}]`, with the prepare, execute or fetch-results prefix. |
| `Query.NoDataIsEmpty` | src/main.rs:92-93 | A statement that executes without a result set gives `[]`, whatever the rest of its script says. |
| `Query.NoPartialRows` | src/main.rs:104-131 | If any cell of any delivered row fails, the outcome is one "Can't fetch data: " error entry. No row of that query survives, not even earlier complete ones. |
| `Query.FetchErrorDiscardsRows` | src/main.rs:105-109 | A failing fetch after complete rows gives the "Can't fetch results: " error, with no rows. |
| `Query.AllRecords` | src/main.rs:104-140 | If all cells of all delivered rows read and the cursor ends, the loop gives one record per row in fetch order. Each record is that row's record. |
| `Query.RowsInFetchOrder` | src/main.rs:94-140 | On success, `do_query` gives one object per fetched row, in fetch order. Keys are the descriptor names, the later duplicate wins, and each value has its column's category, read at the 0-based position. |
| `Query.FetchLoopIsRowArray` | src/main.rs:104-140 | The fetch loop always yields a JSON array of objects. |
| `Query.OutcomeIsRowArray` | src/main.rs:76-143 | Whatever the driver answers, `do_query` yields a JSON array of objects. Every failure is data, never a fault. |
| `Query.ErrorEntryIsAmbiguous` | src/main.rs:76-143 | A statement that prepares fine can still produce a value identical to a prepare error entry. |
| `Query.DoQuery` | src/main.rs:76-143 | The method, with its fetch loop and nested column loop with early returns, returns exactly `QueryValue` of the k-th statement's script. |
| `Handler.DecodeQueries` | src/main.rs:163-175 | A non-array gives "Not a JSON array". An array with any non-string gives "Not an array of strings". Otherwise the result is the strings, in order. |
| `Handler.RunBatch` | src/main.rs:189-192 | As many outcomes as queries, in order. Outcome i is `do_query` of query i as the i-th statement on the one connection, so a failing query does not stop later ones. |
| `Handler.Router` | src/main.rs:145-195 | OPTIONS gives 204 before any path check, a non-root path 404, a non-POST 405, an unparsable body 400 with the parser's message. A wrong shape gives 500 with its message and runs no query. An empty array gives 200 `[]` without connecting. Otherwise the handler connects and answers 200 with the batch outcome. |

## Left out

- `make_env`, `connect` and the `DSN` variable (src/main.rs:29-46) are not modelled. The connection is a parameter that is always obtained, so the `process::exit` and the panics on a failed connection are not modelled.
- `main` (src/main.rs:197-215) is not modelled: the Iron server, the logger middleware, and `PORT`/`RUST_LOG`. It is I/O plumbing.
- The behaviour of a real ODBC driver is not modelled. The driver is a scripted oracle. Whether `get_data(0)` reads the intended column, or any column, is therefore not decided here.
- JSON text parsing (`serde_json::from_reader`) is not modelled. The body arrives as `Parsed(value)` or `Unparsable(message)`, and a failed read of the body counts as `Unparsable`.
- Serialisation (`to_string`, src/main.rs:194) is not modelled. The 200 response carries the JSON value itself (`JsonText`). The literal `"[]"` of the empty batch is kept as text.
- The response headers, including the JSON `Content-Type` (src/main.rs:177-181), are not modelled. A response is its status and body.
- Floating-point values are opaque tokens. Only their finiteness is kept, because it decides between a number and `null`.
- `ColsArg`: for a reported count of -1, a debug build would panic on the u16 overflow. The model follows the release build's wrap-around to 0.
- The order of keys inside a serialised object is not modelled (serde's map is ordered by key). A record is a Dafny `map`.
- A cursor always ends. After the scripted calls, the model's `fetch` reports the end of the result set, so a fetch loop that never ends is not modelled.
- Concurrency between requests is not modelled. Each request is handled alone, start to finish.
