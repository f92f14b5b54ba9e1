# FunGo `sql`: a verified model of the pooled SQL access layer

This project models the core of the `sql` package of FunGo in Dafny. The
package is a small layer over Go's `database/sql` with four parts:

- **A connection pool.** `NewPool` opens and pings one connection per data
  source and puts them in a buffered channel. Every `Query` and `Exec`
  receives one handle from the channel and sends it back when done.
- **An argument normaliser.** `FixArgs` rewrites, in the caller's own slice,
  every argument of a named string type into a plain `string`.
- **Single-value readers and mutation helpers.** `SelectInt`, `SelectUInt`
  and `SelectString` read at most one row. `UpdateOne` requires exactly one
  affected row. `Insert` returns the generated id, and `InsertIgnoreId`
  discards it.
- **A row-to-record mapper.** `structFromRow`, `Select` and `SelectOne` match
  result columns to struct fields by exact name and parse the column text
  into the field's kind.

The driver is a boundary. A query or exec is an oracle: a function of the
connection handle, the statement and the normalised arguments
(`Driver.Backend`). A result set is its column names plus rows of nullable
byte strings. An exec result is the two `(int64, error)` pairs of
`sql.Result`. Go reflection is replaced by a schema, which maps each field
name to one of four kinds: string, unsigned integer, signed integer, other.
Go's `strconv.ParseUint`/`ParseInt` (base 10, 64 bits) are modelled exactly in
what they accept, the value they yield and the kind of error; the first event
of the digit scan decides that error. The value strconv returns alongside an
error is not modelled, since neither `structFromRow` nor `Scan` reads it. The
`*NumError`'s function name and input text are added where the error is built.
They are proved against a reference reading of decimal text and against
formatting.

Files and modules:

| file | module | contents |
|---|---|---|
| outcomes.dfy | `Outcomes` | `Option`, `Result` |
| numbers.dfy | `Numbers` | bytes, 64-bit integer types, the two parsers, their meaning and round trips |
| driver.dfy | `Driver` | arguments, rows, exec results, the `Conn` handle class, the driver oracle |
| errors.dfy | `Errors` | every error the core returns, as a tagged kind |
| args.dfy | `Args` | `FixArgs` (in place on an array) and the function that specifies it |
| mapping.dfy | `Mapping` | `structFromRow`, the loop of `Select`, the decision of `SelectOne` |
| scalars.dfy | `Scalars` | `queryOne`'s scan and cardinality, `UpdateOne`, `Insert` |
| pool.dfy | `ConnPool` | `NewPool` and the `Pool` class with every pool operation |
| examples.dfy | `Scenarios` | concrete results and rows worked through the model |

Some of what the code does differs from what its names and messages suggest. The model follows the code:

- `queryOne`'s error for a second row says "too many columns", not rows. The
  value of the first row is still returned with it.
- A parse failure in `structFromRow` returns `strconv`'s own error. It names
  the text, but neither the row nor the column.
- `NewPool` does not close the connections it opened before a failure.
- `Select` also rejects a target that is not a pointer or not a slice, and
  it checks emptiness before the element type.

## Model

| member | source | states |
|---|---|---|
| `Numbers.ParseUint64Meaning` | sql/sql.go:289-294 | the unsigned parse succeeds exactly on non-empty all-digit text of value at most 2^64-1, and yields that value |
| `Numbers.ParseUint64Overflow` | sql/sql.go:290-293 | well-formed digits above 2^64-1 are a range error |
| `Numbers.ParseUint64Malformed` | sql/sql.go:290-293 | empty text or text with a non-digit (a sign included) is refused, and empty text is a syntax error |
| `Numbers.ParseUint64Syntax` | sql/sql.go:290-293 | a non-digit reached while the digits before it still fit in 64 bits is a syntax error: the first event of the scan decides the error |
| `Numbers.ParseInt64Meaning` | sql/sql.go:295-300 | the signed parse succeeds exactly on an optional sign plus non-empty digits whose signed value is in [-2^63, 2^63-1], and yields it |
| `Numbers.ParseInt64Overflow` | sql/sql.go:296-299 | well-formed signed text outside the 64-bit range is a range error |
| `Numbers.ParseUint64RoundTrip` | sql/sql.go:290 | parsing the decimal text of any 64-bit unsigned value gives the value back |
| `Numbers.ParseInt64RoundTrip` | sql/sql.go:296 | parsing the decimal text of any 64-bit signed value gives the value back |
| `Args.Fixed` | sql/sql.go:75-78 | a string-kinded argument becomes a plain string with the same text; any other argument is unchanged |
| `Args.FixedArgs` | sql/sql.go:73-80 | normalising keeps the argument count and rewrites each argument on its own |
| `Args.FixArgs` | sql/sql.go:73-80 | the in-place loop leaves the array equal to the normalised argument list |
| `Args.FixedArgsIdempotent` | sql/sql.go:73-80 | normalising twice is the same as normalising once |
| `Mapping.ZeroRecord` | sql/sql.go:263-265 | the freshly allocated record has exactly the struct's fields, each holding the zero value of its kind |
| `Mapping.ConvertColumn` | sql/sql.go:285-304 | a string field gets the bytes verbatim; a uint or int field gets the unsigned or signed base-10 value, or an error naming the parser and the text whose reason (syntax or range) is the parser's own; a missing field or a field of another kind is "bad row value" for that column |
| `Mapping.ConvertColumnOutOfRange` | sql/sql.go:289-300 | well-formed digits whose value does not fit the 64-bit type give a range error, not a syntax error, for uint and int fields alike |
| `Mapping.StructFromRow` | sql/sql.go:262-308 | the scan-then-set loop computes the row's mapping, stopping at the first column that fails |
| `Mapping.LastWrite` | sql/sql.go:279-285 | the last non-null column of a given name among the first k, or none |
| `Mapping.MapRowSucceeds` | sql/sql.go:272-307 | a row maps exactly when it has one value per column and every non-null column's field accepts its text |
| `Mapping.MapRowFields` | sql/sql.go:279-305 | a mapped record has every field, each of its kind; a field keeps its zero value unless a non-null column of its name exists, and then holds the last such column's conversion |
| `Mapping.NullColumnsKeepZero` | sql/sql.go:280-284 | a field whose columns are all NULL, or which no column names, keeps its zero value |
| `Mapping.MapRowFieldValue` | sql/sql.go:286-300 | a string field holds the column bytes verbatim; a uint or int field holds the decimal value of the column text |
| `Mapping.MapRowFirstError` | sql/sql.go:279-304 | a failed mapping returns the error of the first column that does not map, and every earlier column maps |
| `Mapping.UnmatchedColumnFails` | sql/sql.go:285-303 | a non-null column with no field of its name, or a field of an unsupported kind, makes the row fail |
| `Mapping.ShapeError` | sql/sql.go:176-191 | the target passes exactly when it is a pointer to an empty slice of struct pointers; otherwise the first failed check in source order is reported: not a pointer, then not a slice, then a non-empty slice whatever its element type, and only then an element that is not a struct pointer |
| `Mapping.CollectRecords` | sql/sql.go:205-214 | the row loop appends one mapped record per row and stops at the first row that fails |
| `Mapping.SelectRowsMeaning` | sql/sql.go:206-214 | on success there is one record per row, in row order; on failure the first failing row's error is returned and the records of all earlier rows remain written |
| `Mapping.SingleRecord` | sql/sql.go:244-259 | no error exactly when there is one row and it maps; zero rows is "got none" with nothing stored; a first row that fails to map returns that row's own mapping error with nothing stored; with two or more rows the first record is stored and "got multiple rows" is returned |
| `Mapping.SingleRecordAgreesWithSelect` | sql/sql.go:206-259 | the record `SelectOne` stores is the first record `Select` writes; on a one-row result the two succeed together |
| `Scalars.ScanScalar` | sql/sql.go:103-108 | scanning one destination needs a one-column, non-null row (otherwise an arity or NULL error); a string takes the bytes as they are; an int or uint takes the parser's value, or a conversion error carrying the parser's reason |
| `Scalars.ScanAgreesWithMapping` | sql/sql.go:105 | a non-null single column converts the same way when scanned into an int, uint or string as when mapped onto a field of that kind |
| `Scalars.QueryOneOutcome` | sql/sql.go:97-117 | zero rows: not found and no error; otherwise found, with the scanned value, or with the zero value and the scan's own error when the first row does not scan; a second row is the "too many columns" error, with the first value kept |
| `Scalars.UpdateOneOutcome` | sql/sql.go:144-159 | succeeds exactly when the exec succeeds and reports exactly one affected row without error; another count is an error carrying that count |
| `Scalars.InsertOutcome` | sql/sql.go:166-173 | returns the last-insert id when the exec succeeds, and an error exactly when the exec or the id accessor fails; the accessor's error is passed through unchanged |
| `Scenarios.SelectTwoPeople` | sql/sql.go:205-214 | rows `("1", "Alice")` and `("2", "Bob")` mapped onto `{Id uint; Name string}` give those two records, in that order |
| `Scenarios.NullNameStaysEmpty` | sql/sql.go:280-284 | a NULL `Name` column leaves the field empty, and the row still maps |
| `Scenarios.UnsupportedFieldRejected` | sql/sql.go:301-303 | a column mapped onto a field of an unsupported kind is "bad row value" naming that column |
| `Scenarios.SelectOneCounts` | sql/sql.go:244-259 | zero rows is "got none"; one row `("7", "Carol")` is stored without error; two rows store the first and report "got multiple rows" |
| `Scenarios.UpdateOneCounts` | sql/sql.go:154-158 | one affected row is success; 0 or 2 is an error carrying that count |
| `ConnPool.RotationConserves` | sql/sql.go:36-37 | taking the head handle and sending it back keeps the same handles, each once |
| `ConnPool.FirstOpenFailureMeaning` | sql/sql.go:14-25 | construction fails exactly when some source fails to open or ping, and then with the first such source's error |
| `ConnPool.NewPool` | sql/sql.go:11-28 | either no pool and the first open or ping error, or a fresh pool holding one fresh, distinct handle per source, in source order |
| `ConnPool.Pool.constructor` | sql/sql.go:26 | the pool wraps a full channel of distinct handles |
| `ConnPool.Pool.Query` | sql/sql.go:35-45 | one handle is taken and put back, whatever the driver answers; the caller's arguments are normalised in place; the result is the driver's rows, or its error wrapped with the query and normalised arguments |
| `ConnPool.Pool.Exec` | sql/sql.go:48-58 | the same bracket and normalisation around the driver's exec |
| `ConnPool.Pool.QueryOne` | sql/sql.go:97-117 | the single-value read of the query's outcome, with the pool's handles conserved |
| `ConnPool.Pool.SelectInt` | sql/sql.go:82-85 | `queryOne` into a 64-bit `int` |
| `ConnPool.Pool.SelectUInt` | sql/sql.go:92-95 | `queryOne` into a 64-bit `uint` |
| `ConnPool.Pool.SelectString` | sql/sql.go:87-90 | `queryOne` into a `string` |
| `ConnPool.Pool.UpdateOne` | sql/sql.go:144-159 | the exec's outcome judged by the one-row rule; the error message carries the normalised arguments |
| `ConnPool.Pool.Insert` | sql/sql.go:166-173 | the exec's outcome and its last-insert id |
| `ConnPool.Pool.InsertIgnoreId` | sql/sql.go:161-164 | returns exactly the error `Insert` returns |
| `ConnPool.Pool.Select` | sql/sql.go:175-215 | a bad target is rejected before any handle is taken or argument touched; otherwise the query's error, or the row loop's records and error |
| `ConnPool.Pool.SelectOne` | sql/sql.go:219-260 | the query's error, or the single-record decision on its rows |

## Left out

- Numbers.ParseUint64, Numbers.ParseInt64: the value strconv returns with an error (0, or the clamped bound on overflow) is not modelled, because the callers return at once and never read it.

- ConnPool.Pool.Query, ConnPool.Pool.Exec and every operation built on them: they require a non-empty pool. The source blocks forever on an empty channel. Blocking, waiting for a free handle and concurrent callers are not modelled, because the channel is used by one caller at a time here.
- The driver, `sql.Open`, `Ping` and the network are oracles: `open` and `ping` are functions of the data-source string, and query and exec are functions of the handle, statement and arguments. The database's own state, which changes between calls, is therefore not modelled.
- Values the driver returns as typed integers (the binary protocol) are not modelled. Every column arrives as text or NULL.
- `rows.Columns()` failing, `rows.Err()` (which the source never checks) and closing result sets (which the source never does) are not modelled.
- Go reflection is replaced by a schema. Assigning to a narrower integer field (`uint8`, `int16`, ...) through `SetUint`/`SetInt` is taken as 64-bit. Setting an unexported field, which panics, and fields promoted from embedded structs are not modelled.
- ConnPool.Pool.Select: the slice's element type is taken to be a pointer, to a struct or to anything else. A non-empty slice of any element type is rejected as non-empty before the element type is looked at, and the model states that. An element that is a container of a struct (`[]S`, `[N]S`, a map or channel of `S`) passes the checks in the source. The source then returns the query's error, returns nil for zero rows, and panics in `reflect.Append` on the first mapped row. An empty slice whose element is neither a pointer nor a container panics in `Type().Elem()`. Neither case is modelled. A container of a non-struct (`[]int`) is rejected as not a slice of structs, the same outcome the model gives a pointer to a non-struct.
- ConnPool.Pool.SelectOne: the target is taken to be a `**S`, and only `S`'s schema is passed. A nil target, a non-pointer or a pointer to a non-pointer makes the source panic before it queries. A `**T` whose `T` is not a struct passes those checks, and the source then returns the query's error, "got none" or a scan error. If every column of the first row is NULL, it stores a pointer to a zero `T`; otherwise it panics in `FieldByName` at the first non-NULL column. That `**T` case is not modelled.
- Error messages are tagged kinds carrying the query, the normalised arguments, the count or the column. The exact text produced by `fmt.Sprint` and `%q` is not modelled.
- Go's `int` and `uint` are taken to be 64 bits wide.
- The commented-out transaction code is not modelled, because it is dead.
- util/http-util.go is not part of this model. It is a thin wrapper over `net/http` with no logic of its own.
