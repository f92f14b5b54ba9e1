/**
 * The boundary with `database/sql` and the MySQL driver. The driver itself is
 * not modelled: a query or exec is an oracle, a function of the connection
 * handle, the statement and the arguments it is handed, whose result the
 * model takes as given.
 */
module Driver {
  import opened Outcomes
  import opened Numbers

  /**
   * A query argument, as the dynamic type of an `interface{}` value.
   * `Str` is a value of Go's own `string` type; `NamedStr` a value of a
   * defined type whose underlying kind is string (`type Foo string`), which
   * the driver refuses; `Opaque` any value of another kind (integers,
   * pointers, byte slices, nil), shown by its type name and printed form.
   */
  datatype Arg =
    | Str(text: string)
    | NamedStr(typeName: string, text: string)
    | Opaque(typeName: string, printed: string)
  {
    /** `reflect.ValueOf(arg).Kind() == reflect.String`. */
    predicate IsStringKind() {
      Str? || NamedStr?
    }
  }

  /** An error reported by the driver, kept as its message. */
  datatype DriverError = DriverError(message: string)

  /** One scanned row: a column's raw bytes, or `None` for SQL NULL (a nil `sql.RawBytes`). */
  type Row = seq<Option<Bytes>>

  /** What `conn.Query` hands back: the column names and the rows, in order. */
  datatype ResultSet = ResultSet(columns: seq<string>, rows: seq<Row>)

  /** What `conn.Exec` hands back: the two accessors of `sql.Result`, each an `(int64, error)` pair. */
  datatype ExecResult = ExecResult(
    rowsAffected: Int64, rowsAffectedError: Option<DriverError>,
    lastInsertId: Int64, lastInsertIdError: Option<DriverError>)

  /** A live connection opened from one data-source string (a `*sql.DB`). */
  class Conn {
    const source: string

    /** The successful path of `sql.Open("mysql", source)`. */
    constructor Open(source: string)
      ensures this.source == source
    {
      this.source := source;
    }
  }

  /** The driver's query and exec operations, as oracles. */
  datatype Backend = Backend(
    query: (Conn, string, seq<Arg>) -> Result<ResultSet, DriverError>,
    exec: (Conn, string, seq<Arg>) -> Result<ExecResult, DriverError>)
}
