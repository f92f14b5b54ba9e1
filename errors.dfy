/** Every error the core returns, as a tagged kind carrying what its message names. */
module Errors {
  import opened Numbers
  import opened Driver

  /** The Go type a single-value reader scans into: `int`, `uint` or `string`. */
  datatype ScalarKind = IntScalar | UintScalar | StringScalar

  /** The `Func` field of a `*strconv.NumError`. */
  datatype ParseFunc = ParseUintFunc | ParseIntFunc

  datatype Error =
      /** An error of the driver's `RowsAffected` or `LastInsertId`, returned unchanged. */
    | Passed(cause: DriverError)
      /** "sql.Query Error: <cause>. Query: <query> Args: <args>", the arguments as normalised. */
    | QueryFailed(cause: DriverError, query: string, args: seq<Arg>)
      /** "sql.Exec Error: <cause>. Query: <query> Args: <args>". */
    | ExecFailed(cause: DriverError, query: string, args: seq<Arg>)
      /** `rows.Scan` given a number of destinations other than the row's width. */
    | ScanArity(width: nat, destinations: nat)
      /** "converting NULL to <kind> is unsupported", from `rows.Scan` into a scalar. */
    | ScanNull(kind: ScalarKind)
      /** `rows.Scan` into an `int` or `uint` of text the parser refuses. */
    | ScanConvert(kind: ScalarKind, text: Bytes, reason: NumErrorKind)
      /** The `*strconv.NumError` the row mapper returns as is. */
    | NumError(func: ParseFunc, num: Bytes, reason: NumErrorKind)
      /** "fun/sql: Bad row value for column: <column>". */
    | BadRowValue(column: string)
      /** "Query returned too many columns", raised when a second row exists. */
    | TooManyColumns
      /** "UpdateOne affected <n> rows. Query: <query> Args: <args>". */
    | UpdateOneAffected(affected: Int64, query: string, args: seq<Arg>)
      /** "fun/sql.Select: expects a pointer to a slice of items". */
    | NotAPointer
      /** "fun/sql.Select: expects items to be a slice". */
    | NotASlice
      /** "fun/sql.Select: expects items to be empty". */
    | NotEmpty
      /** "fun/sql.Select: expects items to be a slice of structs". */
    | NotSliceOfStructs
      /** "fun/sql.SelectOne: got none. Query: <query> Args: <args>". */
    | GotNone(query: string, args: seq<Arg>)
      /** "fun/sql.SelectOne: got multiple rows. Query: <query> Args: <args>". */
    | GotMultipleRows(query: string, args: seq<Arg>)
}
