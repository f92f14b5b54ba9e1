/**
 * The single-value readers (`queryOne` behind `SelectInt`, `SelectUInt` and
 * `SelectString`) and the mutation helpers (`UpdateOne`, `Insert`,
 * `InsertIgnoreId`), as decisions on what the driver returned.
 */
module Scalars {
  import opened Outcomes
  import opened Numbers
  import opened Driver
  import opened Errors
  import opened Mapping

  /** The zero value of the `int`, `uint` or `string` a reader scans into. */
  function ScalarZero(kind: ScalarKind): Value {
    ZeroValue(FieldKindFor(kind))
  }

  /** The field kind that holds what a reader of `kind` holds. */
  function FieldKindFor(kind: ScalarKind): FieldKind {
    match kind
    case IntScalar => IntKind
    case UintScalar => UintKind
    case StringScalar => StringKind
  }

  /**
   * `rows.Scan(out)` with one destination: the row must have exactly one
   * column, NULL is refused, a string takes the bytes as they are and an
   * integer their base-10 parse.
   */
  function ScanScalar(kind: ScalarKind, row: Row): (r: Result<Value, Error>)
    ensures r.Success? ==> |row| == 1 && row[0].Some? && HasKind(r.value, FieldKindFor(kind))
    ensures |row| != 1 ==> r == Failure(ScanArity(|row|, 1))
    ensures |row| == 1 && row[0].None? ==> r == Failure(ScanNull(kind))
    ensures |row| == 1 && row[0].Some? && kind == StringScalar ==> r == Success(StrValue(row[0].value))
    ensures |row| == 1 && row[0].Some? && kind == IntScalar && ParseInt64(row[0].value).Failure? ==>
              r == Failure(ScanConvert(kind, row[0].value, ParseInt64(row[0].value).error))
    ensures |row| == 1 && row[0].Some? && kind == UintScalar && ParseUint64(row[0].value).Failure? ==>
              r == Failure(ScanConvert(kind, row[0].value, ParseUint64(row[0].value).error))
    ensures |row| == 1 && row[0].Some? && kind == IntScalar && ParseInt64(row[0].value).Success? ==>
              r == Success(IntValue(ParseInt64(row[0].value).value))
    ensures |row| == 1 && row[0].Some? && kind == UintScalar && ParseUint64(row[0].value).Success? ==>
              r == Success(UintValue(ParseUint64(row[0].value).value))
  {
    if |row| != 1 then Failure(ScanArity(|row|, 1))
    else if row[0].None? then Failure(ScanNull(kind))
    else
      var bytes := row[0].value;
      match kind
      case StringScalar => Success(StrValue(bytes))
      case IntScalar =>
        (match ParseInt64(bytes)
         case Success(i) => Success(IntValue(i))
         case Failure(reason) => Failure(ScanConvert(kind, bytes, reason)))
      case UintScalar =>
        (match ParseUint64(bytes)
         case Success(u) => Success(UintValue(u))
         case Failure(reason) => Failure(ScanConvert(kind, bytes, reason)))
  }

  /**
   * A non-null single column converts the same way whether a reader scans it
   * or the row mapper stores it in a field of the matching kind; only the
   * error differs.
   */
  lemma ScanAgreesWithMapping(kind: ScalarKind, column: string, bytes: Bytes)
    ensures var scanned := ScanScalar(kind, [Some(bytes)]);
            var mapped := MapRow(map[column := FieldKindFor(kind)], [column], [Some(bytes)]);
            (scanned.Success? <==> mapped.Success?) &&
            (scanned.Success? ==> mapped.value == map[column := scanned.value])
  {
    var schema := map[column := FieldKindFor(kind)];
    var mapped := MapRow(schema, [column], [Some(bytes)]);
    MapRowSucceeds(schema, [column], [Some(bytes)]);
    if mapped.Success? {
      MapRowFields(schema, [column], [Some(bytes)], column);
      assert LastWrite([column], [Some(bytes)], column, 1) == 0;
    }
  }

  /** What `queryOne` returns: the value scanned into `out`, `found`, and the error. */
  datatype ScalarRead = ScalarRead(value: Value, found: bool, error: Option<Error>)

  /**
   * `queryOne` on the outcome of the query: no row is "not found" without
   * error; the first row is scanned (a scan error stops there); a second row
   * is an error (whose message speaks of columns), with the first row's
   * value already in `out`.
   */
  function QueryOneOutcome(kind: ScalarKind, result: Result<ResultSet, Error>): (r: ScalarRead)
    ensures HasKind(r.value, FieldKindFor(kind))
    ensures r.found <==> result.Success? && result.value.rows != []
    ensures !r.found ==> r.value == ScalarZero(kind)
    ensures result.Failure? ==> r.error == Some(result.error)
    ensures r.error.None? <==>
              result.Success? &&
              (result.value.rows == [] ||
               (|result.value.rows| == 1 && ScanScalar(kind, result.value.rows[0]).Success?))
    ensures r.found && ScanScalar(kind, result.value.rows[0]).Success? ==>
              r.value == ScanScalar(kind, result.value.rows[0]).value
    ensures r.found && |result.value.rows| > 1 && ScanScalar(kind, result.value.rows[0]).Success? ==>
              r.error == Some(TooManyColumns)
    ensures r.found && ScanScalar(kind, result.value.rows[0]).Failure? ==>
              r.error == Some(ScanScalar(kind, result.value.rows[0]).error) && r.value == ScalarZero(kind)
  {
    match result
    case Failure(e) => ScalarRead(ScalarZero(kind), false, Some(e))
    case Success(rs) =>
      if rs.rows == [] then ScalarRead(ScalarZero(kind), false, None)
      else
        match ScanScalar(kind, rs.rows[0])
        case Failure(e) => ScalarRead(ScalarZero(kind), true, Some(e))
        case Success(v) => ScalarRead(v, true, if |rs.rows| > 1 then Some(TooManyColumns) else None)
  }

  /** `UpdateOne` on the outcome of the exec. */
  function UpdateOneOutcome(result: Result<ExecResult, Error>, query: string, args: seq<Arg>): (err: Option<Error>)
    ensures err.None? <==>
              result.Success? && result.value.rowsAffectedError.None? && result.value.rowsAffected == 1
    ensures result.Failure? ==> err == Some(result.error)
    ensures result.Success? && result.value.rowsAffectedError.Some? ==>
              err == Some(Passed(result.value.rowsAffectedError.value))
    ensures result.Success? && result.value.rowsAffectedError.None? && result.value.rowsAffected != 1 ==>
              err == Some(UpdateOneAffected(result.value.rowsAffected, query, args))
  {
    match result
    case Failure(e) => Some(e)
    case Success(res) =>
      if res.rowsAffectedError.Some? then Some(Passed(res.rowsAffectedError.value))
      else if res.rowsAffected != 1 then Some(UpdateOneAffected(res.rowsAffected, query, args))
      else None
  }

  /** What `Insert` returns: the generated id and the error. */
  datatype Inserted = Inserted(id: Int64, error: Option<Error>)

  /** `Insert` on the outcome of the exec. */
  function InsertOutcome(result: Result<ExecResult, Error>): (r: Inserted)
    ensures r.error.None? <==> result.Success? && result.value.lastInsertIdError.None?
    ensures result.Success? ==> r.id == result.value.lastInsertId
    ensures result.Failure? ==> r == Inserted(0, Some(result.error))
    ensures result.Success? && result.value.lastInsertIdError.Some? ==>
              r.error == Some(Passed(result.value.lastInsertIdError.value))
  {
    match result
    case Failure(e) => Inserted(0, Some(e))
    case Success(res) =>
      Inserted(res.lastInsertId,
               if res.lastInsertIdError.Some? then Some(Passed(res.lastInsertIdError.value)) else None)
  }
}
