/**
 * The row-to-record mapping engine: `structFromRow`, and the decisions of
 * `Select` and `SelectOne` once the query has run. Go's reflection is
 * replaced by an explicit schema, the kind of each struct field by name.
 */
module Mapping {
  import opened Outcomes
  import opened Numbers
  import opened Driver
  import opened Errors

  /**
   * A struct field's kind as `structFromRow` groups `reflect.Kind`: string,
   * the unsigned integer kinds, the signed integer kinds, or anything else.
   */
  datatype FieldKind = StringKind | UintKind | IntKind | OtherKind

  /** A struct type: the kind of each field, under its exact name. */
  type Schema = map<string, FieldKind>

  /** A field's value; `OtherZero` is the untouched zero value of a field of another kind. */
  datatype Value = StrValue(bytes: Bytes) | UintValue(u: UInt64) | IntValue(i: Int64) | OtherZero

  /** A struct value: each field's value, by name. */
  type Record = map<string, Value>

  function ZeroValue(kind: FieldKind): Value {
    match kind
    case StringKind => StrValue([])
    case UintKind => UintValue(0)
    case IntKind => IntValue(0)
    case OtherKind => OtherZero
  }

  predicate HasKind(v: Value, kind: FieldKind) {
    match kind
    case StringKind => v.StrValue?
    case UintKind => v.UintValue?
    case IntKind => v.IntValue?
    case OtherKind => v.OtherZero?
  }

  /** A value of the struct type: every field present and holding a value of its kind. */
  predicate Conforms(rec: Record, schema: Schema) {
    rec.Keys == schema.Keys && forall f :: f in schema ==> HasKind(rec[f], schema[f])
  }

  /** The struct `reflect.New` allocates: every field at its zero value. */
  function ZeroRecord(schema: Schema): (rec: Record)
    ensures Conforms(rec, schema)
    ensures forall f :: f in schema ==> rec[f] == ZeroValue(schema[f])
  {
    map f | f in schema :: ZeroValue(schema[f])
  }

  /** `FieldByName(column).Kind()`; `None` is the invalid kind of a field the struct lacks. */
  function FieldKindOf(schema: Schema, column: string): Option<FieldKind> {
    if column in schema then Some(schema[column]) else None
  }

  /**
   * What `structFromRow` stores for one non-null column: the bytes verbatim
   * in a string field, their base-10 parse in an integer field, and an
   * error naming the column for a missing field or a field of another kind.
   */
  function ConvertColumn(kind: Option<FieldKind>, column: string, bytes: Bytes): (r: Result<Value, Error>)
    ensures r.Success? ==> kind.Some? && HasKind(r.value, kind.value)
    ensures kind == Some(StringKind) ==> r == Success(StrValue(bytes))
    ensures kind == Some(UintKind) ==>
              (r.Success? <==> bytes != [] && AllDigits(bytes) && DecimalValue(bytes) <= MAX_UINT64) &&
              (r.Success? ==> r.value == UintValue(DecimalValue(bytes))) &&
              (r.Failure? ==> r.error.NumError? && r.error.func == ParseUintFunc && r.error.num == bytes &&
                              ParseUint64(bytes) == Failure(r.error.reason))
    ensures kind == Some(IntKind) ==>
              (r.Success? <==> bytes != [] && Unsigned(bytes) != [] && AllDigits(Unsigned(bytes)) &&
                               MIN_INT64 <= SignedValue(bytes) <= MAX_INT64) &&
              (r.Success? ==> r.value == IntValue(SignedValue(bytes))) &&
              (r.Failure? ==> r.error.NumError? && r.error.func == ParseIntFunc && r.error.num == bytes &&
                              ParseInt64(bytes) == Failure(r.error.reason))
    ensures r == Failure(BadRowValue(column)) <==> kind.None? || kind == Some(OtherKind)
  {
    ParseUint64Meaning(bytes);
    ParseInt64Meaning(bytes);
    match kind
    case Some(StringKind) => Success(StrValue(bytes))
    case Some(UintKind) =>
      (match ParseUint64(bytes)
       case Success(u) => Success(UintValue(u))
       case Failure(reason) => Failure(NumError(ParseUintFunc, bytes, reason)))
    case Some(IntKind) =>
      (match ParseInt64(bytes)
       case Success(i) => Success(IntValue(i))
       case Failure(reason) => Failure(NumError(ParseIntFunc, bytes, reason)))
    case _ => Failure(BadRowValue(column))
  }

  /** Well-formed text that does not fit 64 bits is a range error, not a syntax error, for both integer kinds. */
  lemma ConvertColumnOutOfRange(kind: Option<FieldKind>, column: string, bytes: Bytes)
    requires kind == Some(UintKind) || kind == Some(IntKind)
    requires bytes != [] && Unsigned(bytes) != [] && AllDigits(Unsigned(bytes))
    requires kind == Some(UintKind) ==> AllDigits(bytes) && DecimalValue(bytes) > MAX_UINT64
    requires kind == Some(IntKind) ==> SignedValue(bytes) < MIN_INT64 || SignedValue(bytes) > MAX_INT64
    ensures kind == Some(UintKind) ==> ConvertColumn(kind, column, bytes) == Failure(NumError(ParseUintFunc, bytes, ErrRange))
    ensures kind == Some(IntKind) ==> ConvertColumn(kind, column, bytes) == Failure(NumError(ParseIntFunc, bytes, ErrRange))
  {
    if kind == Some(UintKind) {
      ParseUint64Overflow(bytes);
    } else {
      ParseInt64Overflow(bytes);
    }
  }

  /** The record after the first `k` columns of the loop in `structFromRow`, or the error that stopped it. */
  function MapColumns(schema: Schema, columns: seq<string>, row: Row, k: nat): Result<Record, Error>
    requires |row| == |columns| && k <= |columns|
  {
    if k == 0 then Success(ZeroRecord(schema))
    else
      match MapColumns(schema, columns, row, k - 1)
      case Failure(e) => Failure(e)
      case Success(rec) =>
        if row[k - 1].None? then Success(rec)
        else
          match ConvertColumn(FieldKindOf(schema, columns[k - 1]), columns[k - 1], row[k - 1].value)
          case Failure(e) => Failure(e)
          case Success(v) => Success(rec[columns[k - 1] := v])
  }

  lemma {:induction false} MapColumnsStops(schema: Schema, columns: seq<string>, row: Row, k: nat, m: nat)
    requires |row| == |columns| && k <= m <= |columns| && MapColumns(schema, columns, row, k).Failure?
    ensures MapColumns(schema, columns, row, m) == MapColumns(schema, columns, row, k)
    decreases m
  {
    if m > k {
      MapColumnsStops(schema, columns, row, k, m - 1);
    }
  }

  /** `structFromRow(structType, columns, rows)` on the current row: scan it, then map every column. */
  function MapRow(schema: Schema, columns: seq<string>, row: Row): Result<Record, Error> {
    if |row| != |columns| then Failure(ScanArity(|row|, |columns|))
    else MapColumns(schema, columns, row, |columns|)
  }

  /** `structFromRow`: allocate a zero record, then set the field named by each non-null column. */
  method StructFromRow(schema: Schema, columns: seq<string>, row: Row) returns (r: Result<Record, Error>)
    ensures r == MapRow(schema, columns, row)
  {
    if |row| != |columns| {
      return Failure(ScanArity(|row|, |columns|));
    }
    var rec := ZeroRecord(schema);
    for i := 0 to |columns|
      invariant MapColumns(schema, columns, row, i) == Success(rec)
    {
      if row[i].None? {
        continue;
      }
      var bytes := row[i].value;
      var column := columns[i];
      match FieldKindOf(schema, column)
      case Some(StringKind) =>
        rec := rec[column := StrValue(bytes)];
      case Some(UintKind) =>
        var parsed := ParseUint64(bytes);
        if parsed.Failure? {
          MapColumnsStops(schema, columns, row, i + 1, |columns|);
          return Failure(NumError(ParseUintFunc, bytes, parsed.error));
        }
        rec := rec[column := UintValue(parsed.value)];
      case Some(IntKind) =>
        var parsed := ParseInt64(bytes);
        if parsed.Failure? {
          MapColumnsStops(schema, columns, row, i + 1, |columns|);
          return Failure(NumError(ParseIntFunc, bytes, parsed.error));
        }
        rec := rec[column := IntValue(parsed.value)];
      case _ =>
        MapColumnsStops(schema, columns, row, i + 1, |columns|);
        return Failure(BadRowValue(column));
    }
    return Success(rec);
  }

  /** Whether column `i` of a row maps without error: it is NULL, or its field accepts its text. */
  predicate ColumnMaps(schema: Schema, columns: seq<string>, row: Row, i: nat)
    requires i < |columns| == |row|
  {
    row[i].None? || ConvertColumn(FieldKindOf(schema, columns[i]), columns[i], row[i].value).Success?
  }

  /** The last of the first `k` columns that is named `f` and not NULL, or -1 if there is none. */
  function LastWrite(columns: seq<string>, row: Row, f: string, k: nat): (w: int)
    requires k <= |columns| == |row|
    ensures -1 <= w < k
    ensures w >= 0 ==> columns[w] == f && row[w].Some?
    ensures forall j :: w < j < k ==> columns[j] != f || row[j].None?
  {
    if k == 0 then -1
    else if columns[k - 1] == f && row[k - 1].Some? then k - 1
    else LastWrite(columns, row, f, k - 1)
  }

  /** The value field `f` ends up with: that of its last non-null column, else its zero value. */
  predicate FieldFromColumns(schema: Schema, columns: seq<string>, row: Row, k: nat, rec: Record, f: string)
    requires k <= |columns| == |row| && f in schema && f in rec
  {
    var w := LastWrite(columns, row, f, k);
    if w < 0 then rec[f] == ZeroValue(schema[f])
    else Success(rec[f]) == ConvertColumn(Some(schema[f]), f, row[w].value)
  }

  lemma {:induction false} MapColumnsMeaning(schema: Schema, columns: seq<string>, row: Row, k: nat)
    requires |row| == |columns| && k <= |columns|
    ensures MapColumns(schema, columns, row, k).Success? <==> forall i :: 0 <= i < k ==> ColumnMaps(schema, columns, row, i)
    ensures MapColumns(schema, columns, row, k).Success? ==>
              var rec := MapColumns(schema, columns, row, k).value;
              Conforms(rec, schema) &&
              forall f :: f in schema ==> FieldFromColumns(schema, columns, row, k, rec, f)
    ensures MapColumns(schema, columns, row, k).Failure? ==>
              exists i :: 0 <= i < k && !ColumnMaps(schema, columns, row, i) &&
                (forall j :: 0 <= j < i ==> ColumnMaps(schema, columns, row, j)) &&
                Failure(MapColumns(schema, columns, row, k).error) ==
                  ConvertColumn(FieldKindOf(schema, columns[i]), columns[i], row[i].value)
  {
    if k > 0 {
      MapColumnsMeaning(schema, columns, row, k - 1);
      var prev := MapColumns(schema, columns, row, k - 1);
      if prev.Success? && row[k - 1].Some? {
        var c := ConvertColumn(FieldKindOf(schema, columns[k - 1]), columns[k - 1], row[k - 1].value);
        if c.Success? {
          assert ColumnMaps(schema, columns, row, k - 1);
          var rec := prev.value[columns[k - 1] := c.value];
          assert MapColumns(schema, columns, row, k) == Success(rec);
          forall f | f in schema
            ensures FieldFromColumns(schema, columns, row, k, rec, f)
          {
            if f != columns[k - 1] {
              assert LastWrite(columns, row, f, k) == LastWrite(columns, row, f, k - 1);
              assert FieldFromColumns(schema, columns, row, k - 1, prev.value, f);
            }
          }
        } else {
          assert !ColumnMaps(schema, columns, row, k - 1);
          assert MapColumns(schema, columns, row, k) == Failure(c.error);
        }
      } else if prev.Success? {
        forall f | f in schema
          ensures FieldFromColumns(schema, columns, row, k, prev.value, f)
        {
          assert LastWrite(columns, row, f, k) == LastWrite(columns, row, f, k - 1);
          assert FieldFromColumns(schema, columns, row, k - 1, prev.value, f);
        }
      }
    }
  }

  /** A row maps exactly when it has one value per column and every non-null column's field accepts it. */
  lemma MapRowSucceeds(schema: Schema, columns: seq<string>, row: Row)
    ensures MapRow(schema, columns, row).Success? <==>
              |row| == |columns| && forall i :: 0 <= i < |columns| ==> ColumnMaps(schema, columns, row, i)
  {
    if |row| == |columns| {
      MapColumnsMeaning(schema, columns, row, |columns|);
    }
  }

  /**
   * A mapped record has every field of the struct, each of its kind; a field
   * with no non-null column of its name keeps its zero value; any other field
   * holds the conversion of the last non-null column of its name.
   */
  lemma MapRowFields(schema: Schema, columns: seq<string>, row: Row, f: string)
    requires MapRow(schema, columns, row).Success? && f in schema
    ensures |row| == |columns|
    ensures Conforms(MapRow(schema, columns, row).value, schema)
    ensures FieldFromColumns(schema, columns, row, |columns|, MapRow(schema, columns, row).value, f)
  {
    MapColumnsMeaning(schema, columns, row, |columns|);
  }

  /** A field whose columns are all NULL or absent keeps its zero value. */
  lemma NullColumnsKeepZero(schema: Schema, columns: seq<string>, row: Row, f: string)
    requires MapRow(schema, columns, row).Success? && f in schema
    requires forall i :: 0 <= i < |columns| && i < |row| && columns[i] == f ==> row[i].None?
    ensures f in MapRow(schema, columns, row).value
    ensures MapRow(schema, columns, row).value[f] == ZeroValue(schema[f])
  {
    MapRowFields(schema, columns, row, f);
  }

  /**
   * The field named by the last non-null column `i` gets the bytes verbatim
   * if it is a string, their unsigned or signed base-10 value if it is an
   * integer.
   */
  lemma MapRowFieldValue(schema: Schema, columns: seq<string>, row: Row, f: string)
    requires MapRow(schema, columns, row).Success? && f in schema
    requires |row| == |columns| && LastWrite(columns, row, f, |columns|) >= 0
    ensures f in MapRow(schema, columns, row).value
    ensures var i := LastWrite(columns, row, f, |columns|);
            var rec := MapRow(schema, columns, row).value;
            && (schema[f] == StringKind ==> rec[f] == StrValue(row[i].value))
            && (schema[f] == UintKind ==> AllDigits(row[i].value) && rec[f].UintValue? && rec[f].u == DecimalValue(row[i].value))
            && (schema[f] == IntKind ==> row[i].value != [] && AllDigits(Unsigned(row[i].value)) && rec[f].IntValue? && rec[f].i == SignedValue(row[i].value))
            && schema[f] != OtherKind
  {
    MapRowFields(schema, columns, row, f);
  }

  /**
   * A failed mapping reports the first column that does not map: a missing
   * or unsupported field as "Bad row value for column", malformed or
   * out-of-range text as the parser's error.
   */
  lemma MapRowFirstError(schema: Schema, columns: seq<string>, row: Row)
    requires MapRow(schema, columns, row).Failure? && |row| == |columns|
    ensures exists i :: 0 <= i < |columns| && !ColumnMaps(schema, columns, row, i) &&
              (forall j :: 0 <= j < i ==> ColumnMaps(schema, columns, row, j)) &&
              Failure(MapRow(schema, columns, row).error) ==
                ConvertColumn(FieldKindOf(schema, columns[i]), columns[i], row[i].value)
  {
    MapColumnsMeaning(schema, columns, row, |columns|);
  }

  /** A non-null column with no field of its name, or a field of another kind, makes the row fail. */
  lemma UnmatchedColumnFails(schema: Schema, columns: seq<string>, row: Row, i: nat)
    requires i < |columns| == |row| && row[i].Some?
    requires columns[i] !in schema || schema[columns[i]] == OtherKind
    ensures MapRow(schema, columns, row).Failure?
  {
    MapRowSucceeds(schema, columns, row);
    assert !ColumnMaps(schema, columns, row, i);
  }

  // ---------------------------------------------------------------------------
  // Select
  // ---------------------------------------------------------------------------

  /** The element type of the target slice, a pointer type: to a struct (with its schema) or to anything else. */
  datatype ElemType = PointerToStruct(schema: Schema) | PointerToNonStruct

  /**
   * The dynamic shape of `Select`'s `output`: not a pointer (including nil),
   * a pointer to something other than a slice (including a nil pointer), or
   * a pointer to a slice of `length` elements.
   */
  datatype SelectTarget = NonPointer | PointerToNonSlice | PointerToSlice(length: nat, elem: ElemType)

  /** The type checks of `Select`, in the order the source makes them. */
  function ShapeError(target: SelectTarget): (r: Option<Error>)
    ensures r.None? <==> target.PointerToSlice? && target.length == 0 && target.elem.PointerToStruct?
    ensures target.NonPointer? ==> r == Some(NotAPointer)
    ensures target.PointerToNonSlice? ==> r == Some(NotASlice)
    ensures target.PointerToSlice? && target.length != 0 ==> r == Some(NotEmpty)
    ensures target == PointerToSlice(0, PointerToNonStruct) ==> r == Some(NotSliceOfStructs)
  {
    match target
    case NonPointer => Some(NotAPointer)
    case PointerToNonSlice => Some(NotASlice)
    case PointerToSlice(length, elem) =>
      if length != 0 then Some(NotEmpty)
      else if !elem.PointerToStruct? then Some(NotSliceOfStructs)
      else None
  }

  /** The records `Select` has appended to the output slice, and the error it returns. */
  datatype Collected = Collected(written: seq<Record>, error: Option<Error>)

  /** The `rows.Next()` loop of `Select` after `k` rows. */
  function CollectRows(schema: Schema, columns: seq<string>, rows: seq<Row>, k: nat): Collected
    requires k <= |rows|
  {
    if k == 0 then Collected([], None)
    else
      var prev := CollectRows(schema, columns, rows, k - 1);
      if prev.error.Some? then prev
      else
        match MapRow(schema, columns, rows[k - 1])
        case Failure(e) => Collected(prev.written, Some(e))
        case Success(rec) => Collected(prev.written + [rec], None)
  }

  lemma {:induction false} CollectRowsStops(schema: Schema, columns: seq<string>, rows: seq<Row>, k: nat, m: nat)
    requires k <= m <= |rows| && CollectRows(schema, columns, rows, k).error.Some?
    ensures CollectRows(schema, columns, rows, m) == CollectRows(schema, columns, rows, k)
    decreases m
  {
    if m > k {
      CollectRowsStops(schema, columns, rows, k, m - 1);
    }
  }

  /** The loop of `Select`: map each row in turn and append its record, stopping at the first row that fails. */
  method CollectRecords(schema: Schema, columns: seq<string>, rows: seq<Row>) returns (written: seq<Record>, err: Option<Error>)
    ensures Collected(written, err) == CollectRows(schema, columns, rows, |rows|)
  {
    written, err := [], None;
    var i := 0;
    while i < |rows|
      invariant i <= |rows|
      invariant CollectRows(schema, columns, rows, i) == Collected(written, None)
    {
      var r := StructFromRow(schema, columns, rows[i]);
      if r.Failure? {
        err := Some(r.error);
        CollectRowsStops(schema, columns, rows, i + 1, |rows|);
        return;
      }
      written := written + [r.value];
      i := i + 1;
    }
  }

  lemma {:induction false} CollectRowsMeaning(schema: Schema, columns: seq<string>, rows: seq<Row>, k: nat)
    requires k <= |rows|
    ensures var c := CollectRows(schema, columns, rows, k);
            (c.error.None? <==> forall i :: 0 <= i < k ==> MapRow(schema, columns, rows[i]).Success?) &&
            (c.error.None? ==> |c.written| == k) &&
            (c.error.Some? ==> |c.written| < k && MapRow(schema, columns, rows[|c.written|]).Failure? &&
                               c.error == Some(MapRow(schema, columns, rows[|c.written|]).error)) &&
            (forall i :: 0 <= i < |c.written| ==> Success(c.written[i]) == MapRow(schema, columns, rows[i]))
  {
    if k > 0 {
      CollectRowsMeaning(schema, columns, rows, k - 1);
    }
  }

  /**
   * `Select` yields one record per row, in row order, when every row maps;
   * otherwise it stops at the first row that fails, returns that row's
   * error, and the records of the rows before it stay in the output.
   */
  lemma SelectRowsMeaning(schema: Schema, columns: seq<string>, rows: seq<Row>)
    ensures var c := CollectRows(schema, columns, rows, |rows|);
            (c.error.None? <==> forall i :: 0 <= i < |rows| ==> MapRow(schema, columns, rows[i]).Success?) &&
            (c.error.None? ==> |c.written| == |rows|) &&
            (c.error.Some? ==> |c.written| < |rows| && MapRow(schema, columns, rows[|c.written|]).Failure? &&
                               (forall i :: 0 <= i < |c.written| ==> MapRow(schema, columns, rows[i]).Success?) &&
                               c.error == Some(MapRow(schema, columns, rows[|c.written|]).error)) &&
            (forall i :: 0 <= i < |c.written| ==> Success(c.written[i]) == MapRow(schema, columns, rows[i]))
  {
    CollectRowsMeaning(schema, columns, rows, |rows|);
  }

  // ---------------------------------------------------------------------------
  // SelectOne
  // ---------------------------------------------------------------------------

  /** The record `SelectOne` stores in `*output` (if any), and the error it returns. */
  datatype Single = Single(stored: Option<Record>, error: Option<Error>)

  /**
   * `SelectOne` once the query has run: no row is "got none"; a first row
   * that fails to map is that error; otherwise the record is stored, and a
   * second row is then "got multiple rows".
   */
  function SingleRecord(schema: Schema, rs: ResultSet, query: string, args: seq<Arg>): (r: Single)
    ensures r.error.None? <==> |rs.rows| == 1 && MapRow(schema, rs.columns, rs.rows[0]).Success?
    ensures r.stored.Some? <==> rs.rows != [] && MapRow(schema, rs.columns, rs.rows[0]).Success?
    ensures r.stored.Some? ==> Success(r.stored.value) == MapRow(schema, rs.columns, rs.rows[0])
    ensures rs.rows == [] ==> r.error == Some(GotNone(query, args))
    ensures |rs.rows| > 1 && r.stored.Some? ==> r.error == Some(GotMultipleRows(query, args))
    ensures rs.rows != [] && MapRow(schema, rs.columns, rs.rows[0]).Failure? ==>
              r == Single(None, Some(MapRow(schema, rs.columns, rs.rows[0]).error))
  {
    if rs.rows == [] then Single(None, Some(GotNone(query, args)))
    else
      match MapRow(schema, rs.columns, rs.rows[0])
      case Failure(e) => Single(None, Some(e))
      case Success(rec) =>
        Single(Some(rec), if |rs.rows| > 1 then Some(GotMultipleRows(query, args)) else None)
  }

  /**
   * `SelectOne` and `Select` map the first row alike: whatever `SelectOne`
   * assigns is the first record `Select` writes, and on a one-row result the
   * two succeed together.
   */
  lemma SingleRecordAgreesWithSelect(schema: Schema, rs: ResultSet, query: string, args: seq<Arg>)
    ensures var s := SingleRecord(schema, rs, query, args);
            var c := CollectRows(schema, rs.columns, rs.rows, |rs.rows|);
            (s.stored.Some? ==> c.written != [] && c.written[0] == s.stored.value) &&
            (|rs.rows| == 1 ==> ((s.error.None? <==> c.error.None?) &&
                                (s.error.None? ==> c.written == [s.stored.value])))
  {
    SelectRowsMeaning(schema, rs.columns, rs.rows);
    var c := CollectRows(schema, rs.columns, rs.rows, |rs.rows|);
    if rs.rows != [] && MapRow(schema, rs.columns, rs.rows[0]).Success? {
      assert |c.written| > 0;
    }
  }
}
