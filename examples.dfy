/** Concrete scenarios worked through the model. */
module Scenarios {
  import opened Outcomes
  import opened Numbers
  import opened Driver
  import opened Errors
  import opened Mapping
  import opened Scalars

  /** The bytes of an ASCII string. */
  function Ascii(s: string): (b: Bytes)
    requires forall i :: 0 <= i < |s| ==> s[i] as int < 256
    ensures |b| == |s| && forall i :: 0 <= i < |s| ==> b[i] == s[i] as int
  {
    if s == [] then [] else [s[0] as int] + Ascii(s[1..])
  }

  const PERSON: Schema := map["Id" := UintKind, "Name" := StringKind]

  /** A `{Id, Name}` row with both columns set maps onto the record holding the parsed id and the name. */
  lemma PersonRow(idText: Bytes, id: UInt64, name: Bytes)
    requires ParseUint64(idText) == Success(id)
    ensures MapRow(PERSON, ["Id", "Name"], [Some(idText), Some(name)])
            == Success(map["Id" := UintValue(id), "Name" := StrValue(name)])
  {
    var columns := ["Id", "Name"];
    var row := [Some(idText), Some(name)];
    var zero := ZeroRecord(PERSON);
    assert zero == map["Id" := UintValue(0), "Name" := StrValue([])];
    assert MapColumns(PERSON, columns, row, 1) == Success(zero["Id" := UintValue(id)]);
    assert MapColumns(PERSON, columns, row, 2) == Success(zero["Id" := UintValue(id)]["Name" := StrValue(name)]);
    assert zero["Id" := UintValue(id)]["Name" := StrValue(name)] == map["Id" := UintValue(id), "Name" := StrValue(name)];
    assert MapRow(PERSON, columns, row) == MapColumns(PERSON, columns, row, 2);
  }

  /** Two rows mapped onto `{Id uint; Name string}` come back as two records, in row order. */
  lemma SelectTwoPeople()
    ensures CollectRows(PERSON, ["Id", "Name"],
                        [[Some(Ascii("1")), Some(Ascii("Alice"))], [Some(Ascii("2")), Some(Ascii("Bob"))]], 2)
            == Collected([map["Id" := UintValue(1), "Name" := StrValue(Ascii("Alice"))],
                          map["Id" := UintValue(2), "Name" := StrValue(Ascii("Bob"))]], None)
  {
    assert ParseUint64(Ascii("1")) == Success(1);
    assert ParseUint64(Ascii("2")) == Success(2);
    PersonRow(Ascii("1"), 1, Ascii("Alice"));
    PersonRow(Ascii("2"), 2, Ascii("Bob"));
  }

  /** A NULL name leaves the field empty instead of failing. */
  lemma NullNameStaysEmpty()
    ensures MapRow(PERSON, ["Id", "Name"], [Some(Ascii("7")), None])
            == Success(map["Id" := UintValue(7), "Name" := StrValue([])])
  {
    var columns := ["Id", "Name"];
    var row := [Some(Ascii("7")), None];
    var zero := ZeroRecord(PERSON);
    assert zero == map["Id" := UintValue(0), "Name" := StrValue([])];
    assert ParseUint64(Ascii("7")) == Success(7);
    assert MapColumns(PERSON, columns, row, 1) == Success(zero["Id" := UintValue(7)]);
    assert MapColumns(PERSON, columns, row, 2) == Success(zero["Id" := UintValue(7)]);
    assert zero["Id" := UintValue(7)] == map["Id" := UintValue(7), "Name" := StrValue([])];
    assert MapRow(PERSON, columns, row) == MapColumns(PERSON, columns, row, 2);
  }

  /** A column whose field is of an unsupported kind is rejected by name. */
  lemma UnsupportedFieldRejected()
    ensures MapRow(map["Score" := OtherKind], ["Score"], [Some(Ascii("1.5"))]) == Failure(BadRowValue("Score"))
  {
  }

  /** `SelectOne` on zero, one and two rows. */
  lemma SelectOneCounts(query: string, args: seq<Arg>)
    ensures var carol := [Some(Ascii("7")), Some(Ascii("Carol"))];
            var record := map["Id" := UintValue(7), "Name" := StrValue(Ascii("Carol"))];
            && SingleRecord(PERSON, ResultSet(["Id", "Name"], []), query, args) == Single(None, Some(GotNone(query, args)))
            && SingleRecord(PERSON, ResultSet(["Id", "Name"], [carol]), query, args) == Single(Some(record), None)
            && SingleRecord(PERSON, ResultSet(["Id", "Name"], [carol, carol]), query, args)
               == Single(Some(record), Some(GotMultipleRows(query, args)))
  {
    assert ParseUint64(Ascii("7")) == Success(7);
    PersonRow(Ascii("7"), 7, Ascii("Carol"));
  }

  /** `UpdateOne` accepts one affected row and reports 0 or 2 with the count. */
  lemma UpdateOneCounts(query: string, args: seq<Arg>)
    ensures UpdateOneOutcome(Success(ExecResult(1, None, 0, None)), query, args).None?
    ensures UpdateOneOutcome(Success(ExecResult(0, None, 0, None)), query, args) == Some(UpdateOneAffected(0, query, args))
    ensures UpdateOneOutcome(Success(ExecResult(2, None, 0, None)), query, args) == Some(UpdateOneAffected(2, query, args))
  {
  }
}
