/**
 * The connection pool: a fixed set of open connections kept in a buffered
 * channel, which every operation receives one handle from and sends it
 * back to. The channel is modelled as its buffer, a FIFO sequence, used by
 * one caller at a time.
 */
module ConnPool {
  import opened Outcomes
  import opened Numbers
  import opened Driver
  import opened Errors
  import opened Args
  import opened Mapping
  import opened Scalars

  /** No handle appears twice. */
  predicate Distinct(handles: seq<Conn>) {
    forall i, j :: 0 <= i < j < |handles| ==> handles[i] != handles[j]
  }

  /** The buffer after one operation has taken the head handle and put it back at the tail. */
  predicate Rotated(before: seq<Conn>, after: seq<Conn>) {
    before != [] && after == before[1..] + [before[0]]
  }

  /** Taking a handle and putting it back keeps the same handles, each once. */
  lemma RotationConserves(before: seq<Conn>, after: seq<Conn>)
    requires Rotated(before, after) && Distinct(before)
    ensures Distinct(after) && |after| == |before| && multiset(after) == multiset(before)
  {
    assert before == [before[0]] + before[1..];
  }

  /**
   * The error `NewPool` stops at: the first data source, in order, whose
   * `sql.Open` or whose `Ping` fails.
   */
  function FirstOpenFailure(sources: seq<string>, open: string -> Option<DriverError>,
                            ping: string -> Option<DriverError>): Option<DriverError>
  {
    if sources == [] then None
    else if open(sources[0]).Some? then open(sources[0])
    else if ping(sources[0]).Some? then ping(sources[0])
    else FirstOpenFailure(sources[1..], open, ping)
  }

  /**
   * Construction fails exactly when some source fails to open or to answer
   * the ping, and then with the error of the first such source.
   */
  lemma {:induction false} FirstOpenFailureMeaning(sources: seq<string>, open: string -> Option<DriverError>,
                                                   ping: string -> Option<DriverError>)
    ensures FirstOpenFailure(sources, open, ping).None? <==>
              forall i :: 0 <= i < |sources| ==> open(sources[i]).None? && ping(sources[i]).None?
    ensures FirstOpenFailure(sources, open, ping).Some? ==>
              exists i :: 0 <= i < |sources| &&
                (forall j :: 0 <= j < i ==> open(sources[j]).None? && ping(sources[j]).None?) &&
                FirstOpenFailure(sources, open, ping) == (if open(sources[i]).Some? then open(sources[i]) else ping(sources[i]))
  {
    if sources != [] && open(sources[0]).None? && ping(sources[0]).None? {
      FirstOpenFailureMeaning(sources[1..], open, ping);
      var r := FirstOpenFailure(sources, open, ping);
      if r.Some? {
        var k :| 0 <= k < |sources| - 1 &&
                 (forall j :: 0 <= j < k ==> open(sources[1..][j]).None? && ping(sources[1..][j]).None?) &&
                 r == (if open(sources[1..][k]).Some? then open(sources[1..][k]) else ping(sources[1..][k]));
        assert forall j :: 0 <= j < k + 1 ==> open(sources[j]).None? && ping(sources[j]).None? by {
          forall j | 0 <= j < k + 1
            ensures open(sources[j]).None? && ping(sources[j]).None?
          {
            if j > 0 {
              assert sources[j] == sources[1..][j - 1];
            }
          }
        }
        assert sources[k + 1] == sources[1..][k];
      } else {
        forall i | 0 <= i < |sources|
          ensures open(sources[i]).None? && ping(sources[i]).None?
        {
          if i > 0 {
            assert sources[i] == sources[1..][i - 1];
          }
        }
      }
    }
  }

  /** What `Pool.Query` returns when it runs on `conn`: the driver's rows, or its error wrapped with the query and the normalised arguments. */
  function QueryThrough(backend: Backend, conn: Conn, query: string, args: seq<Arg>): Result<ResultSet, Error> {
    var fixed := FixedArgs(args);
    match backend.query(conn, query, fixed)
    case Failure(cause) => Failure(QueryFailed(cause, query, fixed))
    case Success(rs) => Success(rs)
  }

  /** What `Pool.Exec` returns when it runs on `conn`. */
  function ExecThrough(backend: Backend, conn: Conn, query: string, args: seq<Arg>): Result<ExecResult, Error> {
    var fixed := FixedArgs(args);
    match backend.exec(conn, query, fixed)
    case Failure(cause) => Failure(ExecFailed(cause, query, fixed))
    case Success(res) => Success(res)
  }

  /**
   * `NewPool`: open and ping one connection per data source, in order, and
   * queue them; the first failure abandons construction and no pool is
   * returned.
   */
  method NewPool(sources: seq<string>, open: string -> Option<DriverError>, ping: string -> Option<DriverError>)
    returns (pool: Pool?, err: Option<DriverError>)
    ensures err == FirstOpenFailure(sources, open, ping)
    ensures pool == null <==> err.Some?
    ensures pool != null ==> fresh(pool) && pool.Valid() && pool.capacity == |sources|
    ensures pool != null ==> forall i :: 0 <= i < |sources| ==> fresh(pool.queue[i]) && pool.queue[i].source == sources[i]
  {
    var queue: seq<Conn> := [];
    err := None;
    for i := 0 to |sources|
      invariant |queue| == i && Distinct(queue)
      invariant forall j :: 0 <= j < i ==> fresh(queue[j]) && queue[j].source == sources[j]
      invariant FirstOpenFailure(sources, open, ping) == FirstOpenFailure(sources[i..], open, ping)
      invariant err.None?
    {
      assert sources[i..][1..] == sources[i + 1..];
      err := open(sources[i]);
      if err.Some? {
        return null, err;
      }
      var conn := new Conn.Open(sources[i]);
      err := ping(sources[i]);
      if err.Some? {
        return null, err;
      }
      queue := queue + [conn];
    }
    pool := new Pool(queue);
  }

  class Pool {
    /** The buffered channel's contents; the head is the handle received next. */
    var queue: seq<Conn>
    /** The channel's capacity, one slot per data source. */
    const capacity: nat

    /** Every handle is back in the channel between operations, each exactly once. */
    ghost predicate Valid()
      reads this
    {
      |queue| == capacity && Distinct(queue)
    }

    /** `&Pool{queue}` over a channel filled with `handles`. */
    constructor (handles: seq<Conn>)
      requires Distinct(handles)
      ensures Valid() && queue == handles && capacity == |handles|
    {
      queue := handles;
      capacity := |handles|;
    }

    /**
     * `Query`: take a handle, normalise the arguments in place, run the
     * query on that handle and put the handle back, whatever the driver
     * answered. An empty pool would block forever; a caller must not use one.
     */
    method Query(backend: Backend, query: string, args: array<Arg>) returns (r: Result<ResultSet, Error>)
      requires Valid() && capacity > 0
      modifies this, args
      ensures Valid() && Rotated(old(queue), queue) && multiset(queue) == multiset(old(queue))
      ensures args[..] == FixedArgs(old(args[..]))
      ensures r == QueryThrough(backend, old(queue[0]), query, old(args[..]))
    {
      var conn := queue[0];
      queue := queue[1..];
      FixArgs(args);
      match backend.query(conn, query, args[..]) {
        case Failure(cause) =>
          r := Failure(QueryFailed(cause, query, args[..]));
        case Success(rs) =>
          r := Success(rs);
      }
      queue := queue + [conn];
      RotationConserves(old(queue), queue);
    }

    /** `Exec`: the same bracket around the driver's exec. */
    method Exec(backend: Backend, query: string, args: array<Arg>) returns (r: Result<ExecResult, Error>)
      requires Valid() && capacity > 0
      modifies this, args
      ensures Valid() && Rotated(old(queue), queue) && multiset(queue) == multiset(old(queue))
      ensures args[..] == FixedArgs(old(args[..]))
      ensures r == ExecThrough(backend, old(queue[0]), query, old(args[..]))
    {
      var conn := queue[0];
      queue := queue[1..];
      FixArgs(args);
      match backend.exec(conn, query, args[..]) {
        case Failure(cause) =>
          r := Failure(ExecFailed(cause, query, args[..]));
        case Success(res) =>
          r := Success(res);
      }
      queue := queue + [conn];
      RotationConserves(old(queue), queue);
    }

    /** `queryOne`: run the query and read at most one row of one column. */
    method QueryOne(backend: Backend, kind: ScalarKind, query: string, args: array<Arg>) returns (r: ScalarRead)
      requires Valid() && capacity > 0
      modifies this, args
      ensures Valid() && Rotated(old(queue), queue) && multiset(queue) == multiset(old(queue))
      ensures args[..] == FixedArgs(old(args[..]))
      ensures r == QueryOneOutcome(kind, QueryThrough(backend, old(queue[0]), query, old(args[..])))
    {
      var rows := Query(backend, query, args);
      r := QueryOneOutcome(kind, rows);
    }

    /** `SelectInt`: `queryOne` into an `int` (64 bits). */
    method SelectInt(backend: Backend, query: string, args: array<Arg>) returns (num: Int64, found: bool, err: Option<Error>)
      requires Valid() && capacity > 0
      modifies this, args
      ensures Valid() && Rotated(old(queue), queue) && multiset(queue) == multiset(old(queue))
      ensures args[..] == FixedArgs(old(args[..]))
      ensures ScalarRead(IntValue(num), found, err) ==
              QueryOneOutcome(IntScalar, QueryThrough(backend, old(queue[0]), query, old(args[..])))
    {
      var r := QueryOne(backend, IntScalar, query, args);
      num, found, err := r.value.i, r.found, r.error;
    }

    /** `SelectUInt`: `queryOne` into a `uint` (64 bits). */
    method SelectUInt(backend: Backend, query: string, args: array<Arg>) returns (num: UInt64, found: bool, err: Option<Error>)
      requires Valid() && capacity > 0
      modifies this, args
      ensures Valid() && Rotated(old(queue), queue) && multiset(queue) == multiset(old(queue))
      ensures args[..] == FixedArgs(old(args[..]))
      ensures ScalarRead(UintValue(num), found, err) ==
              QueryOneOutcome(UintScalar, QueryThrough(backend, old(queue[0]), query, old(args[..])))
    {
      var r := QueryOne(backend, UintScalar, query, args);
      num, found, err := r.value.u, r.found, r.error;
    }

    /** `SelectString`: `queryOne` into a `string`. */
    method SelectString(backend: Backend, query: string, args: array<Arg>) returns (str: Bytes, found: bool, err: Option<Error>)
      requires Valid() && capacity > 0
      modifies this, args
      ensures Valid() && Rotated(old(queue), queue) && multiset(queue) == multiset(old(queue))
      ensures args[..] == FixedArgs(old(args[..]))
      ensures ScalarRead(StrValue(str), found, err) ==
              QueryOneOutcome(StringScalar, QueryThrough(backend, old(queue[0]), query, old(args[..])))
    {
      var r := QueryOne(backend, StringScalar, query, args);
      str, found, err := r.value.bytes, r.found, r.error;
    }

    /** `UpdateOne`: exec, then demand that exactly one row was affected. */
    method UpdateOne(backend: Backend, query: string, args: array<Arg>) returns (err: Option<Error>)
      requires Valid() && capacity > 0
      modifies this, args
      ensures Valid() && Rotated(old(queue), queue) && multiset(queue) == multiset(old(queue))
      ensures args[..] == FixedArgs(old(args[..]))
      ensures err == UpdateOneOutcome(ExecThrough(backend, old(queue[0]), query, old(args[..])), query, args[..])
    {
      var res := Exec(backend, query, args);
      err := UpdateOneOutcome(res, query, args[..]);
    }

    /** `Insert`: exec, then return the generated id. */
    method Insert(backend: Backend, query: string, args: array<Arg>) returns (id: Int64, err: Option<Error>)
      requires Valid() && capacity > 0
      modifies this, args
      ensures Valid() && Rotated(old(queue), queue) && multiset(queue) == multiset(old(queue))
      ensures args[..] == FixedArgs(old(args[..]))
      ensures Inserted(id, err) == InsertOutcome(ExecThrough(backend, old(queue[0]), query, old(args[..])))
    {
      var res := Exec(backend, query, args);
      var r := InsertOutcome(res);
      id, err := r.id, r.error;
    }

    /** `InsertIgnoreId`: `Insert`, returning only its error. */
    method InsertIgnoreId(backend: Backend, query: string, args: array<Arg>) returns (err: Option<Error>)
      requires Valid() && capacity > 0
      modifies this, args
      ensures Valid() && Rotated(old(queue), queue) && multiset(queue) == multiset(old(queue))
      ensures args[..] == FixedArgs(old(args[..]))
      ensures err == InsertOutcome(ExecThrough(backend, old(queue[0]), query, old(args[..]))).error
    {
      var _, e := Insert(backend, query, args);
      err := e;
    }

    /**
     * `Select`: check the target's shape before touching the pool, run the
     * query, and append one record per row to the (empty) output slice.
     * `written` is what the call appends to the caller's slice.
     */
    method Select(backend: Backend, target: SelectTarget, query: string, args: array<Arg>)
      returns (written: seq<Record>, err: Option<Error>)
      requires Valid()
      requires ShapeError(target).None? ==> capacity > 0
      modifies this, args
      ensures Valid()
      ensures ShapeError(target).Some? ==>
                written == [] && err == ShapeError(target) && queue == old(queue) && args[..] == old(args[..])
      ensures ShapeError(target).None? ==>
                Rotated(old(queue), queue) && multiset(queue) == multiset(old(queue)) &&
                args[..] == FixedArgs(old(args[..]))
      ensures ShapeError(target).None? ==>
                match QueryThrough(backend, old(queue[0]), query, old(args[..]))
                case Failure(e) => written == [] && err == Some(e)
                case Success(rs) =>
                  Collected(written, err) == CollectRows(target.elem.schema, rs.columns, rs.rows, |rs.rows|)
    {
      written := [];
      err := ShapeError(target);
      if err.Some? {
        return;
      }
      var rows := Query(backend, query, args);
      if rows.Failure? {
        err := Some(rows.error);
        return;
      }
      written, err := CollectRecords(target.elem.schema, rows.value.columns, rows.value.rows);
    }

    /**
     * `SelectOne` into a `**S` whose struct has `schema`: run the query and
     * store the first row's record in `*output` if there is one; `stored`
     * is what the call stores there.
     */
    method SelectOne(backend: Backend, schema: Schema, query: string, args: array<Arg>)
      returns (stored: Option<Record>, err: Option<Error>)
      requires Valid() && capacity > 0
      modifies this, args
      ensures Valid() && Rotated(old(queue), queue) && multiset(queue) == multiset(old(queue))
      ensures args[..] == FixedArgs(old(args[..]))
      ensures match QueryThrough(backend, old(queue[0]), query, old(args[..]))
              case Failure(e) => stored.None? && err == Some(e)
              case Success(rs) => Single(stored, err) == SingleRecord(schema, rs, query, args[..])
    {
      var rows := Query(backend, query, args);
      if rows.Failure? {
        return None, Some(rows.error);
      }
      var r := SingleRecord(schema, rows.value, query, args[..]);
      stored, err := r.stored, r.error;
    }
  }
}
