/**
 * `SQLite.swift`: result-code classification, the error value, and the
 * connection and statement objects. The native sqlite3 calls are not
 * modelled: the return code of each call is a parameter, and the connection
 * records the calls it made so that their order can be stated.
 */
module SQLite {
  import opened Wrappers

  const SQLITE_OK: int := 0
  const SQLITE_ROW: int := 100
  const SQLITE_DONE: int := 101

  datatype SQLiteError = SQLiteError(code: int, message: string)

  /** `SQLiteError ==`: two errors are equal when their codes are. */
  predicate Same(lhs: SQLiteError, rhs: SQLiteError)
  {
    lhs.code == rhs.code
  }

  /** The codes `processResult` lets through. */
  predicate IsSuccess(rc: int)
  {
    rc == SQLITE_ROW || rc == SQLITE_DONE || rc == SQLITE_OK
  }

  /**
   * What one native call answers: its return code, and what
   * `sqlite3_errcode` and `sqlite3_errmsg` report on the connection right
   * after it. Each failing call is reported with its own code and message.
   */
  datatype Answer = Answer(rc: int, errcode: int, errmsg: string)

  /** A native call made on a connection, with the code it returned. */
  datatype Call = Prepare(query: string, rc: int) | Step(query: string, rc: int)

  /** The answers to a prepare and to the step after it. */
  datatype Codes = Codes(prepare: Answer, step: Answer)

  /** `processResult`: the three success codes pass; any other code raises the error the connection reports after that call. */
  function ProcessResult(a: Answer): (r: Result<(), SQLiteError>)
  {
    if IsSuccess(a.rc) then Ok(()) else Err(SQLiteError(a.errcode, a.errmsg))
  }

  /** The calls `execute(query)` makes: a prepare and, when it succeeds, one step. */
  function ExecuteCalls(query: string, codes: Codes): (r: seq<Call>)
    ensures 1 <= |r| <= 2 && r[0] == Prepare(query, codes.prepare.rc)
    ensures |r| == 2 <==> IsSuccess(codes.prepare.rc)
    ensures |r| == 2 ==> r[1] == Step(query, codes.step.rc)
  {
    [Prepare(query, codes.prepare.rc)] + (if IsSuccess(codes.prepare.rc) then [Step(query, codes.step.rc)] else [])
  }

  /** What `execute(query)` returns for the given answers. */
  function ExecuteOutcome(codes: Codes): (r: Result<(), SQLiteError>)
  {
    if !IsSuccess(codes.prepare.rc) then ProcessResult(codes.prepare) else ProcessResult(codes.step)
  }

  class Database {
    const path: string
    /** The native calls made on this connection, oldest first. */
    var calls: seq<Call>

    constructor (path: string)
      ensures this.path == path
      ensures calls == []
    {
      this.path := path;
      calls := [];
    }

    /** `prepare`: the prepare call, then a fresh statement, or the error the connection reports. */
    method Prepare(query: string, a: Answer) returns (r: Result<Statement, SQLiteError>)
      modifies this
      ensures calls == old(calls) + [Call.Prepare(query, a.rc)]
      ensures r.Ok? <==> IsSuccess(a.rc)
      ensures r.Err? ==> r.error == SQLiteError(a.errcode, a.errmsg)
      ensures r.Ok? ==> fresh(r.value) && r.value.query == query && r.value.database == this && !r.value.hasMoreRows
    {
      calls := calls + [Call.Prepare(query, a.rc)];
      var checked := ProcessResult(a);
      if checked.Err? {
        return Err(checked.error);
      }
      var statement := new Statement(query, this);
      return Ok(statement);
    }

    /** `execute`: prepare, then exactly one step; rows after the first are not fetched. */
    method Execute(query: string, codes: Codes) returns (r: Result<(), SQLiteError>)
      modifies this
      ensures calls == old(calls) + ExecuteCalls(query, codes)
      ensures r == ExecuteOutcome(codes)
    {
      var prepared := Prepare(query, codes.prepare);
      if prepared.Err? {
        return Err(prepared.error);
      }
      var statement := prepared.value;
      r := statement.Step(codes.step);
    }
  }

  class Statement {
    const query: string
    const database: Database
    /** Whether the last step produced a row. */
    var hasMoreRows: bool

    constructor (query: string, database: Database)
      ensures this.query == query && this.database == database
      ensures !hasMoreRows
    {
      this.query := query;
      this.database := database;
      hasMoreRows := false;
    }

    /** `step`: records whether a row came back before the result is checked, so a failed step leaves no row. */
    method Step(a: Answer) returns (r: Result<(), SQLiteError>)
      modifies this, database
      ensures hasMoreRows <==> a.rc == SQLITE_ROW
      ensures r == ProcessResult(a)
      ensures database.calls == old(database.calls) + [Call.Step(query, a.rc)]
    {
      database.calls := database.calls + [Call.Step(query, a.rc)];
      hasMoreRows := a.rc == SQLITE_ROW;
      r := ProcessResult(a);
    }
  }

  /** `init(named:)` past the file lookup: the open call, then the connection or the error it reports. */
  method Open(path: string, a: Answer) returns (r: Result<Database, SQLiteError>)
    ensures r.Ok? <==> IsSuccess(a.rc)
    ensures r.Ok? ==> fresh(r.value) && r.value.path == path && r.value.calls == []
    ensures r.Err? ==> r.error == SQLiteError(a.errcode, a.errmsg)
  {
    var db := new Database(path);
    var checked := ProcessResult(a);
    if checked.Err? {
      return Err(checked.error);
    }
    return Ok(db);
  }

  // ----- properties -----

  /** `processResult` succeeds exactly for ROW, DONE and OK, and otherwise carries the code and message reported after that call. */
  lemma ProcessResultClassifies(a: Answer)
    ensures ProcessResult(a).Ok? <==> a.rc in {SQLITE_OK, SQLITE_ROW, SQLITE_DONE}
    ensures ProcessResult(a).Err? ==> ProcessResult(a).error.code == a.errcode && ProcessResult(a).error.message == a.errmsg
  {
  }

  /** Error equality is an equivalence that ignores the message, and so is coarser than equality of the values. */
  lemma SameIgnoresMessage(a: SQLiteError, b: SQLiteError, c: SQLiteError)
    ensures Same(a, a)
    ensures Same(a, b) ==> Same(b, a)
    ensures Same(a, b) && Same(b, c) ==> Same(a, c)
    ensures Same(SQLiteError(a.code, a.message), SQLiteError(a.code, b.message))
    ensures a == b ==> Same(a, b)
  {
  }

  /**
   * An `execute` whose prepare succeeds made exactly one step, and it
   * succeeds when both codes pass; a failure is reported with the error of
   * the call that failed.
   */
  lemma ExecuteStepsOnce(query: string, codes: Codes)
    ensures IsSuccess(codes.prepare.rc) ==> |ExecuteCalls(query, codes)| == 2 && ExecuteCalls(query, codes)[1].Step?
    ensures ExecuteOutcome(codes).Ok? <==> IsSuccess(codes.prepare.rc) && IsSuccess(codes.step.rc)
    ensures !IsSuccess(codes.prepare.rc) ==> ExecuteOutcome(codes) == Err(SQLiteError(codes.prepare.errcode, codes.prepare.errmsg))
    ensures IsSuccess(codes.prepare.rc) && !IsSuccess(codes.step.rc) ==> ExecuteOutcome(codes) == Err(SQLiteError(codes.step.errcode, codes.step.errmsg))
  {
  }
}
