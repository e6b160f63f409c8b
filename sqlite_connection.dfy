/**
 * `SQLiteConnection.swift`: the read/write brackets, connection setup for a
 * file and for an in-memory database, and file deletion. The transaction
 * body, the file system and the native open are not modelled: their
 * outcomes are parameters.
 */
module SQLiteConnection {
  import opened Wrappers
  import opened SQLite

  /** The errors that can leave a connection operation. */
  datatype Failure = Engine(error: SQLiteError) | FileSystem(reason: string) | Thrown(reason: string)

  /** A transaction body: the calls it makes on the connection and how it ends. */
  datatype Body<T> = Body(calls: seq<Call>, outcome: Result<T, Failure>)

  /** The native layer's answers during setup: to the open call and to the pragma's prepare and step. */
  datatype SetupAnswers = SetupAnswers(open: Answer, pragma: Codes)

  const BEGIN: string := "BEGIN TRANSACTION;"
  const END: string := "END TRANSACTION;"
  const PRAGMA: string := "PRAGMA foreign_keys=ON;"

  datatype FileReference = Name(name: string) | Path(path: string)

  /**
   * `resolvePath`: a path is used as given; a name is looked up in the
   * documents directory, whose outcome is the parameter `lookup`.
   */
  function ResolvePath(file: FileReference, lookup: Result<string, Failure>): (r: Result<string, Failure>)
    ensures file.Path? ==> r == Ok(file.path)
    ensures file.Name? ==> r == lookup
  {
    match file
    case Name(_) => lookup
    case Path(p) => Ok(p)
  }

  function Lift(r: Result<(), SQLiteError>): Option<Failure>
  {
    if r.Ok? then None else Some(Engine(r.error))
  }

  /** The outcome of the write bracket once setup has succeeded. */
  function BracketOutcome(begin: Codes, body: Body<()>, end: Codes): Option<Failure>
  {
    if ExecuteOutcome(begin).Err? then Lift(ExecuteOutcome(begin))
    else if ExecuteOutcome(end).Err? then Lift(ExecuteOutcome(end))
    else if body.outcome.Err? then Some(body.outcome.error)
    else None
  }

  /** The calls the write bracket makes once setup has succeeded. */
  function BracketCalls(begin: Codes, body: Body<()>, end: Codes): seq<Call>
  {
    if ExecuteOutcome(begin).Err? then ExecuteCalls(BEGIN, begin)
    else ExecuteCalls(BEGIN, begin) + body.calls + ExecuteCalls(END, end)
  }

  /**
   * How opening a connection fails, if it does: the path lookup's error
   * first, then the open's, then the pragma's.
   */
  function SetupFailure(file: FileReference, lookup: Result<string, Failure>, answers: SetupAnswers): (r: Option<Failure>)
    ensures r.None? <==>
      ResolvePath(file, lookup).Ok? && IsSuccess(answers.open.rc)
      && IsSuccess(answers.pragma.prepare.rc) && IsSuccess(answers.pragma.step.rc)
    ensures r.Some? && ResolvePath(file, lookup).Ok? ==> r.value.Engine?
  {
    var path := ResolvePath(file, lookup);
    if path.Err? then Some(path.error)
    else if !IsSuccess(answers.open.rc) then Some(Engine(SQLiteError(answers.open.errcode, answers.open.errmsg)))
    else Lift(ExecuteOutcome(answers.pragma))
  }

  /**
   * The body of `write` after setup: BEGIN, the body, END whatever the body
   * did, then the body's error. A failing END wins over the body's error.
   */
  method Bracket(db: Database, begin: Codes, body: Body<()>, end: Codes) returns (r: Option<Failure>)
    modifies db
    ensures db.calls == old(db.calls) + BracketCalls(begin, body, end)
    ensures r == BracketOutcome(begin, body, end)
  {
    var started := db.Execute(BEGIN, begin);
    if started.Err? {
      return Some(Engine(started.error));
    }
    db.calls := db.calls + body.calls;
    var result := body.outcome;
    var ended := db.Execute(END, end);
    if ended.Err? {
      return Some(Engine(ended.error));
    }
    if result.Err? {
      return Some(result.error);
    }
    return None;
  }

  /** The body of `read` after setup: the body alone, with no transaction statements. */
  method Run<T>(db: Database, body: Body<T>) returns (r: Result<T, Failure>)
    modifies db
    ensures db.calls == old(db.calls) + body.calls
    ensures r == body.outcome
  {
    db.calls := db.calls + body.calls;
    r := body.outcome;
  }

  /** Open a connection at `path` and switch foreign keys on; the connection is returned with the pragma's outcome. */
  method OpenWithPragma(path: string, answers: SetupAnswers) returns (r: Result<Database, SQLiteError>, pragma: Result<(), SQLiteError>)
    ensures r.Ok? <==> IsSuccess(answers.open.rc)
    ensures r.Ok? ==> fresh(r.value) && r.value.path == path && r.value.calls == ExecuteCalls(PRAGMA, answers.pragma)
    ensures r.Ok? ==> pragma == ExecuteOutcome(answers.pragma)
    ensures r.Err? ==> r.error == SQLiteError(answers.open.errcode, answers.open.errmsg)
  {
    r := Open(path, answers.open);
    pragma := Ok(());
    if r.Ok? {
      pragma := r.value.Execute(PRAGMA, answers.pragma);
    }
  }

  /** A file the connections may have created, and the files the file system holds. */
  class FileSystem {
    var files: set<string>

    constructor (files: set<string>)
      ensures this.files == files
    {
      this.files := files;
    }
  }

  /** `SQLiteConnectionToFile`: every setup opens a new connection. */
  class FileConnection {
    const file: FileReference

    constructor (file: FileReference)
      ensures this.file == file
    {
      this.file := file;
    }

    /** `setup`: resolve, open afresh and run the pragma, every time. */
    method Setup(lookup: Result<string, Failure>, answers: SetupAnswers) returns (r: Result<Database, Failure>)
      ensures ResolvePath(file, lookup).Err? ==> r == Err(ResolvePath(file, lookup).error)
      ensures ResolvePath(file, lookup).Ok? && !IsSuccess(answers.open.rc) ==>
        r == Err(Engine(SQLiteError(answers.open.errcode, answers.open.errmsg)))
      ensures ResolvePath(file, lookup).Ok? && IsSuccess(answers.open.rc) && ExecuteOutcome(answers.pragma).Err? ==>
        r == Err(Engine(ExecuteOutcome(answers.pragma).error))
      ensures r.Err? <==> SetupFailure(file, lookup, answers).Some?
      ensures r.Ok? ==> fresh(r.value) && r.value.path == ResolvePath(file, lookup).value
      ensures r.Ok? ==> r.value.calls == ExecuteCalls(PRAGMA, answers.pragma)
    {
      var path := ResolvePath(file, lookup);
      if path.Err? {
        return Err(path.error);
      }
      var connection, pragma := OpenWithPragma(path.value, answers);
      if connection.Err? {
        return Err(Engine(connection.error));
      }
      if pragma.Err? {
        return Err(Engine(pragma.error));
      }
      return Ok(connection.value);
    }

    /** `read`: setup, then the body; a failed setup's error is rethrown and the body does not run. */
    method Read<T>(lookup: Result<string, Failure>, answers: SetupAnswers, body: Body<T>) returns (r: Result<T, Failure>, ghost db: Database?)
      ensures SetupFailure(file, lookup, answers).Some? ==> db == null && r == Err(SetupFailure(file, lookup, answers).value)
      ensures SetupFailure(file, lookup, answers).None? ==>
        db != null && fresh(db) && db.path == ResolvePath(file, lookup).value
        && db.calls == ExecuteCalls(PRAGMA, answers.pragma) + body.calls && r == body.outcome
    {
      var setup := Setup(lookup, answers);
      if setup.Err? {
        return Err(setup.error), null;
      }
      var connection := setup.value;
      db := connection;
      r := Run(connection, body);
    }

    /** `write`: setup, then the bracket; a failed setup's error is rethrown and nothing else runs. */
    method Write(lookup: Result<string, Failure>, answers: SetupAnswers, begin: Codes, body: Body<()>, end: Codes) returns (r: Option<Failure>, ghost db: Database?)
      ensures SetupFailure(file, lookup, answers).Some? ==> db == null && r == SetupFailure(file, lookup, answers)
      ensures SetupFailure(file, lookup, answers).None? ==>
        db != null && fresh(db) && db.path == ResolvePath(file, lookup).value
        && db.calls == ExecuteCalls(PRAGMA, answers.pragma) + BracketCalls(begin, body, end)
        && r == BracketOutcome(begin, body, end)
    {
      var setup := Setup(lookup, answers);
      if setup.Err? {
        return Some(setup.error), null;
      }
      var connection := setup.value;
      db := connection;
      r := Bracket(connection, begin, body, end);
    }

    /** `deleteFile`: remove the file when it exists; an absent file is not an error. */
    method DeleteFile(fs: FileSystem, lookup: Result<string, Failure>, removal: Option<Failure>) returns (r: Option<Failure>)
      modifies fs
      ensures ResolvePath(file, lookup).Err? ==> r == Some(ResolvePath(file, lookup).error) && fs.files == old(fs.files)
      ensures ResolvePath(file, lookup).Ok? && ResolvePath(file, lookup).value !in old(fs.files) ==> r == None && fs.files == old(fs.files)
      ensures ResolvePath(file, lookup).Ok? && ResolvePath(file, lookup).value in old(fs.files) ==>
        r == removal && fs.files == (if removal.None? then old(fs.files) - {ResolvePath(file, lookup).value} else old(fs.files))
    {
      var path := ResolvePath(file, lookup);
      if path.Err? {
        return Some(path.error);
      }
      if path.value in fs.files {
        if removal.Some? {
          return removal;
        }
        fs.files := fs.files - {path.value};
      }
      return None;
    }
  }

  /** `SQLiteConnectionToMemory`: one connection, created on first use and kept until `deleteFile`. */
  class MemoryConnection {
    const file: FileReference
    var db: Database?

    constructor (file: FileReference)
      ensures this.file == file && db == null
    {
      this.file := file;
      db := null;
    }

    /**
     * `setup`: the cached connection when there is one, with no calls made;
     * otherwise open one, cache it, then run the pragma. The connection is
     * cached before the pragma runs, so it stays cached when the pragma fails.
     */
    method Setup(lookup: Result<string, Failure>, answers: SetupAnswers) returns (r: Result<Database, Failure>)
      modifies this
      ensures old(db) != null ==> r == Ok(old(db)) && db == old(db) && unchanged(old(db))
      ensures old(db) == null ==> (r.Err? <==> SetupFailure(file, lookup, answers).Some?)
      ensures old(db) == null && r.Err? ==> r.error == SetupFailure(file, lookup, answers).value
      ensures old(db) == null && ResolvePath(file, lookup).Ok? && !IsSuccess(answers.open.rc) ==>
        r == Err(Engine(SQLiteError(answers.open.errcode, answers.open.errmsg))) && db == null
      ensures old(db) == null && ResolvePath(file, lookup).Err? ==> r == Err(ResolvePath(file, lookup).error) && db == null
      ensures old(db) == null && ResolvePath(file, lookup).Ok? && IsSuccess(answers.open.rc) ==>
        db != null && fresh(db) && db.path == ResolvePath(file, lookup).value && db.calls == ExecuteCalls(PRAGMA, answers.pragma)
      ensures r.Ok? ==> r.value == db
    {
      if db != null {
        return Ok(db);
      }
      var path := ResolvePath(file, lookup);
      if path.Err? {
        return Err(path.error);
      }
      var connection := Open(path.value, answers.open);
      if connection.Err? {
        return Err(Engine(connection.error));
      }
      db := connection.value;
      var pragma := db.Execute(PRAGMA, answers.pragma);
      if pragma.Err? {
        return Err(Engine(pragma.error));
      }
      return Ok(db);
    }

    /** `deleteFile`: drop the cached connection. */
    method DeleteFile()
      modifies this
      ensures db == null
    {
      db := null;
    }

    /**
     * `read`: setup, then the body on the (possibly cached) connection. On
     * first use a failed setup's error is rethrown, and a connection whose
     * pragma failed stays cached without the body having run.
     */
    method Read<T>(lookup: Result<string, Failure>, answers: SetupAnswers, body: Body<T>) returns (r: Result<T, Failure>)
      modifies this, db
      ensures old(db) != null ==> db == old(db) && db.calls == old(db.calls) + body.calls && r == body.outcome
      ensures old(db) == null && SetupFailure(file, lookup, answers).Some? ==> r == Err(SetupFailure(file, lookup, answers).value)
      ensures old(db) == null && SetupFailure(file, lookup, answers).None? ==>
        db != null && fresh(db) && db.path == ResolvePath(file, lookup).value
        && db.calls == ExecuteCalls(PRAGMA, answers.pragma) + body.calls && r == body.outcome
      ensures old(db) == null && ResolvePath(file, lookup).Ok? && IsSuccess(answers.open.rc) ==>
        db != null && fresh(db) && db.path == ResolvePath(file, lookup).value
      ensures old(db) == null && ResolvePath(file, lookup).Ok? && IsSuccess(answers.open.rc) && ExecuteOutcome(answers.pragma).Err? ==>
        db != null && db.calls == ExecuteCalls(PRAGMA, answers.pragma)
      ensures old(db) == null && !(ResolvePath(file, lookup).Ok? && IsSuccess(answers.open.rc)) ==> db == null
    {
      var setup := Setup(lookup, answers);
      if setup.Err? {
        return Err(setup.error);
      }
      r := Run(setup.value, body);
    }

    /**
     * `write`: setup, then the bracket on the (possibly cached) connection.
     * On first use a failed setup's error is rethrown and no BEGIN is sent.
     */
    method Write(lookup: Result<string, Failure>, answers: SetupAnswers, begin: Codes, body: Body<()>, end: Codes) returns (r: Option<Failure>)
      modifies this, db
      ensures old(db) != null ==> db == old(db) && db.calls == old(db.calls) + BracketCalls(begin, body, end) && r == BracketOutcome(begin, body, end)
      ensures old(db) == null && SetupFailure(file, lookup, answers).Some? ==> r == SetupFailure(file, lookup, answers)
      ensures old(db) == null && SetupFailure(file, lookup, answers).None? ==>
        db != null && fresh(db) && db.path == ResolvePath(file, lookup).value
        && db.calls == ExecuteCalls(PRAGMA, answers.pragma) + BracketCalls(begin, body, end) && r == BracketOutcome(begin, body, end)
      ensures old(db) == null && ResolvePath(file, lookup).Ok? && IsSuccess(answers.open.rc) ==>
        db != null && fresh(db) && db.path == ResolvePath(file, lookup).value
      ensures old(db) == null && ResolvePath(file, lookup).Ok? && IsSuccess(answers.open.rc) && ExecuteOutcome(answers.pragma).Err? ==>
        db != null && db.calls == ExecuteCalls(PRAGMA, answers.pragma)
      ensures old(db) == null && !(ResolvePath(file, lookup).Ok? && IsSuccess(answers.open.rc)) ==> db == null
    {
      var setup := Setup(lookup, answers);
      if setup.Err? {
        return Some(setup.error);
      }
      r := Bracket(setup.value, begin, body, end);
    }
  }

  // ----- properties of the bracket -----

  /** END follows the body even when the body fails, and the body's error then comes out. */
  lemma EndRunsAfterFailedBody(begin: Codes, body: Body<()>, end: Codes)
    requires ExecuteOutcome(begin).Ok? && body.outcome.Err?
    ensures BracketCalls(begin, body, end) == ExecuteCalls(BEGIN, begin) + body.calls + ExecuteCalls(END, end)
    ensures ExecuteOutcome(end).Ok? ==> BracketOutcome(begin, body, end) == Some(body.outcome.error)
  {
  }

  /**
   * A failing END is reported instead of the body's outcome, whatever that
   * was, with the code and message reported after END's own failing call.
   */
  lemma FailedEndWins(begin: Codes, body: Body<()>, end: Codes)
    requires ExecuteOutcome(begin).Ok? && ExecuteOutcome(end).Err?
    ensures !IsSuccess(end.prepare.rc) ==>
      BracketOutcome(begin, body, end) == Some(Engine(SQLiteError(end.prepare.errcode, end.prepare.errmsg)))
    ensures IsSuccess(end.prepare.rc) ==>
      BracketOutcome(begin, body, end) == Some(Engine(SQLiteError(end.step.errcode, end.step.errmsg)))
  {
  }

  /** When BEGIN fails the body does not run, no END is sent, and BEGIN's error is reported. */
  lemma FailedBeginSkipsBody(begin: Codes, body: Body<()>, end: Codes)
    requires ExecuteOutcome(begin).Err?
    ensures BracketCalls(begin, body, end) == ExecuteCalls(BEGIN, begin)
    ensures forall c :: c in BracketCalls(begin, body, end) ==> c.query == BEGIN
    ensures BracketOutcome(begin, body, end) == Some(Engine(ExecuteOutcome(begin).error))
  {
  }

  /** The bracket reports success exactly when BEGIN, the body and END all succeed. */
  lemma BracketSucceeds(begin: Codes, body: Body<()>, end: Codes)
    ensures BracketOutcome(begin, body, end).None? <==>
      ExecuteOutcome(begin).Ok? && body.outcome.Ok? && ExecuteOutcome(end).Ok?
  {
  }

  /**
   * Two setups of a memory connection with nothing in between return the
   * same connection and the second makes no calls. Once the open has
   * succeeded the second setup succeeds even when the first one's pragma
   * failed: that pragma is not retried.
   */
  method SetupTwice(m: MemoryConnection, lookup: Result<string, Failure>, first: SetupAnswers, second: SetupAnswers)
    returns (a: Result<Database, Failure>, b: Result<Database, Failure>)
    modifies m
    ensures a.Ok? ==> b == a && m.db == a.value
    ensures a.Ok? && old(m.db) == null ==> a.value.calls == ExecuteCalls(PRAGMA, first.pragma)
    ensures old(m.db) == null && ResolvePath(m.file, lookup).Ok? && IsSuccess(first.open.rc) ==>
      b.Ok? && m.db == b.value && b.value.calls == ExecuteCalls(PRAGMA, first.pragma)
  {
    a := m.Setup(lookup, first);
    b := m.Setup(lookup, second);
  }
}
