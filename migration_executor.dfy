/**
 * MigrationExecutor: runs one migration (forward statements, then a history row) or one rollback
 * (rollback statements, then the file's history rows deleted) against a database.
 *
 * The database is abstract: the history table, a log of the statements it has executed, and a
 * transaction made of a published (committed) state and the working state of the connection.
 * Which statements the server refuses is a parameter of the database. Each executor operation is
 * a method proved equal to a step function on database states; the properties are proved about
 * the step functions.
 */
module Executor {
  import opened Results
  import opened JavaText
  import opened Sequences
  import opened History
  import MigrationFileReader

  const SQL_SUFFIX: string := ".sql"

  /** Everything that can go wrong in the engine, by the Java exception that carries it. */
  datatype MigrationError =
    | WrongExtension(file: string)                                  // RuntimeException
    | ReadFailed(file: string, cause: MigrationFileReader.ReadError) // RuntimeException / NoSuchElementException
    | BatchFailed(statement: string)                                // SQLException, rethrown as RuntimeException
    | DuplicateVersion(version: int)                                // SQLException: primary key of history
    | HistoryMissing                                                // SQLException: no history table
    | StatusCheckFailed(file: string)                               // isApplied: RuntimeException
    | VersionQueryFailed                                            // getCurrentDbVersion: RuntimeException
    | DirectoryMissing(directory: string)                           // getFiles: RuntimeException

  /** The errors that reach the manager as a checked SQLException (the others are RuntimeExceptions). */
  predicate IsSqlException(e: MigrationError) {
    e.DuplicateVersion? || e.HistoryMissing?
  }

  /** What the database holds: whether the history table exists, its rows, the statements run so far. */
  datatype DbState = DbState(hasHistory: bool, history: seq<Row>, log: seq<string>)

  /**
   * The classpath resources: the text of each migration file, and the two readers of
   * MigrationFileReader whose code is not part of this model (readMigrationVersion,
   * readRollbacksFromFile), as given functions of the file name.
   */
  datatype Resources = Resources(files: map<string, string>, version: string -> int, rollbacks: string -> seq<string>)

  function Resource(res: Resources, path: string): Option<string> {
    if path in res.files then Some(res.files[path]) else None
  }

  /** Whether the server refuses a statement, given the statements it has already run. */
  type Server = (seq<string>, string) -> bool

  // ---------------------------------------------------------------------------
  // Statement.executeBatch

  /** The log after a batch, and the statement that was refused, if one was. */
  datatype BatchResult = BatchResult(log: seq<string>, failed: Option<string>)

  /** The batch runs in order and stops at the first refused statement. */
  function RunBatch(refuses: Server, log: seq<string>, batch: seq<string>): BatchResult
    decreases |batch|
  {
    if batch == [] then BatchResult(log, None)
    else if refuses(log, batch[0]) then BatchResult(log, Some(batch[0]))
    else RunBatch(refuses, log + [batch[0]], batch[1..])
  }

  /** How many statements of a batch the server accepts before it refuses one. */
  function Accepted(refuses: Server, log: seq<string>, batch: seq<string>): (n: nat)
    ensures n <= |batch|
    ensures forall j :: 0 <= j < n ==> !refuses(log + batch[..j], batch[j])
    ensures n < |batch| ==> refuses(log + batch[..n], batch[n])
    decreases |batch|
  {
    if batch == [] then 0
    else if refuses(log, batch[0]) then
      assert log + batch[..0] == log;
      0
    else
      var m := Accepted(refuses, log + [batch[0]], batch[1..]);
      AcceptedExtend(refuses, log, batch, m);
      m + 1
  }

  /** Accepting the first statement shifts the accepted prefix of the rest by one. */
  lemma AcceptedExtend(refuses: Server, log: seq<string>, batch: seq<string>, m: nat)
    requires batch != [] && !refuses(log, batch[0]) && m <= |batch| - 1
    requires forall j :: 0 <= j < m ==> !refuses((log + [batch[0]]) + batch[1..][..j], batch[1..][j])
    requires m < |batch| - 1 ==> refuses((log + [batch[0]]) + batch[1..][..m], batch[1..][m])
    ensures forall j :: 0 <= j < m + 1 ==> !refuses(log + batch[..j], batch[j])
    ensures m + 1 < |batch| ==> refuses(log + batch[..m + 1], batch[m + 1])
  {
    forall j | 0 <= j < m + 1 ensures !refuses(log + batch[..j], batch[j]) {
      if j == 0 {
        assert log + batch[..0] == log;
      } else {
        BatchShift(log, batch, j - 1);
      }
    }
    if m < |batch| - 1 {
      BatchShift(log, batch, m);
    }
  }

  lemma BatchShift(log: seq<string>, batch: seq<string>, j: nat)
    requires j < |batch| - 1
    ensures (log + [batch[0]]) + batch[1..][..j] == log + batch[..j + 1]
    ensures batch[1..][j] == batch[j + 1]
  {
    assert batch[..j + 1] == [batch[0]] + batch[1..][..j];
  }

  /** The batch runs exactly the accepted prefix; the next statement, if any, is the refused one. */
  lemma {:induction false} RunBatchRunsAcceptedPrefix(refuses: Server, log: seq<string>, batch: seq<string>)
    ensures var n := Accepted(refuses, log, batch);
      RunBatch(refuses, log, batch) == BatchResult(log + batch[..n], if n < |batch| then Some(batch[n]) else None)
    decreases |batch|
  {
    if batch == [] {
      AppendEmpty(log);
    } else if refuses(log, batch[0]) {
      AppendEmpty(log);
      assert batch[..0] == [];
    } else {
      var m := Accepted(refuses, log + [batch[0]], batch[1..]);
      RunBatchRunsAcceptedPrefix(refuses, log + [batch[0]], batch[1..]);
      assert Accepted(refuses, log, batch) == m + 1;
      if m < |batch[1..]| {
        BatchShift(log, batch, m);
      } else {
        assert batch[1..][..m] == batch[1..];
        assert log + batch[..m + 1] == (log + [batch[0]]) + batch[1..] by {
          assert batch[..m + 1] == batch;
          ConsOfTail(batch);
        }
      }
    }
  }

  // ---------------------------------------------------------------------------
  // The executor's steps as functions of the database state

  /** A state reached, and the error raised on the way, if any. */
  datatype Step = Step(state: DbState, error: Option<MigrationError>)

  /** executeSql: the commands go into one batch, in list order; a refused statement is rethrown. */
  function SqlStep(refuses: Server, s: DbState, commands: seq<string>): (r: Step)
    ensures r.state.hasHistory == s.hasHistory && r.state.history == s.history
    ensures r.error.None? ==> r.state.log == s.log + commands
    ensures var n := Accepted(refuses, s.log, commands);
      && r.state.log == s.log + commands[..n]
      && (r.error.None? <==> n == |commands|)
      && (n < |commands| ==> r.error == Some(BatchFailed(commands[n])))
  {
    var b := RunBatch(refuses, s.log, commands);
    RunBatchRunsAcceptedPrefix(refuses, s.log, commands);
    assert commands[..|commands|] == commands;
    Step(s.(log := b.log), if b.failed.Some? then Some(BatchFailed(b.failed.value)) else None)
  }

  /** saveMigration: INSERT INTO history VALUES (version, file, now). */
  function SaveStep(s: DbState, version: int, file: string, now: int): (r: Result<DbState, MigrationError>)
    ensures r.Success? <==> s.hasHistory && !HasVersion(s.history, version)
    ensures r.Success? ==> r.value == s.(history := s.history + [Row(version, file, now)])
    ensures r.Failure? ==> IsSqlException(r.error)
  {
    if !s.hasHistory then Failure(HistoryMissing)
    else
      match Insert(s.history, Row(version, file, now))
      case None => Failure(DuplicateVersion(version))
      case Some(rows) => Success(s.(history := rows))
  }

  /** abortMigration: DELETE FROM history WHERE file = ?; deleting nothing is no error. */
  function AbortStep(s: DbState, file: string): (r: Result<DbState, MigrationError>)
    ensures r.Success? <==> s.hasHistory
    ensures r.Success? ==> r.value.log == s.log && r.value.hasHistory && !HasFile(r.value.history, file)
    ensures r.Success? ==> forall row :: row in r.value.history <==> row in s.history && row.file != file
    ensures r.Failure? ==> IsSqlException(r.error)
  {
    if !s.hasHistory then Failure(HistoryMissing)
    else
      forall row ensures row in WithoutFile(s.history, file) <==> row in s.history && row.file != file {
        WithoutFileMembers(s.history, file, row);
      }
      Success(s.(history := WithoutFile(s.history, file)))
  }

  /** executeMigration: suffix check, read, run the statements, record the row. */
  function MigrationStep(res: Resources, refuses: Server, s: DbState, fileName: string, now: int): (r: Step)
    ensures !EndsWith(fileName, SQL_SUFFIX) ==> r == Step(s, Some(WrongExtension(fileName)))
    ensures r.error.Some? ==> r.state.history == s.history && r.state.hasHistory == s.hasHistory
    ensures r.error.None? <==>
      && EndsWith(fileName, SQL_SUFFIX)
      && MigrationFileReader.ReadMigrations(fileName, Resource(res, fileName)).Success?
      && SqlStep(refuses, s, MigrationFileReader.ReadMigrations(fileName, Resource(res, fileName)).value).error.None?
      && s.hasHistory && !HasVersion(s.history, res.version(fileName))
    ensures r.error.None? ==>
      && r.state.hasHistory
      && r.state.history == s.history + [Row(res.version(fileName), fileName, now)]
      && r.state.log == s.log + MigrationFileReader.ReadMigrations(fileName, Resource(res, fileName)).value
  {
    if !EndsWith(fileName, SQL_SUFFIX) then Step(s, Some(WrongExtension(fileName)))
    else
      match MigrationFileReader.ReadMigrations(fileName, Resource(res, fileName))
      case Failure(e) => Step(s, Some(ReadFailed(fileName, e)))
      case Success(commands) =>
        var run := SqlStep(refuses, s, commands);
        if run.error.Some? then run
        else
          match SaveStep(run.state, res.version(fileName), fileName, now)
          case Failure(e) => Step(run.state, Some(e))
          case Success(saved) => Step(saved, None)
  }

  /** executeRollback: suffix check, run the rollback statements, delete the file's rows. */
  function RollbackStep(res: Resources, refuses: Server, s: DbState, fileName: string): (r: Step)
    ensures !EndsWith(fileName, SQL_SUFFIX) ==> r == Step(s, Some(WrongExtension(fileName)))
    ensures r.error.Some? ==> r.state.history == s.history && r.state.hasHistory == s.hasHistory
    ensures r.error.None? <==>
      EndsWith(fileName, SQL_SUFFIX) && SqlStep(refuses, s, res.rollbacks(fileName)).error.None? && s.hasHistory
    ensures r.error.None? ==>
      && r.state.hasHistory
      && r.state.history == WithoutFile(s.history, fileName)
      && r.state.log == s.log + res.rollbacks(fileName)
  {
    if !EndsWith(fileName, SQL_SUFFIX) then Step(s, Some(WrongExtension(fileName)))
    else
      var run := SqlStep(refuses, s, res.rollbacks(fileName));
      if run.error.Some? then run
      else
        match AbortStep(run.state, fileName)
        case Failure(e) => Step(run.state, Some(e))
        case Success(aborted) => Step(aborted, None)
  }

  // ---------------------------------------------------------------------------
  // Properties of one step

  /** A file whose forward section holds no statement still gets its history row. */
  lemma EmptyMigrationIsRecorded(res: Resources, refuses: Server, s: DbState, fileName: string, now: int)
    requires EndsWith(fileName, SQL_SUFFIX)
    requires MigrationFileReader.ReadMigrations(fileName, Resource(res, fileName)) == Success([])
    requires s.hasHistory && !HasVersion(s.history, res.version(fileName))
    ensures MigrationStep(res, refuses, s, fileName, now) ==
      Step(s.(history := s.history + [Row(res.version(fileName), fileName, now)]), None)
  {
    AppendEmpty(s.log);
  }

  /** A refused statement stops the migration before its row is written: the error is the batch's. */
  lemma RefusedStatementSkipsSave(res: Resources, refuses: Server, s: DbState, fileName: string, now: int)
    requires EndsWith(fileName, SQL_SUFFIX)
    requires MigrationFileReader.ReadMigrations(fileName, Resource(res, fileName)).Success?
    requires SqlStep(refuses, s, MigrationFileReader.ReadMigrations(fileName, Resource(res, fileName)).value).error.Some?
    ensures MigrationStep(res, refuses, s, fileName, now).error.Some?
    ensures MigrationStep(res, refuses, s, fileName, now).error.value.BatchFailed?
    ensures !IsSqlException(MigrationStep(res, refuses, s, fileName, now).error.value)
    ensures MigrationStep(res, refuses, s, fileName, now).state.history == s.history
  {
  }

  /** A file already recorded under another name with the same version cannot be recorded again. */
  lemma VersionTakenFails(res: Resources, refuses: Server, s: DbState, fileName: string, now: int)
    requires HasVersion(s.history, res.version(fileName))
    ensures MigrationStep(res, refuses, s, fileName, now).error.Some?
  {
  }

  /** A migration followed by its rollback leaves the ledger as it was (the log keeps both runs). */
  lemma MigrateThenRollBack(res: Resources, refuses: Server, s: DbState, fileName: string, now: int)
    requires !HasFile(s.history, fileName)
    requires MigrationStep(res, refuses, s, fileName, now).error.None?
    requires RollbackStep(res, refuses, MigrationStep(res, refuses, s, fileName, now).state, fileName).error.None?
    ensures RollbackStep(res, refuses, MigrationStep(res, refuses, s, fileName, now).state, fileName).state.history == s.history
  {
    var row := Row(res.version(fileName), fileName, now);
    InsertThenDelete(s.history, row);
  }

  // ---------------------------------------------------------------------------
  // The connection and the executor

  /**
   * A connection to the database. Outside a transaction (auto-commit) every write is published at
   * once; inside one, writes stay in the working state until commit.
   */
  class Database {
    var published: DbState
    var working: DbState
    var autoCommit: bool
    const refuses: Server

    predicate Valid()
      reads this
    {
      autoCommit ==> working == published
    }

    constructor (initial: DbState, refuses: Server)
      ensures Valid() && autoCommit && published == initial && working == initial && this.refuses == refuses
    {
      published := initial;
      working := initial;
      autoCommit := true;
      this.refuses := refuses;
    }

    /** setAutoCommit(false): open a transaction on the current state. */
    method Begin()
      requires Valid()
      modifies this
      ensures Valid() && !autoCommit && working == old(working) && published == old(published)
    {
      autoCommit := false;
    }

    /** commit(): publish the working state. */
    method Commit()
      requires !autoCommit
      modifies this
      ensures Valid() && !autoCommit && published == old(working) && working == old(working)
    {
      published := working;
    }

    /** rollback(): drop the working state. */
    method Rollback()
      requires !autoCommit
      modifies this
      ensures Valid() && !autoCommit && working == old(published) && published == old(published)
    {
      working := published;
    }

    /** close(): the session ends; an open transaction's work is dropped. */
    method Close()
      modifies this
      ensures Valid() && autoCommit && working == old(published) && published == old(published)
    {
      working := published;
      autoCommit := true;
    }

    /** One write through the connection. */
    method Write(next: DbState)
      requires Valid()
      modifies this
      ensures Valid() && autoCommit == old(autoCommit) && working == next
      ensures published == if autoCommit then next else old(published)
    {
      working := next;
      if autoCommit {
        published := next;
      }
    }

    /** executeBatch(): the statements run one by one until the server refuses one. */
    method ExecuteBatch(batch: seq<string>) returns (failed: Option<string>)
      requires Valid()
      modifies this
      ensures Valid() && autoCommit == old(autoCommit)
      ensures working == old(working).(log := working.log)
      ensures RunBatch(refuses, old(working.log), batch) == BatchResult(working.log, failed)
      ensures published == if autoCommit then working else old(published)
    {
      var i := 0;
      failed := None;
      while i < |batch|
        invariant 0 <= i <= |batch|
        invariant Valid() && autoCommit == old(autoCommit)
        invariant working == old(working).(log := working.log)
        invariant published == if autoCommit then working else old(published)
        invariant RunBatch(refuses, working.log, batch[i..]) == RunBatch(refuses, old(working.log), batch)
      {
        if refuses(working.log, batch[i]) {
          failed := Some(batch[i]);
          return;
        }
        assert batch[i..][1..] == batch[i + 1..];
        Write(working.(log := working.log + [batch[i]]));
        i := i + 1;
      }
    }
  }

  /** The executor: every operation goes through the same database connection. */
  class MigrationExecutor {
    const db: Database
    const resources: Resources

    constructor (db: Database, resources: Resources)
      ensures this.db == db && this.resources == resources
    {
      this.db := db;
      this.resources := resources;
    }

    /** executeSql: addBatch for each command in order, then executeBatch. */
    method ExecuteSql(commands: seq<string>) returns (error: Option<MigrationError>)
      requires db.Valid()
      modifies db
      ensures db.Valid() && db.autoCommit == old(db.autoCommit)
      ensures Step(db.working, error) == SqlStep(db.refuses, old(db.working), commands)
      ensures db.published == if db.autoCommit then db.working else old(db.published)
    {
      var batch: seq<string> := [];
      for i := 0 to |commands|
        invariant batch == commands[..i]
      {
        batch := batch + [commands[i]];
      }
      assert batch == commands;
      var failed := db.ExecuteBatch(batch);
      error := if failed.Some? then Some(BatchFailed(failed.value)) else None;
    }

    /** saveMigration: insert the history row. */
    method SaveMigration(version: int, migrationFile: string, now: int) returns (error: Option<MigrationError>)
      requires db.Valid()
      modifies db
      ensures db.Valid() && db.autoCommit == old(db.autoCommit)
      ensures match SaveStep(old(db.working), version, migrationFile, now)
        case Failure(e) => error == Some(e) && db.working == old(db.working)
        case Success(next) => error.None? && db.working == next
      ensures db.published == if db.autoCommit then db.working else old(db.published)
    {
      var r := SaveStep(db.working, version, migrationFile, now);
      if r.Failure? {
        return Some(r.error);
      }
      db.Write(r.value);
      error := None;
    }

    /** abortMigration: delete the rows of the file. */
    method AbortMigration(fileName: string) returns (error: Option<MigrationError>)
      requires db.Valid()
      modifies db
      ensures db.Valid() && db.autoCommit == old(db.autoCommit)
      ensures match AbortStep(old(db.working), fileName)
        case Failure(e) => error == Some(e) && db.working == old(db.working)
        case Success(next) => error.None? && db.working == next
      ensures db.published == if db.autoCommit then db.working else old(db.published)
    {
      var r := AbortStep(db.working, fileName);
      if r.Failure? {
        return Some(r.error);
      }
      db.Write(r.value);
      error := None;
    }

    /** executeMigration */
    method ExecuteMigration(fileName: string, now: int) returns (error: Option<MigrationError>)
      requires db.Valid()
      modifies db
      ensures db.Valid() && db.autoCommit == old(db.autoCommit)
      ensures Step(db.working, error) == MigrationStep(resources, db.refuses, old(db.working), fileName, now)
      ensures db.published == if db.autoCommit then db.working else old(db.published)
    {
      if !EndsWith(fileName, SQL_SUFFIX) {
        return Some(WrongExtension(fileName));
      }
      var read := MigrationFileReader.ReadMigrationsFromFile(fileName, Resource(resources, fileName));
      if read.Failure? {
        return Some(ReadFailed(fileName, read.error));
      }
      error := ExecuteSql(read.value);
      if error.Some? {
        return;
      }
      error := SaveMigration(resources.version(fileName), fileName, now);
    }

    /** executeRollback */
    method ExecuteRollback(fileName: string) returns (error: Option<MigrationError>)
      requires db.Valid()
      modifies db
      ensures db.Valid() && db.autoCommit == old(db.autoCommit)
      ensures Step(db.working, error) == RollbackStep(resources, db.refuses, old(db.working), fileName)
      ensures db.published == if db.autoCommit then db.working else old(db.published)
    {
      if !EndsWith(fileName, SQL_SUFFIX) {
        return Some(WrongExtension(fileName));
      }
      error := ExecuteSql(resources.rollbacks(fileName));
      if error.Some? {
        return;
      }
      error := AbortMigration(fileName);
    }
  }
}
