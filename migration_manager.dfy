/**
 * MigrationManager: the migrate run (every listed file not yet recorded, in name order, in one
 * transaction) and the rollback run (every listed file whose version lies between the target and
 * the current version, in reverse name order, in one transaction).
 *
 * Each run is a function of the published database state (`MigrateRun`, `RollbackRun`); the
 * manager's methods are proved equal to them, and the properties are proved about them.
 */
module Manager {
  import opened Results
  import opened Sequences
  import opened History
  import opened Executor
  import Ordering
  import MigrationFileReader

  /** What the file system reports for the migrations directory: its own name and its entries. */
  datatype Listing = Listing(dirName: string, entries: seq<string>)

  /**
   * How a run ends. RolledBack: an SQLException reached the manager, rollback() was called and a
   * RuntimeException is raised. Aborted: a RuntimeException went straight through (the connection
   * is closed without commit). NothingToDo: the rollback returned before doing anything.
   */
  datatype Outcome = Committed | NothingToDo | RolledBack(cause: MigrationError) | Aborted(cause: MigrationError)

  // ---------------------------------------------------------------------------
  // getFiles and createHistoryTable

  /** Each entry as a resource path below the directory. */
  function Prefixed(dirName: string, entries: seq<string>): (r: seq<string>)
    ensures |r| == |entries|
    ensures forall i :: 0 <= i < |r| ==> r[i] == dirName + "/" + entries[i]
  {
    if entries == [] then [] else [dirName + "/" + entries[0]] + Prefixed(dirName, entries[1..])
  }

  /** getFiles: the entries as "dir/name", sorted by String.compareTo; a missing directory is an error. */
  function GetFiles(directory: string, listing: Option<Listing>): (r: Result<seq<string>, MigrationError>)
    ensures listing.None? <==> r.Failure?
    ensures r.Failure? ==> r.error == DirectoryMissing(directory)
    ensures r.Success? ==> Ordering.SortedAscending(r.value)
    ensures r.Success? ==> multiset(r.value) == multiset(Prefixed(listing.value.dirName, listing.value.entries))
  {
    match listing
    case None => Failure(DirectoryMissing(directory))
    case Some(l) => Success(Ordering.SortAscending(Prefixed(l.dirName, l.entries)))
  }

  /** create table if not exists history (...): an existing table is left as it is. */
  function CreateHistory(s: DbState): (r: DbState)
    ensures r.hasHistory && r.log == s.log
    ensures s.hasHistory ==> r == s
    ensures !s.hasHistory ==> r.history == []
  {
    if s.hasHistory then s else s.(hasHistory := true, history := [])
  }

  // ---------------------------------------------------------------------------
  // The migrate run

  /** The loop of executeMigrations: skip a file when a history row has its name, else execute it. */
  function MigrateLoop(res: Resources, refuses: Server, s: DbState, names: seq<string>, now: int): Step
    decreases |names|
  {
    if names == [] then Step(s, None)
    else if !s.hasHistory then Step(s, Some(StatusCheckFailed(names[0])))
    else if CountFile(s.history, names[0]) > 0 then MigrateLoop(res, refuses, s, names[1..], now)
    else
      var step := MigrationStep(res, refuses, s, names[0], now);
      if step.error.Some? then step else MigrateLoop(res, refuses, step.state, names[1..], now)
  }

  /** executeMigrations: the published state afterwards and how the run ended. */
  function MigrateRun(res: Resources, refuses: Server, published: DbState, directory: string,
                      listing: Option<Listing>, now: int): (DbState, Outcome)
  {
    match GetFiles(directory, listing)
    case Failure(e) => (published, Aborted(e))
    case Success(files) =>
      Finished(published, MigrateLoop(res, refuses, published, files, now))
  }

  /** The end of a run's transaction: commit after a clean loop, else keep the published state. */
  function Finished(published: DbState, run: Step): (r: (DbState, Outcome))
    ensures run.error.None? <==> r.1 == Committed
    ensures run.error.None? ==> r.0 == run.state
    ensures run.error.Some? ==> r.0 == published
    ensures r.1.RolledBack? <==> run.error.Some? && IsSqlException(run.error.value)
    ensures r.1.Aborted? <==> run.error.Some? && !IsSqlException(run.error.value)
    ensures r.1.RolledBack? || r.1.Aborted? ==> r.1.cause == run.error.value
  {
    if run.error.None? then (run.state, Committed)
    else if IsSqlException(run.error.value) then (published, RolledBack(run.error.value))
    else (published, Aborted(run.error.value))
  }

  // ---------------------------------------------------------------------------
  // The rollback run

  /** The stream filter of executeRollbacks: versions above the target and up to the current one. */
  function RollbackSelection(version: string -> int, names: seq<string>, target: int, current: int): (r: seq<string>)
    ensures |r| <= |names|
    ensures forall i :: 0 <= i < |r| ==> target < version(r[i]) <= current
  {
    if names == [] then []
    else
      var rest := RollbackSelection(version, names[1..], target, current);
      if target < version(names[0]) <= current then [names[0]] + rest else rest
  }

  /** The loop of executeRollbacks: every selected file is rolled back, recorded or not. */
  function RollbackLoop(res: Resources, refuses: Server, s: DbState, names: seq<string>): Step
    decreases |names|
  {
    if names == [] then Step(s, None)
    else
      var step := RollbackStep(res, refuses, s, names[0]);
      if step.error.Some? then step else RollbackLoop(res, refuses, step.state, names[1..])
  }

  /** executeRollbacks: the published state afterwards and how the run ended. */
  function RollbackRun(res: Resources, refuses: Server, published: DbState, directory: string,
                       listing: Option<Listing>, target: int): (DbState, Outcome)
  {
    match GetFiles(directory, listing)
    case Failure(e) => (published, Aborted(e))
    case Success(files) =>
      var names := Ordering.SortDescending(files);
      if !published.hasHistory then (published, Aborted(VersionQueryFailed))
      else
        var current := MaxVersion(published.history);
        if current <= target then (published, NothingToDo)
        else
          Finished(published, RollbackLoop(res, refuses, published, RollbackSelection(res.version, names, target, current)))
  }

  /** The cases of a rollback run, one by one. */
  lemma RollbackRunCases(res: Resources, refuses: Server, p: DbState, directory: string,
                         listing: Option<Listing>, target: int)
    ensures listing.None? ==> RollbackRun(res, refuses, p, directory, listing, target) == (p, Aborted(DirectoryMissing(directory)))
    ensures listing.Some? && !p.hasHistory ==> RollbackRun(res, refuses, p, directory, listing, target) == (p, Aborted(VersionQueryFailed))
    ensures listing.Some? && p.hasHistory && MaxVersion(p.history) <= target ==>
      RollbackRun(res, refuses, p, directory, listing, target) == (p, NothingToDo)
    ensures listing.Some? && p.hasHistory && target < MaxVersion(p.history) ==>
      RollbackRun(res, refuses, p, directory, listing, target) ==
        Finished(p, RollbackLoop(res, refuses, p, Selected(res, p, directory, listing, target)))
  {
  }

  /** The files a rollback run selects: listed, sorted descending, version in (target, current]. */
  function Selected(res: Resources, p: DbState, directory: string, listing: Option<Listing>, target: int): seq<string>
    requires listing.Some?
  {
    RollbackSelection(res.version, Ordering.SortDescending(GetFiles(directory, listing).value), target, MaxVersion(p.history))
  }

  // ---------------------------------------------------------------------------
  // What a migrate run executes

  /** No two names are the same (a directory listing). */
  predicate Distinct(names: seq<string>) {
    forall i, j :: 0 <= i < j < |names| ==> names[i] != names[j]
  }

  /** The listed files that have no history row, in listing order. */
  function Pending(history: seq<Row>, names: seq<string>): seq<string> {
    if names == [] then []
    else if HasFile(history, names[0]) then Pending(history, names[1..])
    else [names[0]] + Pending(history, names[1..])
  }

  /** The forward statements executeMigration reads from a file ([] when it cannot read them). */
  function Forward(res: Resources, name: string): seq<string> {
    match MigrationFileReader.ReadMigrations(name, Resource(res, name))
    case Success(statements) => statements
    case Failure(_) => []
  }

  /** The forward statements of several files, one file after the other. */
  function ForwardLog(res: Resources, names: seq<string>): seq<string> {
    if names == [] then [] else Forward(res, names[0]) + ForwardLog(res, names[1..])
  }

  /** The rollback statements of several files, one file after the other. */
  function RollbackLog(res: Resources, names: seq<string>): seq<string> {
    if names == [] then [] else res.rollbacks(names[0]) + RollbackLog(res, names[1..])
  }

  /** The history rows saveMigration writes for several files. */
  function Recorded(res: Resources, names: seq<string>, now: int): seq<Row> {
    if names == [] then [] else [Row(res.version(names[0]), names[0], now)] + Recorded(res, names[1..], now)
  }

  /** A row for a file outside the list does not change which listed files are pending. */
  lemma {:induction false} PendingAfterInsert(history: seq<Row>, row: Row, names: seq<string>)
    requires forall i :: 0 <= i < |names| ==> names[i] != row.file
    ensures Pending(history + [row], names) == Pending(history, names)
  {
    if names != [] {
      HasFileAfterInsert(history, row, names[0]);
      PendingAfterInsert(history, row, names[1..]);
    }
  }

  /** An executed file's step: the row and the statements it adds. */
  lemma ExecutedStep(res: Resources, refuses: Server, s: DbState, name: string, now: int)
    requires MigrationStep(res, refuses, s, name, now).error.None?
    ensures MigrationStep(res, refuses, s, name, now).state ==
      s.(history := s.history + [Row(res.version(name), name, now)], log := s.log + Forward(res, name))
  {
  }

  lemma TailDistinct(names: seq<string>)
    requires names != [] && Distinct(names)
    ensures Distinct(names[1..])
    ensures forall i :: 0 <= i < |names[1..]| ==> names[1..][i] != names[0]
  {
    forall i | 0 <= i < |names[1..]| ensures names[1..][i] != names[0] {
      assert names[1..][i] == names[i + 1];
    }
  }

  /** Combining the first executed file with the rest of the run. */
  lemma JoinExecuted(res: Resources, s: DbState, name: string, rest: seq<string>, now: int)
    ensures s.(history := s.history + [Row(res.version(name), name, now)], log := s.log + Forward(res, name))
            .(history := (s.history + [Row(res.version(name), name, now)]) + Recorded(res, rest, now),
              log := (s.log + Forward(res, name)) + ForwardLog(res, rest))
        == s.(history := s.history + Recorded(res, [name] + rest, now), log := s.log + ForwardLog(res, [name] + rest))
  {
    assert ([name] + rest)[1..] == rest;
    AppendAssoc(s.history, [Row(res.version(name), name, now)], Recorded(res, rest, now));
    AppendAssoc(s.log, Forward(res, name), ForwardLog(res, rest));
  }

  /**
   * A migrate loop that finishes without error has executed exactly the pending files, in listing
   * order: their forward statements are appended to the log and one row per file to the history.
   */
  lemma {:induction false} MigrateLoopRunsPending(res: Resources, refuses: Server, s: DbState, names: seq<string>, now: int)
    requires Distinct(names)
    requires MigrateLoop(res, refuses, s, names, now).error.None?
    ensures MigrateLoop(res, refuses, s, names, now).state ==
      s.(history := s.history + Recorded(res, Pending(s.history, names), now),
         log := s.log + ForwardLog(res, Pending(s.history, names)))
    decreases |names|
  {
    if names == [] {
      AppendEmpty(s.history);
      AppendEmpty(s.log);
    } else {
      var name := names[0];
      var rest := names[1..];
      TailDistinct(names);
      if HasFile(s.history, name) {
        MigrateLoopRunsPending(res, refuses, s, rest, now);
      } else {
        var s1 := MigrationStep(res, refuses, s, name, now).state;
        ExecutedStep(res, refuses, s, name, now);
        MigrateLoopRunsPending(res, refuses, s1, rest, now);
        PendingAfterInsert(s.history, Row(res.version(name), name, now), rest);
        JoinExecuted(res, s, name, Pending(s.history, rest), now);
      }
    }
  }

  /** After a loop without error every listed file has a row, and no earlier row is lost. */
  lemma {:induction false} MigrateLoopRecordsAll(res: Resources, refuses: Server, s: DbState, names: seq<string>, now: int)
    requires MigrateLoop(res, refuses, s, names, now).error.None?
    ensures names != [] ==> s.hasHistory
    ensures MigrateLoop(res, refuses, s, names, now).state.hasHistory == s.hasHistory
    ensures s.history <= MigrateLoop(res, refuses, s, names, now).state.history
    ensures forall i :: 0 <= i < |names| ==> HasFile(MigrateLoop(res, refuses, s, names, now).state.history, names[i])
    decreases |names|
  {
    if names != [] {
      var name := names[0];
      var rest := names[1..];
      var r := MigrateLoop(res, refuses, s, names, now);
      if HasFile(s.history, name) {
        MigrateLoopRecordsAll(res, refuses, s, rest, now);
        PrefixKeepsFile(s.history, r.state.history, name);
      } else {
        var s1 := MigrationStep(res, refuses, s, name, now).state;
        MigrateLoopRecordsAll(res, refuses, s1, rest, now);
        HasFileAfterInsert(s.history, Row(res.version(name), name, now), name);
        PrefixKeepsFile(s1.history, r.state.history, name);
      }
      HeadAndTailRecorded(r.state.history, names);
    }
  }

  /** A file list is recorded when its head is and every file of its tail is. */
  lemma HeadAndTailRecorded(h: seq<Row>, names: seq<string>)
    requires names != [] && HasFile(h, names[0])
    requires forall i :: 0 <= i < |names[1..]| ==> HasFile(h, names[1..][i])
    ensures forall i :: 0 <= i < |names| ==> HasFile(h, names[i])
  {
    forall i | 0 <= i < |names| ensures HasFile(h, names[i]) {
      if i > 0 {
        assert names[i] == names[1..][i - 1];
      }
    }
  }

  lemma PrefixKeepsFile(a: seq<Row>, b: seq<Row>, file: string)
    requires a <= b && HasFile(a, file)
    ensures HasFile(b, file)
  {
    var i :| 0 <= i < |a| && a[i].file == file;
    assert b[i] == a[i];
  }

  /** When every listed file already has a row, the loop executes nothing. */
  lemma {:induction false} MigrateLoopAllApplied(res: Resources, refuses: Server, s: DbState, names: seq<string>, now: int)
    requires names != [] ==> s.hasHistory
    requires forall i :: 0 <= i < |names| ==> HasFile(s.history, names[i])
    ensures MigrateLoop(res, refuses, s, names, now) == Step(s, None)
    decreases |names|
  {
    if names != [] {
      forall i | 0 <= i < |names[1..]| ensures HasFile(s.history, names[1..][i]) {
        assert names[1..][i] == names[i + 1];
      }
      MigrateLoopAllApplied(res, refuses, s, names[1..], now);
    }
  }

  /** A committed migrate run published exactly the pending files' rows and statements. */
  lemma MigrateRunCommits(res: Resources, refuses: Server, p: DbState, directory: string, listing: Option<Listing>, now: int)
    requires MigrateRun(res, refuses, p, directory, listing, now).1 == Committed
    requires Distinct(GetFiles(directory, listing).value)
    ensures var pending := Pending(p.history, GetFiles(directory, listing).value);
      MigrateRun(res, refuses, p, directory, listing, now).0 ==
        p.(history := p.history + Recorded(res, pending, now), log := p.log + ForwardLog(res, pending))
  {
    MigrateLoopRunsPending(res, refuses, p, GetFiles(directory, listing).value, now);
  }

  /** Any run that does not commit leaves the published state as it was. */
  lemma MigrateRunAllOrNothing(res: Resources, refuses: Server, p: DbState, directory: string, listing: Option<Listing>, now: int)
    requires MigrateRun(res, refuses, p, directory, listing, now).1 != Committed
    ensures MigrateRun(res, refuses, p, directory, listing, now).0 == p
    ensures MigrateRun(res, refuses, p, directory, listing, now).1.RolledBack? ==>
      IsSqlException(MigrateRun(res, refuses, p, directory, listing, now).1.cause)
  {
  }

  /** Migrating again after a committed run executes nothing and changes nothing. */
  lemma MigrateIdempotent(res: Resources, refuses: Server, p: DbState, directory: string, listing: Option<Listing>, now: int, later: int)
    requires MigrateRun(res, refuses, p, directory, listing, now).1 == Committed
    ensures var q := MigrateRun(res, refuses, p, directory, listing, now).0;
      MigrateRun(res, refuses, q, directory, listing, later) == (q, Committed)
  {
    var files := GetFiles(directory, listing).value;
    MigrateLoopRecordsAll(res, refuses, p, files, now);
    var q := MigrateLoop(res, refuses, p, files, now).state;
    MigrateLoopAllApplied(res, refuses, q, files, later);
  }

  lemma HasVersionAfterAppend(a: seq<Row>, b: seq<Row>, version: int)
    requires HasVersion(a, version)
    ensures HasVersion(a + b, version)
  {
    var i :| 0 <= i < |a| && a[i].version == version;
    assert (a + b)[i] == a[i];
  }

  /**
   * The applied check looks at file names only: a listed file with no row of its own whose version
   * is already recorded (a renamed migration) makes the loop fail, so the run never commits.
   */
  lemma {:induction false} RenamedMigrationBlocks(res: Resources, refuses: Server, s: DbState, names: seq<string>, k: nat, now: int)
    requires k < |names|
    requires !HasFile(s.history, names[k]) && HasVersion(s.history, res.version(names[k]))
    requires forall j :: 0 <= j < k ==> names[j] != names[k]
    ensures MigrateLoop(res, refuses, s, names, now).error.Some?
    decreases |names|
  {
    var name := names[k];
    if k == 0 {
      if s.hasHistory {
        VersionTakenFails(res, refuses, s, name, now);
      }
    } else if s.hasHistory && !HasFile(s.history, names[0]) {
      var step := MigrationStep(res, refuses, s, names[0], now);
      if step.error.None? {
        var row := Row(res.version(names[0]), names[0], now);
        ExecutedStep(res, refuses, s, names[0], now);
        HasFileAfterInsert(s.history, row, name);
        HasVersionAfterAppend(s.history, [row], res.version(name));
        TailAvoids(names, k);
        RenamedMigrationBlocks(res, refuses, step.state, names[1..], k - 1, now);
      }
    } else if s.hasHistory {
      TailAvoids(names, k);
      RenamedMigrationBlocks(res, refuses, s, names[1..], k - 1, now);
    }
  }

  lemma TailAvoids(names: seq<string>, k: nat)
    requires 0 < k < |names|
    requires forall j :: 0 <= j < k ==> names[j] != names[k]
    ensures names[1..][k - 1] == names[k]
    ensures forall j :: 0 <= j < k - 1 ==> names[1..][j] != names[k]
  {
    forall j | 0 <= j < k - 1 ensures names[1..][j] != names[k] {
      assert names[1..][j] == names[j + 1];
    }
  }

  // ---------------------------------------------------------------------------
  // What a rollback run reverts

  /** A file is selected exactly when it is listed and its version is in (target, current]. */
  lemma {:induction false} SelectionMembers(version: string -> int, names: seq<string>, target: int, current: int, name: string)
    ensures name in RollbackSelection(version, names, target, current) <==>
      name in names && target < version(name) <= current
  {
    if names != [] {
      SelectionMembers(version, names[1..], target, current, name);
      assert name in names <==> name == names[0] || name in names[1..] by {
        ConsOfTail(names);
      }
    }
  }

  /** The selection keeps the descending order of the sorted names. */
  lemma {:induction false} SelectionKeepsOrder(version: string -> int, names: seq<string>, target: int, current: int)
    requires Ordering.SortedDescending(names)
    ensures Ordering.SortedDescending(RollbackSelection(version, names, target, current))
  {
    if names != [] {
      var rest := RollbackSelection(version, names[1..], target, current);
      assert Ordering.SortedDescending(names[1..]) by {
        forall i, j | 0 <= i < j < |names[1..]| ensures Ordering.Le(names[1..][j], names[1..][i]) {
          assert names[1..][i] == names[i + 1] && names[1..][j] == names[j + 1];
        }
      }
      SelectionKeepsOrder(version, names[1..], target, current);
      if target < version(names[0]) <= current {
        var r := [names[0]] + rest;
        forall j | 0 < j < |r| ensures Ordering.Le(r[j], r[0]) {
          SelectionMembers(version, names[1..], target, current, r[j]);
          assert r[j] == rest[j - 1];
          var m :| 0 <= m < |names[1..]| && names[1..][m] == r[j];
          assert names[m + 1] == r[j];
        }
      }
    }
  }

  /**
   * A rollback loop without error ran every selected file's rollback statements in order and
   * removed exactly the rows of those files.
   */
  lemma {:induction false} RollbackLoopReverts(res: Resources, refuses: Server, s: DbState, names: seq<string>)
    requires RollbackLoop(res, refuses, s, names).error.None?
    ensures RollbackLoop(res, refuses, s, names).state.log == s.log + RollbackLog(res, names)
    ensures names != [] ==> RollbackLoop(res, refuses, s, names).state.hasHistory
    ensures forall row :: row in RollbackLoop(res, refuses, s, names).state.history <==>
      row in s.history && row.file !in names
    decreases |names|
  {
    var r := RollbackLoop(res, refuses, s, names);
    if names == [] {
      AppendEmpty(s.log);
    } else {
      var name := names[0];
      var rest := names[1..];
      var s1 := RollbackStep(res, refuses, s, name).state;
      RollbackLoopReverts(res, refuses, s1, rest);
      AppendAssoc(s.log, res.rollbacks(name), RollbackLog(res, rest));
      forall row ensures row in r.state.history <==> row in s.history && row.file !in names {
        WithoutFileMembers(s.history, name, row);
        assert row.file in names <==> row.file == name || row.file in rest by {
          ConsOfTail(names);
        }
      }
    }
  }

  /** A rollback run with the database at or below the target does nothing and commits nothing. */
  lemma NothingToRollBack(res: Resources, refuses: Server, p: DbState, directory: string, listing: Option<Listing>, target: int)
    requires listing.Some? && p.hasHistory && MaxVersion(p.history) <= target
    ensures RollbackRun(res, refuses, p, directory, listing, target) == (p, NothingToDo)
  {
  }

  /**
   * When every history row belongs to a listed file and carries that file's version, a committed
   * rollback leaves no row above the target.
   */
  lemma RollbackReachesTarget(res: Resources, refuses: Server, p: DbState, directory: string, listing: Option<Listing>, target: int)
    requires RollbackRun(res, refuses, p, directory, listing, target).1 == Committed
    requires forall row :: row in p.history ==>
      res.version(row.file) == row.version && row.file in multiset(GetFiles(directory, listing).value)
    ensures forall row :: row in RollbackRun(res, refuses, p, directory, listing, target).0.history ==> row.version <= target
  {
    RollbackRunCases(res, refuses, p, directory, listing, target);
    var names := Ordering.SortDescending(GetFiles(directory, listing).value);
    RollbackLoopLeavesAtMostTarget(res, refuses, p, names, target);
  }

  /** Rolling back the selection from listed files leaves no row above the target. */
  lemma RollbackLoopLeavesAtMostTarget(res: Resources, refuses: Server, p: DbState, names: seq<string>, target: int)
    requires RollbackLoop(res, refuses, p, RollbackSelection(res.version, names, target, MaxVersion(p.history))).error.None?
    requires forall row :: row in p.history ==> res.version(row.file) == row.version && row.file in multiset(names)
    ensures forall row :: row in RollbackLoop(res, refuses, p, RollbackSelection(res.version, names, target, MaxVersion(p.history))).state.history ==>
      row.version <= target
  {
    var current := MaxVersion(p.history);
    var selected := RollbackSelection(res.version, names, target, current);
    RollbackLoopReverts(res, refuses, p, selected);
    forall row | row in RollbackLoop(res, refuses, p, selected).state.history ensures row.version <= target {
      var i :| 0 <= i < |p.history| && p.history[i] == row;
      assert row.version <= current;
      assert row.file in names by {
        assert row.file in multiset(names);
      }
      SelectionMembers(res.version, names, target, current, row.file);
    }
  }

  // ---------------------------------------------------------------------------
  // The manager

  class MigrationManager {
    const executor: MigrationExecutor
    const migrationsDirectory: string

    /** Between runs the connection is in auto-commit mode. */
    predicate Valid()
      reads executor.db
    {
      executor.db.Valid() && executor.db.autoCommit
    }

    /** The constructor creates the history table. */
    constructor (executor: MigrationExecutor, migrationDirectory: string)
      requires executor.db.Valid() && executor.db.autoCommit
      modifies executor.db
      ensures Valid() && this.executor == executor && migrationsDirectory == migrationDirectory
      ensures executor.db.published == CreateHistory(old(executor.db.published))
    {
      this.executor := executor;
      this.migrationsDirectory := migrationDirectory;
      new;
      executor.db.Write(CreateHistory(executor.db.working));
    }

    /** isApplied: SELECT COUNT(*) FROM history WHERE file = ?, positive means applied. */
    method IsApplied(migrationFile: string) returns (r: Result<bool, MigrationError>)
      ensures r.Success? <==> executor.db.working.hasHistory
      ensures r.Failure? ==> r.error == StatusCheckFailed(migrationFile)
      ensures r.Success? ==> (r.value <==> HasFile(executor.db.working.history, migrationFile))
    {
      if !executor.db.working.hasHistory {
        return Failure(StatusCheckFailed(migrationFile));
      }
      var count := CountFile(executor.db.working.history, migrationFile);
      r := Success(count > 0);
    }

    /** getCurrentDbVersion: SELECT max(version) FROM history, 0 for an empty table. */
    method GetCurrentDbVersion() returns (r: Result<int, MigrationError>)
      ensures r.Success? <==> executor.db.working.hasHistory
      ensures r.Failure? ==> r.error == VersionQueryFailed
      ensures r.Success? ==> forall i :: 0 <= i < |executor.db.working.history| ==> executor.db.working.history[i].version <= r.value
      ensures r.Success? && executor.db.working.history == [] ==> r.value == 0
      ensures r.Success? && executor.db.working.history != [] ==> HasVersion(executor.db.working.history, r.value)
    {
      if !executor.db.working.hasHistory {
        return Failure(VersionQueryFailed);
      }
      r := Success(MaxVersion(executor.db.working.history));
    }

    /** Ends a transaction: commit when the loop finished, otherwise roll back on an SQLException. */
    method Finish(error: Option<MigrationError>) returns (outcome: Outcome)
      requires executor.db.Valid() && !executor.db.autoCommit
      modifies executor.db
      ensures Valid()
      ensures (executor.db.published, outcome) == Finished(old(executor.db.published), Step(old(executor.db.working), error))
    {
      var db := executor.db;
      if error.None? {
        db.Commit();
        outcome := Committed;
      } else if IsSqlException(error.value) {
        db.Rollback();
        outcome := RolledBack(error.value);
      } else {
        outcome := Aborted(error.value);
      }
      db.Close();
    }

    /** The loop of executeMigrations: skip applied files, execute the others, stop at the first error. */
    method MigrateAll(names: seq<string>, now: int) returns (error: Option<MigrationError>)
      requires executor.db.Valid() && !executor.db.autoCommit
      modifies executor.db
      ensures executor.db.Valid() && !executor.db.autoCommit && executor.db.published == old(executor.db.published)
      ensures Step(executor.db.working, error) == MigrateLoop(executor.resources, executor.db.refuses, old(executor.db.working), names, now)
    {
      var db := executor.db;
      ghost var goal := MigrateLoop(executor.resources, db.refuses, db.working, names, now);
      var i := 0;
      error := None;
      while i < |names| && error.None?
        invariant 0 <= i <= |names|
        invariant db.Valid() && !db.autoCommit && db.published == old(db.published)
        invariant error.None? ==> MigrateLoop(executor.resources, db.refuses, db.working, names[i..], now) == goal
        invariant error.Some? ==> Step(db.working, error) == goal
        decreases |names| - i, if error.None? then 1 else 0
      {
        var applied := IsApplied(names[i]);
        if applied.Failure? {
          error := Some(applied.error);
        } else if !applied.value {
          error := executor.ExecuteMigration(names[i], now);
          if error.None? {
            assert names[i..][1..] == names[i + 1..];
            i := i + 1;
          }
        } else {
          assert names[i..][1..] == names[i + 1..];
          i := i + 1;
        }
      }
    }

    /** executeMigrations */
    method ExecuteMigrations(listing: Option<Listing>, now: int) returns (outcome: Outcome)
      requires Valid()
      modifies executor.db
      ensures Valid()
      ensures (executor.db.published, outcome) ==
        MigrateRun(executor.resources, executor.db.refuses, old(executor.db.published), migrationsDirectory, listing, now)
    {
      var db := executor.db;
      var files := GetFiles(migrationsDirectory, listing);
      if files.Failure? {
        return Aborted(files.error);
      }
      var names := files.value;
      db.Begin();
      var error := MigrateAll(names, now);
      outcome := Finish(error);
    }

    /** The loop of executeRollbacks: executeRollback on each selected file, stopping at the first error. */
    method RollBackAll(selected: seq<string>) returns (error: Option<MigrationError>)
      requires executor.db.Valid() && !executor.db.autoCommit
      modifies executor.db
      ensures executor.db.Valid() && !executor.db.autoCommit && executor.db.published == old(executor.db.published)
      ensures Step(executor.db.working, error) == RollbackLoop(executor.resources, executor.db.refuses, old(executor.db.working), selected)
    {
      var db := executor.db;
      ghost var goal := RollbackLoop(executor.resources, db.refuses, db.working, selected);
      var i := 0;
      error := None;
      while i < |selected| && error.None?
        invariant 0 <= i <= |selected|
        invariant db.Valid() && !db.autoCommit && db.published == old(db.published)
        invariant error.None? ==> RollbackLoop(executor.resources, db.refuses, db.working, selected[i..]) == goal
        invariant error.Some? ==> Step(db.working, error) == goal
        decreases |selected| - i, if error.None? then 1 else 0
      {
        error := executor.ExecuteRollback(selected[i]);
        if error.None? {
          assert selected[i..][1..] == selected[i + 1..];
          i := i + 1;
        }
      }
    }

    /** executeRollbacks */
    method ExecuteRollbacks(listing: Option<Listing>, targetVersion: int) returns (outcome: Outcome)
      requires Valid()
      modifies executor.db
      ensures Valid()
      ensures (executor.db.published, outcome) ==
        RollbackRun(executor.resources, executor.db.refuses, old(executor.db.published), migrationsDirectory, listing, targetVersion)
    {
      var db := executor.db;
      RollbackRunCases(executor.resources, db.refuses, db.published, migrationsDirectory, listing, targetVersion);
      var files := GetFiles(migrationsDirectory, listing);
      if files.Failure? {
        return Aborted(files.error);
      }
      var names := Ordering.SortDescending(files.value);
      db.Begin();
      var current := GetCurrentDbVersion();
      if current.Failure? {
        db.Close();
        return Aborted(current.error);
      }
      if current.value <= targetVersion {
        db.Close();
        return NothingToDo;
      }
      MaxVersionUnique(db.working.history, current.value);
      var selected := RollbackSelection(executor.resources.version, names, targetVersion, current.value);
      assert selected == Selected(executor.resources, db.published, migrationsDirectory, listing, targetVersion);
      var error := RollBackAll(selected);
      outcome := Finish(error);
    }
  }
}
