# migration-library in Dafny

A verified model of the core of *migration-library*. This is a small Java engine that applies
versioned SQL migration files to a database, records each applied file in a `history` table, and
rolls files back down to a target version. The model covers:

- **MigrationFileReader** (`migration_file_reader.dfy`). It skips the header lines up to the
  `--migration--` marker line. It takes the text up to `--rollback--`, using `java.util.Scanner`'s
  rules for `hasNext`, `nextLine` and `next` with a delimiter. It splits that text on `;`, trims
  each piece and drops the blank ones.
- **MigrationExecutor** (`migration_executor.dfy`). It runs one file forward (suffix check, read,
  batch, `INSERT` into `history`) or back (suffix check, batch, `DELETE ... where file=?`).
  - The database is a class `Database`. It holds the published state and the working state of one
    connection, with auto-commit, `commit`, `rollback` and `close`.
  - `executeSql` is a loop that builds the batch, followed by `executeBatch`.
- **MigrationManager** (`migration_manager.dfy`). The migrate run walks the sorted listing, skips
  files that have a `history` row with their name, and commits only when every file succeeds. The
  rollback run sorts the listing in descending order and reads `max(version)`. It returns when that
  is at or below the target. Otherwise it reverts the files whose version lies in
  `(target, current]`, in one transaction. `getFiles` prefixes the directory name and sorts;
  `createHistoryTable` runs in the constructor.
- **Command and RollbackCommand** (`commands.dfy`): `parseParams`, the `-h` switch, the `isSuit`
  prefix match, `Integer.parseInt`, and the rollback command's `-version` check and delegation.
- Supporting modules:
  - `java_text.dfy`: `String.trim`, `isBlank`, `startsWith`, `endsWith`, `split`, and finding a
    delimiter.
  - `ordering.dfy`: `String.compareTo` order and sorting.
  - `history.dfy`: the `history` table and its queries.
  - `sequences.dfy`, `results.dfy`: generic helpers.

Each stateful operation is a method. Its `ensures` ties the new state to a function of the old
state: `MigrationStep`, `RollbackStep`, `MigrateRun`, `RollbackRun`, `Params`. The properties are
lemmas about those functions.

How a failure ends a run follows the Java exception kinds. An `SQLException` from the `INSERT` in
`saveMigration` or the `DELETE` in `abortMigration` reaches the manager's inner handler: `rollback()` is
called and the run ends `RolledBack`. Everything else is a `RuntimeException` that skips that
handler, and the run ends `Aborted`. That covers a wrong suffix, an unreadable file, a refused
batch (wrapped at `MigrationExecutor.java:123-125`), a failed status check or version query (`isApplied` and
`getCurrentDbVersion` wrap their `SQLException` in a `RuntimeException`), and a missing directory. In both cases nothing is committed, and closing the connection discards the
uncommitted work.

## Model

| member | source | states |
|---|---|---|
| MigrationFileReader.ReadMigrationsFromFile | Migration_Library/src/main/java/by/eugene/maven/migrations/MigrationFileReader.java:17-50 | The Scanner loop that skips the header, then `next()` and the split/trim/filter pipeline, equals the reading function `ReadMigrations` on every resource text, including the missing-resource error |
| MigrationFileReader.LineLength | Migration_Library/src/main/java/by/eugene/maven/migrations/MigrationFileReader.java:30 | `nextLine` stops at the first line terminator (`\n`, `\r`, U+0085, U+2028, U+2029) and none occurs before it |
| MigrationFileReader.NextLine | Migration_Library/src/main/java/by/eugene/maven/migrations/MigrationFileReader.java:30 | The line returned is a terminator-free prefix of the input, and the rest is strictly shorter |
| MigrationFileReader.HeaderSkipped | Migration_Library/src/main/java/by/eugene/maven/migrations/MigrationFileReader.java:29-35 | For any header (lines up to and including the first whose trimmed text is `--migration--`), the loop leaves exactly the text after the header: header lines contribute nothing |
| MigrationFileReader.HasNextOfHeader | Migration_Library/src/main/java/by/eugene/maven/migrations/MigrationFileReader.java:29 | `hasNext` holds at every header line, so the loop reaches the marker line |
| MigrationFileReader.RollbackSectionCut | Migration_Library/src/main/java/by/eugene/maven/migrations/MigrationFileReader.java:36-38 | `next()` with the `--rollback--` delimiter returns the text before the first marker; everything after it is cut |
| MigrationFileReader.ReadFile | Migration_Library/src/main/java/by/eugene/maven/migrations/MigrationFileReader.java:17-44 | A file made of header, forward text, `--rollback--` and anything after reads as the statements of the forward text alone |
| MigrationFileReader.LeadingMarkerSkipped | Migration_Library/src/main/java/by/eugene/maven/migrations/MigrationFileReader.java:36-38 | A `--rollback--` at the very start of the remaining input is skipped by `next()`, so the token is the text after it |
| MigrationFileReader.RollbackRightAfterMarker | Migration_Library/src/main/java/by/eugene/maven/migrations/MigrationFileReader.java:29-41 | When `--rollback--` directly follows the marker line, the rollback section is read as the forward statements |
| MigrationFileReader.NothingAfterMarker | Migration_Library/src/main/java/by/eugene/maven/migrations/MigrationFileReader.java:36-38 | A file that ends at the marker line, or right after `--rollback--`, fails with NoSuchElement |
| MigrationFileReader.MissingResource | Migration_Library/src/main/java/by/eugene/maven/migrations/MigrationFileReader.java:20-24 | A missing resource fails with the file-not-found error for its path and yields no statements |
| MigrationFileReader.KeepNonBlank | Migration_Library/src/main/java/by/eugene/maven/migrations/MigrationFileReader.java:40 | Only non-blank pieces survive, and the result is no longer than its input |
| MigrationFileReader.KeepNonBlankOfBlanks | Migration_Library/src/main/java/by/eugene/maven/migrations/MigrationFileReader.java:40 | A list of blank pieces filters to the empty list |
| MigrationFileReader.SeparatorsOnly | Migration_Library/src/main/java/by/eugene/maven/migrations/MigrationFileReader.java:38-44 | A forward section of only `;` and whitespace yields an empty list, not an error |
| MigrationFileReader.KeepNonBlankStatements | Migration_Library/src/main/java/by/eugene/maven/migrations/MigrationFileReader.java:38-41 | Filtering trimmed, `;`-free pieces leaves only statements |
| MigrationFileReader.StatementsAreStatements | Migration_Library/src/main/java/by/eugene/maven/migrations/MigrationFileReader.java:38-41 | Every returned statement is non-blank, has no trimmable character at either end and contains no `;` |
| MigrationFileReader.StatementsCons | Migration_Library/src/main/java/by/eugene/maven/migrations/MigrationFileReader.java:38-41 | The pipeline works fragment by fragment, in order: the first fragment's trimmed text (when not blank) comes before the rest's statements |
| MigrationFileReader.StatementsOfRendered | Migration_Library/src/main/java/by/eugene/maven/migrations/MigrationFileReader.java:38-41 | Writing statements as `s;` lines and reading them back gives the same statements, in order |
| MigrationFileReader.FileRoundTrip | Migration_Library/src/main/java/by/eugene/maven/migrations/MigrationFileReader.java:17-44 | A file written as header, statements and a rollback section is read back as exactly those statements |
| JavaText.TrimStart | Migration_Library/src/main/java/by/eugene/maven/migrations/MigrationFileReader.java:30 | The leading part `trim` removes is all code points up to U+0020, and the rest starts with a kept character |
| JavaText.TrimEnd | Migration_Library/src/main/java/by/eugene/maven/migrations/MigrationFileReader.java:30 | The same at the end of the string |
| JavaText.Trim | Migration_Library/src/main/java/by/eugene/maven/migrations/MigrationFileReader.java:30 | The result has no trimmable character at either end |
| JavaText.TrimIsMiddle | Migration_Library/src/main/java/by/eugene/maven/migrations/MigrationFileReader.java:30 | The result is the contiguous slice of the input that starts where the leading trimmable characters end |
| JavaText.TrimAfterPrefix | Migration_Library/src/main/java/by/eugene/maven/migrations/MigrationFileReader.java:39 | Trimming a trimmed string behind trimmable characters gives that string back |
| JavaText.TrimmedIsFixed | Migration_Library/src/main/java/by/eugene/maven/migrations/MigrationFileReader.java:39 | `trim` is the identity on trimmed strings |
| JavaText.TrimOfTrimmable | Migration_Library/src/main/java/by/eugene/maven/migrations/MigrationFileReader.java:39 | A string of trimmable characters trims to empty |
| JavaText.TrimSubMultiset | Migration_Library/src/main/java/by/eugene/maven/migrations/MigrationFileReader.java:39 | `trim` adds no character |
| JavaText.Find | Migration_Library/src/main/java/by/eugene/maven/migrations/MigrationFileReader.java:36-38 | The position is the first occurrence of the delimiter at or after the start, or the end when there is none |
| JavaText.FindFirst | Migration_Library/src/main/java/by/eugene/maven/migrations/MigrationFileReader.java:36-38 | The first occurrence is the one found |
| JavaText.FindAbsent | Migration_Library/src/main/java/by/eugene/maven/migrations/MigrationFileReader.java:36-38 | With no occurrence, the token runs to the end of the input |
| JavaText.Split | Migration_Library/src/main/java/by/eugene/maven/migrations/MigrationFileReader.java:38 | `split(";")` gives at least one fragment, no fragment holds `;`, and each draws only on the input's characters |
| JavaText.JoinSplit | Migration_Library/src/main/java/by/eugene/maven/migrations/MigrationFileReader.java:38 | Putting `;` back between the fragments gives the input: no character is lost, added or moved |
| JavaText.SplitJoin | Migration_Library/src/main/java/by/eugene/maven/migrations/MigrationFileReader.java:38 | Fragments free of `;`, joined with `;`, split back into the same fragments |
| JavaText.SplitAtSeparator | Migration_Library/src/main/java/by/eugene/maven/migrations/MigrationFileReader.java:38 | Splitting `x;y` with `x` free of `;` gives `x` followed by the fragments of `y` |
| JavaText.SplitNoSeparator | Migration_Library/src/main/java/by/eugene/maven/migrations/MigrationFileReader.java:38 | Text without `;` is a single fragment |
| Executor.RunBatchRunsAcceptedPrefix | Migration_Library/src/main/java/by/eugene/maven/migrations/MigrationExecutor.java:116-121 | `executeBatch` runs the batch in list order up to the first statement the server refuses, and reports that statement |
| Executor.Accepted | Migration_Library/src/main/java/by/eugene/maven/migrations/MigrationExecutor.java:121 | The accepted prefix is the longest one the server accepts statement by statement |
| Executor.SqlStep | Migration_Library/src/main/java/by/eugene/maven/migrations/MigrationExecutor.java:112-128 | `executeSql` leaves `history` unchanged and appends the accepted prefix to the log. It succeeds iff every command is accepted, then appending exactly the commands; otherwise it fails with the first refused command |
| Executor.SaveStep | Migration_Library/src/main/java/by/eugene/maven/migrations/MigrationExecutor.java:102-110 | The `INSERT` succeeds iff the table exists and the version is free, appending exactly the row `(version, file, now)`; otherwise it is an SQLException |
| Executor.AbortStep | Migration_Library/src/main/java/by/eugene/maven/migrations/MigrationExecutor.java:130-136 | The `DELETE` by file name succeeds iff the table exists. It keeps the log, and a row remains exactly when it was there and belongs to another file; deleting zero rows is no error |
| Executor.MigrationStep | Migration_Library/src/main/java/by/eugene/maven/migrations/MigrationExecutor.java:54-66 | A name without `.sql` fails before anything runs. Success holds iff the file reads, the batch is accepted and the version is free, adding exactly one row and the file's statements. Any failure leaves `history` as it was |
| Executor.RollbackStep | Migration_Library/src/main/java/by/eugene/maven/migrations/MigrationExecutor.java:79-89 | A name without `.sql` fails before anything runs. Success holds iff the rollback batch is accepted and the table exists, removing the rows of that file name and appending its rollback statements |
| Executor.EmptyMigrationIsRecorded | Migration_Library/src/main/java/by/eugene/maven/migrations/MigrationExecutor.java:62-65 | A migration with zero statements still records its row |
| Executor.RefusedStatementSkipsSave | Migration_Library/src/main/java/by/eugene/maven/migrations/MigrationExecutor.java:64-65 | When the batch fails, `saveMigration` is not reached, `history` is unchanged, and the failure is a RuntimeException, not an SQLException |
| Executor.VersionTakenFails | Migration_Library/src/main/java/by/eugene/maven/migrations/MigrationExecutor.java:102-110 | A file whose version is already recorded cannot be migrated (primary key) |
| Executor.MigrateThenRollBack | Migration_Library/src/main/java/by/eugene/maven/migrations/MigrationExecutor.java:54-89 | Migrating a new file and rolling it back restores the `history` table |
| Executor.Database.ExecuteBatch | Migration_Library/src/main/java/by/eugene/maven/migrations/MigrationExecutor.java:121 | The loop over the batch ends in the state `RunBatch` describes and changes only the log; under auto-commit the result is published at once |
| Executor.MigrationExecutor.ExecuteSql | Migration_Library/src/main/java/by/eugene/maven/migrations/MigrationExecutor.java:112-128 | The `addBatch` loop builds the command list in order, and the call ends in `SqlStep`'s state and error |
| Executor.MigrationExecutor.SaveMigration | Migration_Library/src/main/java/by/eugene/maven/migrations/MigrationExecutor.java:102-110 | Ends in `SaveStep`'s state, or leaves the state unchanged with its error |
| Executor.MigrationExecutor.AbortMigration | Migration_Library/src/main/java/by/eugene/maven/migrations/MigrationExecutor.java:130-136 | Ends in `AbortStep`'s state, or leaves the state unchanged with its error |
| Executor.MigrationExecutor.ExecuteMigration | Migration_Library/src/main/java/by/eugene/maven/migrations/MigrationExecutor.java:54-66 | Ends in `MigrationStep`'s state and error, inside the caller's transaction |
| Executor.MigrationExecutor.ExecuteRollback | Migration_Library/src/main/java/by/eugene/maven/migrations/MigrationExecutor.java:79-89 | Ends in `RollbackStep`'s state and error, inside the caller's transaction |
| History.CountFile | Migration_Library/src/main/java/by/eugene/maven/migrations/MigrationManager.java:231-241 | `COUNT(*) WHERE file = ?` is positive iff some row has that file name |
| History.MaxVersion | Migration_Library/src/main/java/by/eugene/maven/migrations/MigrationManager.java:167-175 | `max(version)` read with `getInt` is 0 for an empty table, otherwise a recorded version no row exceeds |
| History.MaxVersionUnique | Migration_Library/src/main/java/by/eugene/maven/migrations/MigrationManager.java:172-175 | Those properties determine the value |
| History.Insert | Migration_Library/src/main/java/by/eugene/maven/migrations/MigrationExecutor.java:104-109 | The insert is refused iff the version is taken, and otherwise appends the row |
| History.WithoutFile | Migration_Library/src/main/java/by/eugene/maven/migrations/MigrationExecutor.java:132-135 | No row of the file is left, and every row left was there before |
| History.WithoutFileMembers | Migration_Library/src/main/java/by/eugene/maven/migrations/MigrationExecutor.java:132-135 | A row survives the delete iff it was there and belongs to another file |
| History.WithoutFileKeepsOthers | Migration_Library/src/main/java/by/eugene/maven/migrations/MigrationExecutor.java:132-135 | Every row of another file is kept |
| History.WithoutFileFrom | Migration_Library/src/main/java/by/eugene/maven/migrations/MigrationExecutor.java:132-135 | Every row left was there before |
| History.WithoutFileKeepsUnique | Migration_Library/src/main/java/by/eugene/maven/migrations/MigrationManager.java:43-49 | The delete keeps the primary key on version |
| History.InsertKeepsUnique | Migration_Library/src/main/java/by/eugene/maven/migrations/MigrationManager.java:43-49 | An accepted insert keeps the primary key on version |
| History.HasFileAfterInsert | Migration_Library/src/main/java/by/eugene/maven/migrations/MigrationExecutor.java:104-109 | After an insert, the recorded files are the old ones plus the new row's |
| History.InsertThenDelete | Migration_Library/src/main/java/by/eugene/maven/migrations/MigrationExecutor.java:102-136 | Inserting a row for a new file and deleting by that file gives the original table back |
| Ordering.LeReflexive | Migration_Library/src/main/java/by/eugene/maven/migrations/MigrationManager.java:210 | `compareTo` order is reflexive |
| Ordering.LeTotal | Migration_Library/src/main/java/by/eugene/maven/migrations/MigrationManager.java:210 | `compareTo` order is total |
| Ordering.LeTransitive | Migration_Library/src/main/java/by/eugene/maven/migrations/MigrationManager.java:210 | `compareTo` order is transitive |
| Ordering.LeAntisymmetric | Migration_Library/src/main/java/by/eugene/maven/migrations/MigrationManager.java:210 | `compareTo` order is antisymmetric |
| Ordering.SortAscending | Migration_Library/src/main/java/by/eugene/maven/migrations/MigrationManager.java:210 | `sorted()` gives an ascending permutation of its input |
| Ordering.SortDescending | Migration_Library/src/main/java/by/eugene/maven/migrations/MigrationManager.java:118 | `sort(Comparator.reverseOrder())` gives a descending permutation of its input |
| Ordering.Reverse | Migration_Library/src/main/java/by/eugene/maven/migrations/MigrationManager.java:118 | Element i of the result is element n-1-i of the input |
| Ordering.ReversePermutes | Migration_Library/src/main/java/by/eugene/maven/migrations/MigrationManager.java:118 | Reversing is a permutation |
| Ordering.SortedPermutationUnique | Migration_Library/src/main/java/by/eugene/maven/migrations/MigrationManager.java:210 | Two ascending permutations of the same names are equal, so the sorted listing is determined by its names |
| Ordering.FirstIsLeast | Migration_Library/src/main/java/by/eugene/maven/migrations/MigrationManager.java:210 | The first of a sorted listing precedes every name in it |
| Manager.Prefixed | Migration_Library/src/main/java/by/eugene/maven/migrations/MigrationManager.java:208-209 | Each entry becomes `dirName + "/" + name`, one for one, in order |
| Manager.GetFiles | Migration_Library/src/main/java/by/eugene/maven/migrations/MigrationManager.java:193-217 | A missing directory is the only failure. Otherwise the result is the prefixed entries, sorted ascending |
| Manager.CreateHistory | Migration_Library/src/main/java/by/eugene/maven/migrations/MigrationManager.java:43-49 | `create table if not exists` leaves an existing table alone and otherwise creates an empty one, keeping the log |
| Manager.Finished | Migration_Library/src/main/java/by/eugene/maven/migrations/MigrationManager.java:92-102 | Commit happens iff the loop finished. An SQLException ends `RolledBack`, anything else `Aborted`, both with the published state kept |
| Manager.RollbackSelection | Migration_Library/src/main/java/by/eugene/maven/migrations/MigrationManager.java:132-135 | Every selected file's version lies in `(target, current]` |
| Manager.SelectionMembers | Migration_Library/src/main/java/by/eugene/maven/migrations/MigrationManager.java:132-135 | A file is selected iff it is listed and its version lies in `(target, current]`. Whether it is recorded is not consulted |
| Manager.SelectionKeepsOrder | Migration_Library/src/main/java/by/eugene/maven/migrations/MigrationManager.java:118-135 | The selected files stay in descending name order |
| Manager.RollbackRunCases | Migration_Library/src/main/java/by/eugene/maven/migrations/MigrationManager.java:114-157 | The run's four cases: missing directory, failed version query, nothing to do, and the loop over the selection |
| Manager.MigrateLoopRunsPending | Migration_Library/src/main/java/by/eugene/maven/migrations/MigrationManager.java:83-91 | Over distinct names, a loop without error executes exactly the files with no row of their name, in listing order. Their statements are appended to the log and one row per file to `history` |
| Manager.MigrateLoopRecordsAll | Migration_Library/src/main/java/by/eugene/maven/migrations/MigrationManager.java:83-91 | After a loop without error every listed file has a row and no earlier row is lost |
| Manager.MigrateLoopAllApplied | Migration_Library/src/main/java/by/eugene/maven/migrations/MigrationManager.java:83-91 | When every listed file has a row, the loop executes nothing |
| Manager.MigrateRunCommits | Migration_Library/src/main/java/by/eugene/maven/migrations/MigrationManager.java:74-93 | A committed run publishes exactly the pending files' rows and statements |
| Manager.MigrateRunAllOrNothing | Migration_Library/src/main/java/by/eugene/maven/migrations/MigrationManager.java:83-102 | A run that does not commit publishes nothing, and it ends `RolledBack` only on an SQLException |
| Manager.MigrateIdempotent | Migration_Library/src/main/java/by/eugene/maven/migrations/MigrationManager.java:83-91 | Migrating again after a committed run executes nothing and changes nothing |
| Manager.RenamedMigrationBlocks | Migration_Library/src/main/java/by/eugene/maven/migrations/MigrationManager.java:230-244 | The applied check is by file name: a listed file without a row whose version is already recorded makes the loop fail |
| Manager.RollbackLoopReverts | Migration_Library/src/main/java/by/eugene/maven/migrations/MigrationManager.java:139-143 | A loop without error runs each selected file's rollback statements in order. It leaves exactly the rows that were there and whose file was not selected |
| Manager.NothingToRollBack | Migration_Library/src/main/java/by/eugene/maven/migrations/MigrationManager.java:124-130 | With `current <= target` the run executes nothing and commits nothing |
| Manager.RollbackReachesTarget | Migration_Library/src/main/java/by/eugene/maven/migrations/MigrationManager.java:114-147 | When every row is a listed file at its own version, a committed rollback leaves no row above the target |
| Manager.RollbackLoopLeavesAtMostTarget | Migration_Library/src/main/java/by/eugene/maven/migrations/MigrationManager.java:132-143 | Rolling back every listed file with a version in (target, current] leaves only rows at or below the target |
| Manager.MigrationManager.constructor | Migration_Library/src/main/java/by/eugene/maven/migrations/MigrationManager.java:61-65 | The constructor creates the `history` table and publishes it at once (auto-commit) |
| Manager.MigrationManager.IsApplied | Migration_Library/src/main/java/by/eugene/maven/migrations/MigrationManager.java:230-249 | Fails iff the table is missing, with the status-check error. Otherwise true iff some row has that file name |
| Manager.MigrationManager.GetCurrentDbVersion | Migration_Library/src/main/java/by/eugene/maven/migrations/MigrationManager.java:167-180 | Fails iff the table is missing. Otherwise the result is 0 for an empty table, else a recorded version no row exceeds |
| Manager.MigrationManager.Finish | Migration_Library/src/main/java/by/eugene/maven/migrations/MigrationManager.java:92-102 | Commit, or `rollback()` on an SQLException, and then close: the published state is `Finished`'s |
| Manager.MigrationManager.MigrateAll | Migration_Library/src/main/java/by/eugene/maven/migrations/MigrationManager.java:83-91 | The loop ends in `MigrateLoop`'s state and error, publishing nothing |
| Manager.MigrationManager.ExecuteMigrations | Migration_Library/src/main/java/by/eugene/maven/migrations/MigrationManager.java:74-103 | The published state and outcome are `MigrateRun`'s |
| Manager.MigrationManager.RollBackAll | Migration_Library/src/main/java/by/eugene/maven/migrations/MigrationManager.java:139-143 | The loop ends in `RollbackLoop`'s state and error, publishing nothing |
| Manager.MigrationManager.ExecuteRollbacks | Migration_Library/src/main/java/by/eugene/maven/migrations/MigrationManager.java:114-157 | The published state and outcome are `RollbackRun`'s |
| Commands.IsSuitIsPrefix | Migration_Library/src/main/java/by/eugene/maven/commands/Command.java:56-58 | A command suits exactly the inputs that are its word followed by anything, so `rollbacks` suits `rollback` |
| Commands.ParseFromSucceeds | Migration_Library/src/main/java/by/eugene/maven/commands/Command.java:29-42 | The loop finishes iff every parameter position holds a `-` token followed by a token that does not start with `-` |
| Commands.ParamsSucceeds | Migration_Library/src/main/java/by/eugene/maven/commands/Command.java:26-45 | `parseParams` succeeds iff `args[1..]` is a sequence of `-name value` pairs |
| Commands.ShortArgsHaveNoParams | Migration_Library/src/main/java/by/eugene/maven/commands/Command.java:29 | `args[0]` is ignored: lists of length 0 or 1 give an empty map |
| Commands.ParseFromFailsAt | Migration_Library/src/main/java/by/eugene/maven/commands/Command.java:32-41 | The first bad position decides the error: "Missing value for parameter: " + arg for a `-` token, "Invalid argument format: " + arg otherwise |
| Commands.ParseFromKeeps | Migration_Library/src/main/java/by/eugene/maven/commands/Command.java:33-35 | A key the rest of the list does not name keeps its value |
| Commands.ParseFromLastValue | Migration_Library/src/main/java/by/eugene/maven/commands/Command.java:33-35 | A parameter's value is the token after its last occurrence: a repeated flag keeps the last value |
| Commands.ParseFromEntries | Migration_Library/src/main/java/by/eugene/maven/commands/Command.java:33-35 | Every entry is a key of the list with the token right after it as its value. No flag is checked against the command's applicable parameters |
| Commands.ParamsShape | Migration_Library/src/main/java/by/eugene/maven/commands/Command.java:32-35 | On success every key starts with `-` and no value does |
| Commands.ParseParams | Migration_Library/src/main/java/by/eugene/maven/commands/Command.java:26-45 | The index loop with its `i++` skip computes `Params` |
| Commands.ParseInt | Migration_Library/src/main/java/by/eugene/maven/commands/RollbackCommand.java:74 | `Integer.parseInt` yields a 32-bit value or fails with NumberFormat on the input |
| Commands.Decimal | Migration_Library/src/main/java/by/eugene/maven/commands/RollbackCommand.java:74 | A non-empty string of decimal digits |
| Commands.DecimalValue | Migration_Library/src/main/java/by/eugene/maven/commands/RollbackCommand.java:74 | Reading the digits written for n gives n |
| Commands.ParseIntOfShow | Migration_Library/src/main/java/by/eugene/maven/commands/RollbackCommand.java:74 | `parseInt` reads back every 32-bit number as `toString` writes it |
| Commands.ParseIntAcceptsDigits | Migration_Library/src/main/java/by/eugene/maven/commands/RollbackCommand.java:74 | Only an optional sign followed by digits is accepted |
| Commands.VersionRequired | Migration_Library/src/main/java/by/eugene/maven/commands/RollbackCommand.java:69-72 | Well-formed arguments without `-version` are refused with "Parameter -version is required" |
| Commands.VersionTarget | Migration_Library/src/main/java/by/eugene/maven/commands/RollbackCommand.java:69-74 | The target is the number after the last `-version` |
| Commands.ArgumentErrorsFirst | Migration_Library/src/main/java/by/eugene/maven/commands/RollbackCommand.java:69 | A `parseParams` error is reported before `-version` is looked at |
| Commands.HelpDespiteBadArguments | Migration_Library/src/main/java/by/eugene/maven/commands/Command.java:47-53 | `rollback -h` does not parse, yet it contains `-h`, so the help switch answers it |
| Commands.RollbackCommand.constructor | Migration_Library/src/main/java/by/eugene/maven/commands/RollbackCommand.java:52-55 | Registered under the word `rollback`, with applicable parameters `[-version]` and its help text |
| Commands.RollbackCommand.Execute | Migration_Library/src/main/java/by/eugene/maven/commands/RollbackCommand.java:67-75 | An argument, missing-version or number error leaves the database untouched. Otherwise `executeRollbacks` runs once with the parsed target and ends as `RollbackRun` does |
| Commands.RollbackCommand.HandleHelpArgument | Migration_Library/src/main/java/by/eugene/maven/commands/Command.java:47-53 | `-h` anywhere in the arguments gives the help text and nothing runs. Otherwise the result is `Execute`'s |

## Left out

- Logging, and printing the help text to the console: output only. The help answer is returned as a value.
- Connections: `getConnection()` opens a new JDBC connection on every call, so the executor's writes are not really inside the manager's transaction. The model runs every operation of a run against one transaction instead: a working state, published on commit.
- Manager.MigrationManager.IsApplied and Manager.MigrationManager.GetCurrentDbVersion read the transaction's working state. In the source they read through their own connection.
- Timestamps: `Instant.now()` is the parameter `now`, and one value of it stamps every row a run writes. In the source each `saveMigration` reads the clock again, so rows of one run may carry different instants. No operation of the core reads a timestamp back.
- `MigrationFileReader.readMigrationVersion` and `readRollbacksFromFile` are not part of this model. Their results are the given functions `version` and `rollbacks` of `Resources`.
- SQL semantics: statements are opaque strings appended to a log. Whether the server accepts a statement is the given predicate `refuses` over the statements run so far.
- Manager.CreateHistory: the `create table` statement is not refused by the server in the model, and it is not written to the statement log.
- Directory enumeration via the class loader and URIs. The listing, with the directory's own name, is a parameter; a missing directory is `None`.
- `String.split` drops trailing empty fragments. `JavaText.Split` keeps them, but they are blank, so the statements are the same.
- Ordering.Le compares code points. `String.compareTo` compares UTF-16 units, which differs only for characters outside the Basic Multilingual Plane.
- Commands.ParseInt accepts ASCII digits only. `Integer.parseInt` also accepts other Unicode decimal digits.
- `MigrationTool`, `InformationCommand`, `MigrateCommand`, `ConnectionManager`, `PropertiesUtils` and `Main` are not part of this model. They are the console loop, printing, delegation and I/O.
- Exceptions are values: `MigrationError`, `ReadError` and `CommandError`. A run's `Outcome` records whether `rollback()` was called.
