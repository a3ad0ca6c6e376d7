# Verified model of easy-infra

easy-infra manages local infrastructure: a Go server keeps workspaces, profiles and services in SQLite, backs up and restores Postgres databases and MinIO stores, and starts Docker containers; a React client shows all this. This project models the parts of it whose correctness is not visible in any single function, and proves what they promise, for all inputs and all interleavings.

Run `dafny verify dfyconfig.toml` in this folder.

## What is modelled

**Postgres dump and restore** (`Quoting`, `ConnectionString`, `CopyFormat`, `PostgresScript`, `PostgresDump`, `PostgresRoundTrip`, `PostgresDatabase`, `PostgresSource`, `PostgresSql`, `PostgresRestore`, `PostgresTruncation`). The dump is a printer and the restore a parser without a lexer. The printer is modelled loop by loop over a catalog and a sink that may run full; the parser line by line over a reader. A declarative parse stands between them, and the round trip is an equivalence: the exact condition on the text of a piece under which it comes back. On top of that an abstract database says when each statement is admitted, and what the plan of the dump rebuilds is compared, field by field, with a source that knows which index each constraint stands on and where each sequence stands, of which the catalog queries show a part. The server reads the statements for itself: `ReadSql` is a reader of the SQL that a dump holds, and `Understands` says that a statement does what it says, and that COPY data is read by "Text Format" of the PostgreSQL COPY reference page. Types, defaults and definitions are texts that the server has printed itself; `Printed` says what is known of them (quotes and brackets closed, no comma outside them, the reserved words NOT and DEFAULT in no type), and the server gives a default or a definition the meaning it had where it was printed.

**Background sessions** (`BackupStore`, `LogWriter`, `Sessions`, `SessionSafety`, `BackupManager`, `Polling`). Starts, goroutines, cancels, deletes, restarts and a polling client are steps of one transition system; each store statement and each critical section is one step. The invariant is per session and is kept by every step; the theorems hold in every reachable state. The classes are the same code as methods, and their calls are shown to be runs of the steps. `requests`, `outputs`, `settles`, `finished`, `interrupted`, `made`, `cleaned` and `dropped` only record what happened: no step reads them except to draw ids and folder names never used before and to know what a session was started for. The client may have any number of requests and timers under way: exact delivery is proved for the runs in which no attach finds a request in flight, and runs outside of these are given in which it fails.

**MinIO snapshots and prefix walks** (`Paths`, `FileTree`, `Minio`, `PrefixWalk`). Keys become paths, paths a tree of files and directories. When a backup succeeds and when a restore is exact are both equivalences. The walk of a prefix has a termination measure, and its exact condition.

**Workspaces** (`WorkspaceStore`, `Facade`, `FacadeEffects`, `FreshNames`, `Transfer`, `TransferEffects`). Requests come one at a time. What each does is also stated on the tables before and after, without the functions that compute it. The registry of service types, the validity of configs and the defaults are parameters; `RegistryOk` asks that types are named and defaults valid.

**Scanners and small algorithms** (`SqlTemplate`, `RedisTokenizer`, `RowEdit`, `Docker`, `UploadPool`, and the shared `Text`, `Order`, `Distinct`).

## What is false of the code

Each of these is proved with a concrete run or input, or is one half of an equivalence:

- A statement with an inner line ending in a semicolon, or a catalog definition that begins like a comment or a COPY header, is not replayed as it was dumped (`PostgresScript.StatementRoundTrip`).
- The query for indexes leaves out every index that a constraint stands on, also the plain unique index that a foreign key was bound to. Such an index is in no dump: if no key covers the same columns the dump is rejected, and if one does the restored database lacks the index (`PostgresSource.Restorable`, `PostgresSource.PlainIndexLost`). The comment on `dump` says a dump reloads cleanly; it does exactly when all foreign keys refer to what a key covers.
- The position of a sequence is in the dump only if pg_sequences shows a last value, which it does not for a sequence that has not been called since it was positioned (`ALTER SEQUENCE ... RESTART WITH`, `setval(..., false)`) or that the role may not read. The restored sequence stands at its start value and hands out values that the source has left behind (`PostgresSource.Restorable`, `PostgresSource.PositionLost`, `PostgresSource.RestartLost`, `PostgresRestore.DumpThenRestore`).
- The name in a setval statement sits in a string literal whose single quotes are not doubled. A sequence with a last value and a single quote in its name or schema breaks the restore, or sets another sequence (`PostgresRoundTrip.SetvalReadsBack`, `PostgresRoundTrip.SetsAnother`, `PostgresRestore.DumpThenRestore`).
- A dump cut short restores without an error unless the cut is inside COPY data (`PostgresTruncation.CutDump`, `PostgresTruncation.PartRestores`).
- A backup interrupted by a restart of the server is settled as failed and keeps its folder (`SessionSafety.InterruptedKeepsFolder`).
- A reply to a poll older than the latest attach repeats or skips lines, and if it is of another session shows that session's lines and status (`Polling.OwnReplyExact`, `Polling.LateReplyTaken`, `Polling.ForeignLines`, `Polling.RepeatedLines`).
- A key cell whose printed text is not read back as the stored value, such as an int8 beyond 2^53, addresses no row or another one (`RowEdit.KeyFindsItsRow`, `RowEdit.NeighbourAddressed`). The key of a row that an outer join made up is made of empty texts, and addresses a stored row whose text key is empty (`RowEdit.NullExtendedKey`, `RowEdit.EmptyKeyAddressed`).
- Object keys that differ only by empty or "." segments share one file of a snapshot (`Minio.EmptySegmentsClobber`).
- A stored key that ends in "/" leaves the walk of a folder above it without an end of its own: it comes back to the same level until the timeout of the request (internal/server/browse.go:238) ends it with an error (`PrefixWalk.WalkEnds`).
- An import whose active profile is not among its profiles leaves a workspace with a dangling active profile (`Transfer.ImportKeeps`); a service without an id but with a name changes its id on the way (`Transfer.ServicesRoundTrip`).
- The client's preview differs from the server's text for missing and empty values, and for placeholders with white space that only JavaScript knows (`SqlTemplate.MirrorRenders`, `SqlTemplate.MirrorScans`, `SqlTemplate.MirrorDiffers`).

## Model

| member | source | states |
|---|---|---|
| `Quoting.QuoteIdentLossless` | internal/service/postgres_db.go:201-204 | a quoted identifier reads back as its name by the rules of SQL delimited identifiers, whatever the name holds |
| `Quoting.QuoteIdentInjective` | internal/service/postgres_db.go:201-204 | different names never quote alike |
| `ConnectionString.ConnString` | internal/service/postgres_db.go:121-136 | the settings joined in order, the optional password and search_path only when not empty |
| `ConnectionString.ConnStringLossless` | internal/service/postgres_db.go:95-137 | decoding the discrete connection string by the rules of "Keyword/Value Connection Strings" yields exactly the given host, port, user, database and optional password and schema, whatever quotes, backslashes or spaces they hold |
| `PostgresScript.StatementRoundTrip` | internal/service/postgres_restore.go:43-61 | a statement comes back whole and alone from the line-by-line parser if and only if no inner line of it ends in a semicolon and it begins neither as a comment nor, on one line, as a COPY header |
| `PostgresScript.CopyBlockRoundTrip` | internal/service/postgres_restore.go:70-91 | a COPY block comes back byte for byte if and only if its target has no newline and its rows are newline-terminated lines other than the end marker |
| `PostgresScript.ScriptRoundTrip` | internal/service/postgres_restore.go:32-91 | replaying the text of a script issues exactly its statements (trimmed) and COPY blocks in order if and only if every piece comes back on its own |
| `CopyFormat.RowsRoundTrip` | internal/service/postgres_dump.go:288-299 | the rows of a table, written in COPY text format, are read back as they were, NULLs and every escaped character included |
| `CopyFormat.EscapedFieldSafe` | internal/service/postgres_dump.go:288-299 | an escaped field holds no raw tab, newline or carriage return, neither is nor begins like the end marker, is not the null marker, and reads back as it was |
| `PostgresDump.SqlWriter.Printf` | internal/service/postgres_dump.go:138-150 | the sticky writer passes on what fits and remembers the first error |
| `PostgresDump.TableDDL` | internal/service/postgres_dump.go:182-228 | the loop over the columns builds the CREATE TABLE text |
| `PostgresDump.DumpTableData` | internal/service/postgres_dump.go:288-299 | one COPY block: header, rows, end marker |
| `PostgresDump.DumpHeader` | internal/service/postgres_dump.go:23-41 | banner, encoding and, for a schema other than public, its creation |
| `PostgresDump.DumpData` | internal/service/postgres_dump.go:67-72 | the COPY blocks of all tables, in table order |
| `PostgresDump.EmitConstraints` | internal/service/postgres_dump.go:79-101 | one pass over all tables that emits exactly the constraints wanted |
| `PostgresDump.DumpIndexes` | internal/service/postgres_dump.go:103-111 | the indexes that the catalog query returned, of all tables, after every constraint; which those are is `PostgresSource.NothingLeftOut` |
| `PostgresDump.DumpSetvals` | internal/service/postgres_dump.go:113-117 | one setval per sequence that has a last value |
| `PostgresDump.Dump` | internal/service/postgres_dump.go:22-120 | the dump of a schema writes the text of the plan of what the catalog queries return, in plan order; it succeeds exactly when the whole text fits the sink, and otherwise the sink holds a prefix of it |
| `PostgresRoundTrip.DumpRoundTrip` | internal/service/postgres_dump.go:22-120 | replaying a dump issues exactly the statements and COPY blocks of its plan, in order and byte for byte, if and only if names have no newline where a COPY block needs it and no fragment has an inner line ending in a semicolon |
| `PostgresRoundTrip.SetvalReadsBack` | internal/service/postgres_dump.go:113-117 | a setval statement reads back, as a string literal holding a qualified name, as the sequence and value it was printed for if and only if no single quote is in the schema or the name; otherwise what it reads as, if anything, is a shorter name |
| `PostgresRoundTrip.SetsAnother` | internal/service/postgres_dump.go:113-117 | a name whose single quotes all come in pairs makes a statement that sets another sequence |
| `PostgresSql.ReadsSequenceBack` | internal/service/postgres_dump.go:303-321 | a reader of CREATE SEQUENCE gets exactly schema, name, type, increment, minimum, maximum, start and cycle |
| `PostgresSql.ReadsTableBack` | internal/service/postgres_dump.go:182-228 | a reader of CREATE TABLE gets exactly schema, name and columns: of each column its name, type, NOT NULL and default, whatever commas their brackets and quotes hold |
| `PostgresSql.ReadsConstraintBack` | internal/service/postgres_dump.go:90-90 | a reader of ALTER TABLE gets exactly schema, table, name and definition of the constraint |
| `PostgresSql.ReadsSchemaBack` | internal/service/postgres_dump.go:36-40 | CREATE SCHEMA names exactly the schema |
| `PostgresSql.ReadsCopyBack` | internal/service/postgres_dump.go:288-290 | a COPY header names exactly schema and table |
| `PostgresSql.StatementReadsBack` | internal/service/postgres_dump.go:22-120 | every statement of a dump, read as SQL by its keywords, says what it was printed for, but for the names in a setval |
| `PostgresDatabase.PlanRuns` | internal/service/postgres_dump.go:52-117 | on an abstract database where sequences and tables need their schema, COPY needs its table, a default its sequence, and a foreign key a matching key constraint and satisfying rows, the plan of a consistent catalog runs from an empty schema to exactly what the catalog lists if every foreign key refers to columns that a key covers, cyclic and forward references included, and is rejected if one does not |
| `PostgresSource.NothingLeftOut` | internal/service/postgres_dump.go:264-288 | the index query leaves out nothing but the indexes of constraints if and only if every index that a foreign key stands on was made for a key |
| `PostgresSource.Restorable` | internal/service/postgres_dump.go:52-117 | the plan of the dump of a live schema rebuilds exactly that schema, indexes and sequence positions included, if and only if every foreign key, of this schema or another, stands on the index of a key and every sequence without a last value to read, because it has not been called or the role may not read it, stands uncalled at its start value; it is rejected exactly when a foreign key refers to columns that no key covers |
| `PostgresSource.ListsOnly` | internal/service/postgres_dump.go:264-288 | the indexes of a table in a rebuilt source are those that no constraint owns, each once, in order, and only so |
| `PostgresSource.PlainIndexLost` | internal/service/postgres_dump.go:264-288 | two live databases with a foreign key on a plain unique index: the dump of one is rejected, the other is restored without the index |
| `PostgresSource.ImageSequences` | internal/service/postgres_dump.go:323-343 | what the rows of pg_sequences make a restore rebuild is the sequences at their positions if and only if no sequence without a last value stands elsewhere than uncalled at its start value |
| `PostgresSource.PositionLost` | internal/service/postgres_dump.go:113-117 | any sequence that was positioned away from its start value and not called since is restored without an error at its start value, and hands that out next |
| `PostgresSource.RestartLost` | internal/service/postgres_dump.go:113-117 | a sequence that starts at 1 and was restarted with 100 hands out 1 after the restore |
| `PostgresDatabase.PassesAddEachOnce` | internal/service/postgres_dump.go:79-101 | the two constraint passes together emit every constraint exactly once |
| `PostgresRestore.Conn.Run` | internal/service/postgres_restore.go:57-59 | one statement takes effect or fails and changes nothing |
| `PostgresRestore.ReplayCopy` | internal/service/postgres_restore.go:72-91 | collects data lines up to the end marker, streams them in one COPY, and fails on a missing marker |
| `PostgresRestore.Replay` | internal/service/postgres_restore.go:32-68 | the loop over lines runs exactly the actions of the declarative parse; it stops at the first that is rejected or where COPY data is not ended, with all actions before that run |
| `PostgresRestore.Restore` | internal/service/postgres_restore.go:15-27 | all or nothing: on success the database is what the script makes of it, on any failure it is what it was |
| `PostgresRestore.ActionsRunPlan` | internal/service/postgres_restore.go:32-91 | the actions parsed from steps whose names can be read do to the database what the steps do |
| `PostgresRestore.DumpThenRestore` | internal/service/postgres_dump.go:22-120 | end to end, on a server that reads every statement for itself: replaying the dump of a live schema with a clean catalog into an empty database rebuilds exactly the source sequence positions included, if and only if every foreign key stands on the index of a key, every sequence without a last value to read stands uncalled at its start value, and no sequence with a last value has a single quote in its name or schema; a foreign key that no key backs is rejected, hence rolled back |
| `PostgresTruncation.CutDump` | internal/service/postgres_restore.go:32-91 | a clean dump cut anywhere: all steps before the cut are replayed, of the step that is cut at most a statement that happens to end in a semicolon, and an error is reported if and only if the cut is inside COPY data |
| `PostgresTruncation.PartRestores` | internal/service/postgres_restore.go:15-68 | a dump cut after any of its steps restores without an error, as just those steps |
| `BackupStore.Store.constructor` | internal/backup/store.go:115-147 | opening the store marks every session left running as interrupted and changes nothing else |
| `BackupStore.Store.RunningForService` | internal/backup/store.go:179-195 | a running session of the slot that none is later than, or none if and only if none runs |
| `BackupStore.Store.Delete` | internal/backup/store.go:249-261 | removes a session and its log together, or reports it missing |
| `BackupStore.Store.AppendLog` | internal/backup/store.go:265-275 | appends one row numbered one past the greatest |
| `BackupStore.Store.Logs` | internal/backup/store.go:279-297 | the rows past the cursor, in order |
| `BackupStore.AppendKeepsNumbered` | internal/backup/store.go:263-275 | max plus one keeps a log numbered 1, 2, 3, ... without gaps |
| `BackupStore.RowsAfterOfNumbered` | internal/backup/store.go:277-297 | on such a log asking past seq k gives exactly the rows not seen yet |
| `LogWriter.SplitComplete` | internal/server/backup.go:722-750 | splitting an output at newlines loses nothing and no line holds a newline |
| `LogWriter.SplitUnique` | internal/server/backup.go:722-750 | the split is the only one |
| `LogWriter.SplitConcat` | internal/server/backup.go:732-743 | splitting may be done in parts: what is left over goes in front of what comes next |
| `LogWriter.StoreLogWriter.Write` | internal/server/backup.go:732-743 | appends every complete line and keeps the partial one |
| `LogWriter.StoreLogWriter.Flush` | internal/server/backup.go:745-750 | appends a trailing partial line exactly when it is not empty |
| `LogWriter.WriteAll` | internal/server/backup.go:722-750 | whatever the chunks, the lines of the log grow by the newline-split of the whole output, numbered on, and no other log or session changes |
| `Sessions.Classify` | internal/server/backup.go:118-132 | how a run settles: success exactly without an error, with the snapshot it was started for and no error text; otherwise without a snapshot: unsupported exactly for an unimplemented service, cancelled exactly for a cancellation that is not that, an error with its text for the rest |
| `SessionSafety.StepKeeps` | internal/server/backup.go:91-146 | every step of a start, a goroutine, a delete or a restart keeps the invariant |
| `SessionSafety.RunKeeps` | internal/server/backup.go:91-146 | so the invariant holds after every interleaving of steps from an empty store |
| `SessionSafety.NeverRevived` | internal/backup/store.go:299-310 | no step makes a settled session run again or changes its row |
| `SessionSafety.OneRunningPerSlot` | internal/server/backup.go:82-102 | at most one running session per workspace, service, profile and kind in every reachable state |
| `SessionSafety.SettlesOnce` | internal/server/backup.go:117-132 | a stored session has settled exactly once if it is not running and not at all if it is |
| `SessionSafety.CancelsAreRunning` | internal/server/backup.go:103-115 | a registered cancel function always belongs to a running session with a live goroutine |
| `SessionSafety.FinishHitsLiveRow` | internal/server/backup.go:117-132 | the last statement of a goroutine finds its row still stored and running, and makes it what the outcome says |
| `SessionSafety.SettledAsRunEnded` | internal/server/backup.go:117-132 | in every reachable state a session settled by its goroutine says what its run returned: success with the snapshot it was started for, or the status and text of the error and no snapshot |
| `SessionSafety.SettledByRestart` | internal/backup/store.go:137-146 | one settled by a restart is an error that says so, without a snapshot |
| `SessionSafety.DeleteHoldsRow` | internal/server/backup.go:551-586 | a delete that has read a session still holds its row as it is |
| `SessionSafety.DeleteSparesRunning` | internal/server/backup.go:551-586 | no step of a delete removes a running session or touches its log |
| `SessionSafety.WholeOutputLogged` | internal/server/backup.go:108-133 | a session settled by its goroutine has the newline-split of the whole output of its run in its log |
| `SessionSafety.FailureLeavesNoFolder` | internal/server/backup.go:119-129 | the folder of a failed or cancelled session stays if and only if a restart interrupted the session after its run had made the folder and before its clean-up, and no delete has dropped the folder since; a session that no restart interrupted has cleaned up |
| `SessionSafety.SuccessKeepsFolder` | internal/server/backup.go:117-131 | the folder of a successful or unsupported session is there if and only if its run made it and no delete has dropped it since |
| `SessionSafety.InterruptedKeepsFolder` | internal/backup/store.go:137-146 | a run in which a restart settles a backup as failed and its folder stays |
| `BackupManager.Manager.Start` | internal/server/backup.go:91-136 | returns the latest running session of the slot and changes nothing, or creates one session and registers its cancel function |
| `BackupManager.Manager.AfterRun` | internal/server/backup.go:111-132 | flush, forget, clean up when failed or cancelled, settle: the whole new state |
| `BackupManager.StartIsRun` | internal/server/backup.go:91-136 | a start on its own is a run of the protocol steps |
| `BackupManager.ReattachIsRun` | internal/server/backup.go:95-99 | so is one that finds a running session |
| `BackupManager.AfterRunIsRun` | internal/server/backup.go:108-133 | so is the end of a goroutine: it does to store, folders and cancel functions what the steps do |
| `BackupManager.DeleteIsRun` | internal/server/backup.go:551-586 | a delete on its own takes a settled session with its log and the folder of its snapshot, if it has one, and nothing else; a running or missing session it leaves alone |
| `Polling.BackupSessionHook.Attach` | ui/src/features/backups/hooks/useBackupSession.ts:81-91 | starts over on a session and asks for its whole log |
| `Polling.BackupSessionHook.Receive` | ui/src/features/backups/hooks/useBackupSession.ts:60-78 | appends the new lines, moves the cursor to the last seq, takes over the status, and asks again only while running |
| `Polling.AsksAgain` | ui/src/features/backups/hooks/useBackupSession.ts:60-79 | in every run of server, network and client, a client that is not stopped and shows a session as running has a timer set or a request under way; a detached one shows nothing |
| `Polling.AttachAsks` | ui/src/features/backups/hooks/useBackupSession.ts:81-91 | an attach shows the session as running with nothing of before, and sends one request for its log from the beginning |
| `Polling.TimerAfterReply` | ui/src/features/backups/hooks/useBackupSession.ts:51-78 | taking a reply of a running session sets a timer; any other reply and a failed request set none, and the failure is shown; a stopped client takes nothing |
| `Polling.StopsAsking` | ui/src/features/backups/hooks/useBackupSession.ts:39-45 | a client that detaches or unmounts has stopped: no timer, and no request until the next attach |
| `Polling.ReceiveExact` | ui/src/features/backups/hooks/useBackupSession.ts:60-75 | a reply, of whatever session, keeps the shown lines exact if and only if it is empty or holds exactly the next lines of the shown session, numbered on from the cursor |
| `Polling.OwnReplyExact` | ui/src/features/backups/hooks/useBackupSession.ts:60-75 | a reply read off the session's own log does so if and only if it is empty or its cursor is still the current one |
| `Polling.LateReplyTaken` | ui/src/features/backups/hooks/useBackupSession.ts:47-78 | a reply that arrives after an attach to another session becomes that one's lines, cursor and status |
| `Polling.ForeignLines` | ui/src/features/backups/hooks/useBackupSession.ts:47-91 | a run in which the client shows a line of one session as a line of another that has logged none |
| `Polling.RepeatedLines` | ui/src/features/backups/hooks/useBackupSession.ts:47-91 | a run in which attaching twice shows a line twice |
| `Polling.MoveKeeps` | ui/src/features/backups/hooks/useBackupSession.ts:39-108 | every move of server, network and client (attach, detach, unmount, timers, failures and replies) keeps the delivery invariant, an attach if it finds no request in flight |
| `Polling.LogGrows` | internal/backup/store.go:263-275 | a stored session's log only grows, and not once it has settled |
| `Polling.ShowsPrefix` | ui/src/features/backups/hooks/useBackupSession.ts:47-79 | under every interleaving in which no attach finds a request in flight, the shown lines are the first lines of the log, each once, in order |
| `Polling.ExactDelivery` | internal/server/backup.go:605-635 | in such a run a client that shows a session as settled shows how it settled, its snapshot and its error, and holds its whole log, which for a session no restart interrupted is the newline-split of the whole output |
| `Paths.SafeJoinContained` | internal/service/minio.go:537-544 | the join is refused exactly when the cleaned path is not inside the base, and what is accepted has no ".." left |
| `Paths.SafeJoinClean` | internal/service/minio.go:537-544 | a clean key is placed at base, bucket, key |
| `Paths.SafeJoinInjective` | internal/service/minio.go:537-544 | on clean keys different objects get different paths |
| `Paths.ResolveRules` | internal/service/minio.go:537-544 | anywhere in a path an empty segment and "." say nothing, and ".." takes back the segment before it |
| `Paths.UpAll` | internal/service/minio.go:537-544 | ".." goes up one level, and on above where there is none |
| `Paths.UpwardKey` | internal/service/minio.go:537-544 | a key that begins with two or more ".." is refused, unless what follows leads back into the base |
| `Paths.TwoUp` | internal/service/minio.go:537-544 | "../../x" is refused under a base that does not end in "x" |
| `FileTree.SaveAllSucceeds` | internal/service/minio.go:448-471 | files can be written into a fresh folder exactly when none is a directory on the way to another |
| `FileTree.SaveAllWrites` | internal/service/minio.go:448-471 | a path then holds what was last written to it and other files stay |
| `Minio.FilterBuckets` | internal/service/minio.go:265-284 | the available names that are wanted, in order, and the wanted ones that are missing |
| `Minio.FilteredParts` | internal/service/minio.go:265-284 | the wanted names keep the order of the available ones |
| `Minio.ReadingIs` | internal/service/minio.go:506-521 | a manifest is read only from a file "manifest.json" of the folder that decodes; only a file that is not there reads as none |
| `Minio.DownloadObject` | internal/service/minio.go:448-471 | saves one object at its place and returns its manifest entry, or fails exactly when the place is refused or cannot be written |
| `Minio.Backup` | internal/service/minio.go:202-251 | into an unused folder a backup succeeds exactly when the selection is storable (every object has a place inside the folder and none is in the way of another or of the manifest); it then has written all selected objects and a manifest that captures them |
| `Minio.CleanKeysStorable` | internal/service/minio.go:448-471 | a selection of clean keys is storable if and only if no key is a directory prefix of another key of its bucket |
| `Minio.EnsureAll` | internal/service/minio.go:432-444 | creates the missing buckets and leaves the others |
| `Minio.UploadAll` | internal/service/minio.go:184-192 | uploads the listed objects one after the other, up to the first that cannot be read or put; those before it stay uploaded |
| `Minio.ApplySnapshot` | internal/service/minio.go:125-195 | what a restore does for a manifest that is missing, cannot be read, is malformed or is good, configured buckets included, and what it leaves when an upload fails |
| `Minio.RoundTrip` | internal/service/minio.go:202-251 | restoring a written snapshot always succeeds, and turns any target into the target overridden by the captured buckets, with bytes and content types, if and only if no file of the snapshot was written over with other bytes |
| `Minio.CleanKeysUnclobbered` | internal/service/minio.go:448-471 | for clean keys in buckets not named like the manifest no file is written over |
| `Minio.EmptySegmentsClobber` | internal/service/minio.go:448-471 | keys that differ by an empty path segment share a file, so one restores the other's bytes |
| `Minio.BackupThenApply` | internal/service/minio.go:125-251 | backup, then apply from the same folder: both succeed or the target is untouched, and the target is overridden exactly when nothing was clobbered |
| `Minio.Clean` | internal/service/minio.go:288-315 | every bucket is emptied and removed |
| `PrefixWalk.ListObjectsPage` | internal/service/minio_client.go:122-142 | splits a listing into folders (what ends in "/") and objects, in order |
| `PrefixWalk.PageParts` | internal/service/minio_client.go:122-142 | both keep the order of the listing |
| `PrefixWalk.WalkEnds` | internal/server/browse.go:283-297 | the recursive walk of a prefix ends if and only if no stored key at or below it ends in "/" |
| `PrefixWalk.WalkedExact` | internal/server/browse.go:283-297 | it visits exactly the stored keys under the prefix |
| `PrefixWalk.WalkPrefix` | internal/server/browse.go:283-297 | the recursion offers those keys to the collector, each level's objects before its folders, and ends because each folder is a longer prefix |
| `PrefixWalk.WalkedOrder` | internal/server/browse.go:283-297 | what a level holds itself comes first, then what is under each of its folders, in their order |
| `PrefixWalk.CollectSelectionKeys` | internal/server/browse.go:258-280 | without duplicates and in first-seen order, exactly the non-empty explicit keys and every stored key under a non-empty selected prefix |
| `PrefixWalk.BrowseDelete` | internal/server/browse.go:238-251 | deleting a selection removes exactly the selected keys |
| `Distinct.FirstSeenOrder` | internal/server/browse.go:259-267 | the collected order is that of the first occurrences |
| `Distinct.FirstSeenHas` | internal/server/browse.go:259-267 | collecting loses no element and adds none |
| `FreshNames.FindFresh` | internal/project/transfer.go:185-203 | the counting loop halts for every finite set of taken names with a free name all of whose smaller candidates are taken |
| `FreshNames.Fresh` | internal/project/service.go:145-155 | such a name exists for every set of taken ids |
| `FreshNames.FreshUnique` | internal/project/transfer.go:185-203 | and there is only one |
| `FreshNames.Pigeonhole` | internal/project/transfer.go:185-203 | n - 2 candidates can be taken only if that many names are |
| `Order.InsertionSort` | internal/service/docker.go:202-214 | sorts the array in place: ordered, and a permutation |
| `Order.SortedKeys` | internal/service/docker.go:202-214 | the keys of a map, each once, in order |
| `Order.ListingUnique` | internal/service/docker.go:200-214 | there is only one such listing, whatever order the map was walked in |
| `Facade.Project.Overlay` | internal/project/project.go:195-201 | copies one config over another key by key: the map union |
| `Facade.Project.ForkLocal` | internal/project/project.go:163-216 | adds the forked service to the local profile, keeping what earlier forks put there |
| `Facade.Project.NewService` | internal/project/service.go:66-89 | adds an instance under a fresh id, with a valid or the default config |
| `Facade.HandleProfileKeeps` | internal/project/project.go:98-231 | no request about a workspace breaks the invariants, one that fails changes nothing, and none touches another workspace |
| `FacadeEffects.ActivateDoes` | internal/project/project.go:98-109 | succeeds exactly for a profile that exists and may be used, and changes only the active profile |
| `FacadeEffects.UpdateDoes` | internal/project/project.go:127-138 | succeeds exactly for an existing profile and services that may be used; then the profile has them, and nothing else changes |
| `FacadeEffects.AddDoes` | internal/project/project.go:141-154 | adds an empty profile under a new name, and changes nothing else |
| `FacadeEffects.DropDoes` | internal/project/project.go:220-231 | drops a profile that exists and is not active, and nothing else |
| `FacadeEffects.ForkDoes` | internal/project/project.go:163-216 | a fork stores in the local profile a service of the source's type and name, each setting local where there is a local one and otherwise the source's; all other services, profiles and the active profile stay; it succeeds exactly if source and service exist and the source and the local profile it leads to may be used |
| `FacadeEffects.AddServiceDoes` | internal/project/service.go:66-89 | adds one service under a new id, named as asked or after the id, with the given or the default config |
| `FacadeEffects.UpdateServiceDoes` | internal/project/service.go:95-121 | replaces the config of one service, and its name if one is given; type and name fall back to the id |
| `FacadeEffects.RemoveServiceDoes` | internal/project/service.go:126-139 | removes one service, but not the last of its profile |
| `FacadeEffects.FreshIsNewId` | internal/project/service.go:145-155 | the new id is the type, or "type-n" with the least n from 2 on that is free |
| `TransferEffects.NewWorkspaceDoes` | internal/server/workspace.go:76-89 | adds and activates an empty workspace, unless the name is white space or taken |
| `TransferEffects.RenameDoes` | internal/store/store.go:199-211 | changes the name of one workspace and nothing else |
| `TransferEffects.RemoveDoes` | internal/store/store.go:216-222 | removes a workspace with its profiles, and clears the active workspace if it was that |
| `TransferEffects.SwitchDoes` | internal/store/store.go:256-269 | activates an existing workspace |
| `TransferEffects.ServicesImported` | internal/project/transfer.go:162-180 | an imported profile has one service for each id, as the last instance of that id says; absent ids, types and names fall back |
| `TransferEffects.FreshIsNewName` | internal/project/transfer.go:185-203 | the new name is the payload's, or "name (n)" with the least n from 2 on that is free |
| `TransferEffects.ImportDoes` | internal/project/transfer.go:82-112 | an import succeeds exactly for a known version, a name, named profiles of known services with valid configs and no repeated profile name; then one workspace is added and activated, with just the profiles, services and active profile of the payload |
| `Transfer.ImportKeeps` | internal/project/transfer.go:82-112 | a failing import keeps the invariants also where it leaves a partial workspace; a successful one keeps them if and only if the payload's active profile is unset or among its profiles, and all but that new workspace's active profile in any case; no other workspace changes |
| `Transfer.HandleKeeps` | internal/store/store.go:126-167 | every request of the server keeps the invariants, but for the active profile of a workspace imported with one that is not among its profiles |
| `Transfer.EveryRunKeeps` | internal/project/project.go:98-231 | in every reachable state workspaces have different names, each stored service has a registered type and a valid config, the active workspace is unset or exists, and each active profile is unset or its workspace's own except in workspaces imported with one that is not; without such imports there is no exception |
| `Transfer.ExportServices` | internal/project/transfer.go:141-158 | the services sorted by id, types and names resolved |
| `Transfer.ExportWorkspace` | internal/project/transfer.go:48-74 | every profile, sorted by name, with its services and the active profile |
| `Transfer.ValidateImport` | internal/project/transfer.go:117-137 | the first fault of the payload, or none |
| `Transfer.ImportServices` | internal/project/transfer.go:162-180 | later instances of an id replace earlier ones; absent ids, types and names fall back |
| `Transfer.Import` | internal/project/transfer.go:82-112 | the whole new state of an import, also of one that fails half-way |
| `Transfer.ServicesRoundTrip` | internal/project/transfer.go:141-180 | exported services come back as they were, resolved, if and only if none has a name but no id |
| `Transfer.RoundTripAccepted` | internal/project/transfer.go:117-137 | the import of an export is accepted if and only if every profile has a name |
| `Transfer.RoundTrip` | internal/project/transfer.go:48-112 | it creates one more workspace with a new name and the same active profile, profile names and services, resolved, and leaves every other workspace as it is |
| `SqlTemplate.MatchExact` | internal/sqltemplate/sqltemplate.go:19-22 | the greedy match at a position is the declarative pattern: braces, white space, name, white space, braces, and there is only one |
| `SqlTemplate.ScanIsScan` | internal/sqltemplate/sqltemplate.go:37-50 | the scan loses nothing, and no placeholder starts where it leaves a literal |
| `SqlTemplate.ScanUnique` | internal/sqltemplate/sqltemplate.go:37-50 | it is the only such cut of the text |
| `SqlTemplate.Variables` | internal/sqltemplate/sqltemplate.go:37-50 | the distinct names in first-seen order |
| `SqlTemplate.Render` | internal/sqltemplate/sqltemplate.go:71-86 | succeeds exactly when every variable has a value, and otherwise names the first, in the order of the variables, that has none |
| `SqlTemplate.RenderedInterleaves` | internal/sqltemplate/sqltemplate.go:66-86 | the rendered text is the literal segments, which no value changes, with the values in between: inserted text is never scanned again |
| `SqlTemplate.ParseVariables` | ui/src/features/templates/variables.ts:9-19 | the mirror's loop: the distinct names of the client's scan |
| `SqlTemplate.RenderSql` | ui/src/features/templates/variables.ts:27-34 | the mirror substitutes the non-empty values and leaves the other placeholders |
| `SqlTemplate.MirrorScans` | ui/src/features/templates/variables.ts:6-19 | client and server cut a template alike if and only if no placeholder the client finds holds white space that only JavaScript knows; then they find the same variables |
| `SqlTemplate.MirrorRenders` | ui/src/features/templates/variables.ts:27-34 | on such a template the preview is the text the server renders if and only if every variable has a value and none is empty |
| `SqlTemplate.MirrorDiffers` | ui/src/features/templates/variables.ts:6-6 | a no-break space inside the braces makes a variable for the client and none for the server |
| `RowEdit.WhereClause` | internal/service/postgres_query.go:243-257 | the key's columns in order, with placeholders and arguments in step |
| `RowEdit.ReadsWhereBack` | internal/service/postgres_query.go:243-257 | the clause reads back as its conditions whatever the column names hold; an empty key is a syntax error |
| `RowEdit.ClauseMeansKey` | internal/service/postgres_query.go:239-257 | for any key and any start number the clause, with its arguments, means that every key column equals its value |
| `RowEdit.ReadsUpdateBack` | internal/service/postgres_query.go:210-212 | the UPDATE names exactly its table, its column and its conditions |
| `RowEdit.ReadsDeleteBack` | internal/service/postgres_query.go:228-230 | the DELETE names exactly its table and its conditions |
| `RowEdit.UpdateRow` | internal/service/postgres_query.go:198-218 | sets one column of exactly the rows the key addresses; all other rows and tables stay, and a failure changes nothing |
| `RowEdit.DeleteRow` | internal/service/postgres_query.go:221-237 | removes exactly the rows the key addresses |
| `RowEdit.AtMostOne` | internal/service/postgres_query.go:99-103 | a key with all primary-key columns matches at most one row |
| `RowEdit.SingleTable` | internal/service/postgres_query.go:105-118 | the one table that all table columns of a result trace to, or none |
| `RowEdit.Editable` | internal/service/postgres_query.go:104-145 | a result is editable if and only if it traces to one known table with a primary key whose columns are all in the result; then it names the schema, table and key of that table, and for each result column the attribute it shows |
| `RowEdit.RowKey` | ui/src/features/services/detail/console/QueryResultTable.tsx:95-104 | the key of a result row: the printed text of the cell of each key column, or none if a column is missing |
| `RowEdit.KeyFindsItsRow` | ui/src/features/services/detail/console/QueryResultTable.tsx:93-104 | the key of a result row addresses the stored row it was read from, and no other, if and only if the printed text of each of its cells is read back as the stored value |
| `RowEdit.EditCell` | ui/src/features/services/detail/console/QueryResultTable.tsx:107-150 | an edit of a cell, from the source of the result's columns to the database, sets one column of one table, and only in the row that was shown, if the text of its key is read back as stored |
| `RowEdit.RemoveRow` | ui/src/features/services/detail/console/QueryResultTable.tsx:127-150 | deleting a row of a result takes from its table only the row that was shown |
| `RowEdit.NullExtendedKey` | ui/src/features/services/detail/console/QueryResultTable.tsx:95-104 | the key of a row that an outer join made up addresses the stored rows all of whose key columns read the empty text as their value, of which there is at most one |
| `RowEdit.EmptyKeyAddressed` | ui/src/features/services/detail/console/QueryResultTable.tsx:95-104 | with a text key column such a key addresses the stored row whose key is the empty text |
| `RowEdit.Int8ComesBack` | ui/src/features/services/detail/console/QueryResultTable.tsx:375-385 | an int8 key comes back if and only if it is a JavaScript number |
| `RowEdit.NeighbourAddressed` | ui/src/features/services/detail/console/QueryResultTable.tsx:375-385 | the key of row 9007199254740993 addresses row 9007199254740992 instead |
| `RedisTokenizer.Tokenize` | internal/service/redis_query.go:110-147 | the loop runs the quote-and-blank state machine |
| `RedisTokenizer.TokenizeInvertsWriting` | internal/service/redis_query.go:107-147 | arguments written bare or wrapped in a quote they do not contain, separated by white space, come back exactly |
| `RedisTokenizer.CutUp` | internal/service/redis_query.go:125-141 | every line is closed, or closed up to a quote still open at its end |
| `RedisTokenizer.RefusesOpenQuotes` | internal/service/redis_query.go:142-144 | a command is refused if and only if a quote is open at its end |
| `Docker.ParsePortBindings` | internal/service/docker.go:139-166 | decodes the bindings, the same mappings in whatever order the map is walked |
| `Docker.PublishedRecovered` | internal/service/docker.go:139-166 | reading back published ports recovers exactly the mappings asked for |
| `Docker.SamePorts` | internal/service/docker.go:169-187 | true if and only if the two lists are equal as multisets |
| `Docker.EnvFlags` | internal/service/docker.go:88-90 | the environment flags in key order |
| `Docker.EnsureContainer` | internal/service/docker.go:60-100 | from absent, stopped or running, with right or wrong ports, the container ends up running with exactly the mappings asked for if and only if it was so or its host ports can be bound, and otherwise is there with those mappings, stopped, and the call fails; other containers stay, and only the commands that its state needs are given |
| `Docker.EnsureTwice` | internal/service/docker.go:48-52 | a second call gives no changing command after one that succeeded, and one more start, which fails again, after one that failed |
| `UploadPool.WhileRunning` | ui/src/features/services/detail/browser/useObjectUpload.ts:57-81 | in every interleaving at most three uploads are in flight, done, failed and in flight add up to the files taken, and no file is attempted twice |
| `UploadPool.WhenFinished` | ui/src/features/services/detail/browser/useObjectUpload.ts:79-92 | when all workers have stopped every file has been attempted exactly once, in order, and has ended exactly once; done and failed count the ends and add up to the file count, and the failures are the names of the files that failed |
| `UploadPool.NeverStuck` | ui/src/features/services/detail/browser/useObjectUpload.ts:60-78 | while a batch runs some worker can move or all have stopped |
| `UploadPool.EveryStepProgresses` | ui/src/features/services/detail/browser/useObjectUpload.ts:60-78 | every step of a worker lowers a measure, so a batch ends |
| `UploadPool.TakeOk` | ui/src/features/services/detail/browser/useObjectUpload.ts:60-63 | taking the file at the shared cursor, or stopping at the end, keeps the batch consistent |
| `UploadPool.SettleOk` | ui/src/features/services/detail/browser/useObjectUpload.ts:64-77 | so does counting a file as done or failed |

## Left out

- HTTP routing, JSON envelopes, timeouts and the React components that only show state.
- Clients and processes that are not part of the repository (database drivers, the S3 client, the docker CLI, SQLite): each is an abstract machine. Random ids, snapshot stamps and workspace ids are never used twice; timestamps are parameters.
- Failures of catalog queries during a dump, and of S3, docker and SQLite calls for reasons outside the modelled state. Errors that the code drops (the last `Finish` of a goroutine) are modelled; a dropped error of `AppendLog` is not, appends are assumed to succeed.
- The "url" form of Postgres connections, the validators of single fields and the per-service defaults.
- Other background kinds of work than a session's own: a command-line backup, or a folder removed by hand.
- Deleting an apply session removes the snapshot folder it names; the model does so too, but no claim is made about who owns the folder of a settled backup.
- SQL templates as stored rows (create, update, remove); only their scanning and rendering is modelled.
- Listing, counting and paging of sessions, and the lists of snapshots.
- The JSON text of docker's port bindings and of the snapshot manifest: the bindings are a map, the manifest goes through a codec that loses nothing.
- The escape forms of COPY text that the server accepts but never writes (octal and hexadecimal).
- `PostgresSource.Restorable`: does not compare the index that a foreign key is bound to in the rebuilt database, where the server chooses among the keys anew, and does not model clashes between the names of indexes, sequences and tables, which share one namespace in PostgreSQL, nor the owner (OWNED BY) and cache of a sequence, generated columns, which the dump prints with a DEFAULT, collations, storage options, inheritance, comments and privileges, nor extensions, types, views, triggers and identity columns, which the dump does not cover either.
- `PostgresSource.Live`: foreign keys of the schema refer to tables of the schema; those of other schemas appear as the indexes they stand on.
- `PostgresRestore.DumpThenRestore`: a setval statement that cannot be read is taken to be rejected; names made to hold further statements are not considered.
- `PostgresDump.Dump`: the catalog is read once, before anything is written; the queries between the writes are not modelled as separate steps.
- `PostgresRestore.Restore`: BEGIN, ROLLBACK and COMMIT are methods of the connection and do not fail, except that a failed transaction rolls back.
- `RowEdit.KeyFindsItsRow`: requires that the key cells of the result row were read from one stored row, so it says nothing about results of a self join, where the key cells come from one row and another cell of the same table from a different one; there an edit reaches the row of the key; rows that an outer join made up are `RowEdit.NullExtendedKey`.
- `RowEdit.EditCell`: does not skip an edit that leaves the cell as it is, as the client does.
- `TransferEffects.NewWorkspaceDoes`: the name is as the handler has trimmed it.
- `RowEdit.Int8ComesBack`: covers integers up to 2^54 either way, beyond which JavaScript prints fewer digits than the number has.
- `RowEdit.Editable`: a column name of the primary key is assumed not to be empty, as in PostgreSQL.
- `Docker.EnsureContainer`: image, environment and command of a container that is reused are not compared, as in the code; port numbers are below 65536; the host ports that other containers and programs hold are a fixed set that no command changes.
- `SqlTemplate.MirrorRenders`: says nothing of templates that client and server cut differently.
- `SqlTemplate.RenderSql`: the values are a plain record; names that JavaScript objects inherit, such as "constructor", are not modelled.
- `Paths.SafeJoinContained`: paths are relative, as snapshot folders are, and the separator is "/".
- `PrefixWalk.BrowseDelete`: requires that no selected folder has a stored key that ends in "/", over one the walk has no end.
- `UploadPool.WhenFinished`: which upload fails is an event, not modelled further; the toasts are left out.
