# Incremental World Backups: the save-file store, in Dafny

Incremental World Backups is a Vintage Story server mod. It adds a
`last_updated` timestamp to every row of the SQLite save file, so that a backup
tool can copy only what changed since the last backup. This project models the
three parts that do that and proves what each one promises.

- **The save-game connection** (`ProofOfConceptGameDbConnection`). It keeps two
  prepared upserts, one for `chunk` and one for `mapchunk`. It writes batches of
  chunks, map chunks and map regions, each batch inside one transaction, and
  stamps each row with `unixepoch('now')`. It also reads rows back, stores
  player data and the single game-data row, and deletes by position. It creates
  the five tables and migrates older files by adding `last_updated` and an
  index on it. Module `GameDb`, file `gamedb.dfy`.
- **The transpilers** (`SQLiteDbConnectionv2Patches`). They rewrite the SQL
  string literals of the game's own connection class so that the game's writes
  also set `last_updated`. Module `Patches`, file `patches.dfy`.
- **The mod system** (`IncrementalWorldBackupsModSystem`). On the server it
  applies the patches and migrates the save file that is already open, with
  `INTEGER NOT NULL DEFAULT 0`. It then makes the connection rebuild its
  prepared commands. Module `ModSystem`, file `modsystem.dfy`.

The other modules support these three:

- `Sqlite` (`sqlite.dfy`) is the SQLite engine, as far as the code depends on
  it.
  - A save file is a value `Db`. It holds:
    - a schema mapping each existing table to its columns;
    - the set of index names;
    - the rows of the five tables, keyed by `position`, `savegameid` or
      `playerid`;
    - the `AUTOINCREMENT` counter.
  - A statement is a `Ddl` or `Dml` value, and `ExecDdl` and `Exec` give its
    effect or the error SQLite raises. That error is `NoSuchTable`,
    `NoSuchColumn` (also for an index on a missing column), `DuplicateColumn`
    or `SyntaxError`.
  - The other values of `DbError` come from outside a statement's text:
    - `ConnectionClosed`, for any use of a closed connection;
    - `NullReference`, for a prepared command that was never built;
    - `IntegerOverflow`, for a count beyond `Int32.MaxValue`;
    - `IntegrityBad`, for a failed integrity check;
    - `EngineFault`, for a failure of the engine itself: a full disk, an I/O
      error, a locked file, or a value the driver refuses to bind.
  - `SqliteConnection` is a class with fields `db` and `isOpen`.
  - A transaction takes a snapshot of `db`. Disposing the transaction without
    committing restores that snapshot (`Rollback`).
- `Schema` (`schema.dfy`) holds the specification functions for the DDL:
  - `Migrate`, the loop that adds `last_updated` per table;
  - `CreateTables`, the five `CREATE TABLE IF NOT EXISTS`, the
    `index_playeruid` index, then the loop.

  Each takes `failsAt`, the schema statement (a `DdlStep`) that the engine
  fails, or `None`.

  It also holds the two methods that run the loop on a connection.
- `Batches` (`batches.dfy`) holds the specification functions for batches:
  - `UpsertAll`, a batch of `INSERT OR REPLACE`;
  - `DeleteAll`, a batch of `DELETE ... WHERE position = @position`;
  - `FlattenAll`, which sets every height to 0.

  It also holds their properties.
- `Wrappers` (`wrappers.dfy`) defines `Option`, `Result` and `Outcome`.

An exception thrown by ADO.NET or SQLite becomes a `Fail`/`Failure` value
carrying a `DbError`. A method that can throw returns one. "Throws before any
change" and "rolls back" become "returns `Fail` and `db` is unchanged".

Each batch method works with a connection that may be closed. It may also find
the table missing or lacking `last_updated`, and it has a null prepared command
when `OnOpened` never ran. Each of these is a distinct outcome, stated by
`BatchOutcome`. Every statement of a batch names the same table and columns, so
a missing table or column fails the first statement.

Every write, data or schema, can also fail in the engine: a full disk, a
locked file. A batch method takes this as a parameter, `failsAt`: the index of
the statement that throws `EngineFault`, or `None`. A batch that fails at
statement `k` has already written statements `0` to `k - 1`. The whole
transaction is still rolled back, so the file ends as it was before the batch.
A single-statement write (`DeleteChunk`, `StoreGameData`) takes a `fault` flag
in the same way.

The schema statements run outside any transaction, and each commits on its
own. `CreateTablesIfNotExists` and both migration loops take `failsAt` as a
`DdlStep`: one of the five `CREATE TABLE`s, the `index_playeruid` index, or
the `ALTER` or the `CREATE INDEX` of one table in the loop. Statements before
the failing one stay committed. The reads are not given engine faults (see
"## Left out").

The code and the mod's stated intent differ in several places. The model
follows the code:

- The connection class adds `last_updated` as a nullable `INTEGER`, and its
  `CREATE TABLE` statements do the same (`NullableInteger`). Only the mod system
  and the rewritten vanilla schema use `NOT NULL DEFAULT 0`
  (`NotNullDefaultZero`).
- `StoreGameData` does not name `last_updated`. The game-data row therefore gets
  the column's default, not the current time.
- `gamedata` is not migrated. The loop visits `chunk`, `mapchunk`, `mapregion`
  and `playerdata` only.
- The connection's insert for a new player is malformed SQL (see
  "## Findings").
- `DeleteMapChunks` and `DeleteMapRegions` delete by the positions as given.
  `SetMapChunks` and `SetMapRegions` store under the position with height 0.
  `Batches.DeleteUnflattenedMisses` shows that a delete by the original
  position can leave the row in place.
- On a new file `CreateTablesIfNotExists` creates the tables with
  `last_updated` already present. The loop then skips them, so a new file gets
  no `index_<table>_last_updated` indexes. Only migrated files get them
  (`Schema.CreateTablesOnEmptyFile`).
- The loop decides by the column alone. Suppose the engine fails a table's
  `CREATE INDEX` after its `ALTER` has committed. Then the file keeps the
  column without the index, and every later run skips that table, so the index
  is never created (`Schema.IndexFaultNotRepaired`).

## Model

| member | source | states |
|---|---|---|
| Patches.Transpile | src/Harmony/Patches/SQLiteDbConnectionv2Patches.cs:15-30 | The output has one instruction per input instruction. An `ldstr` whose string is a key of the table becomes a fresh `ldstr` of the replacement, without labels. Every other instruction is passed through unchanged. |
| Patches.TranspileIdempotent | src/Harmony/Patches/SQLiteDbConnectionv2Patches.cs:15-30 | When no replacement is itself a key to be replaced again, patching already patched IL changes nothing. |
| Patches.OnOpenedStringsStamp | src/Harmony/Patches/SQLiteDbConnectionv2Patches.cs:19-27 | The `OnOpened` table maps exactly the vanilla `chunk` and `mapchunk` upserts. Each maps to the same statement with a `last_updated` column whose value is `unixepoch('now')`. |
| Patches.SetPlayerDataStringsStamp | src/Harmony/Patches/SQLiteDbConnectionv2Patches.cs:41-49 | The `SetPlayerData` table maps exactly the vanilla player insert and player update. Each maps to the same statement that also writes `last_updated = unixepoch('now')`. |
| Patches.InsertChunkStringsStamp | src/Harmony/Patches/SQLiteDbConnectionv2Patches.cs:63-74 | The `InsertChunk` table maps exactly the `mapregion`, `mapchunk` and `chunk` upserts. Each maps to its version with the stamp. |
| Patches.CreateTablesStringsStamp | src/Harmony/Patches/SQLiteDbConnectionv2Patches.cs:88-107 | The `CreateTablesIfNotExists` table maps each of the five `CREATE TABLE` statements to the same statement with a trailing `last_updated INTEGER NOT NULL DEFAULT 0` column. It maps the `index_playeruid` statement to itself. |
| Patches.OnOpenedIdempotent | src/Harmony/Patches/SQLiteDbConnectionv2Patches.cs:11-31 | Running the `OnOpened` transpiler on its own output is a no-op. |
| Patches.SetPlayerDataIdempotent | src/Harmony/Patches/SQLiteDbConnectionv2Patches.cs:33-53 | Running the `SetPlayerData` transpiler on its own output is a no-op. |
| Patches.InsertChunkIdempotent | src/Harmony/Patches/SQLiteDbConnectionv2Patches.cs:55-78 | Running the `InsertChunk` transpiler on its own output is a no-op. |
| Patches.CreateTablesIdempotent | src/Harmony/Patches/SQLiteDbConnectionv2Patches.cs:80-113 | Running the `CreateTablesIfNotExists` transpiler on its own output is a no-op, even though one of its entries maps a string to itself. |
| Patches.CreateTablesNoChain | src/Harmony/Patches/SQLiteDbConnectionv2Patches.cs:88-107 | No replacement string in the `CreateTablesIfNotExists` table is a different key of that table. |
| Patches.OnOpenedReplaceQueryStrings | src/Harmony/Patches/SQLiteDbConnectionv2Patches.cs:11-31 | Each instruction is kept in place. An `ldstr` of the vanilla `chunk` or `mapchunk` upsert becomes a new unlabelled `ldstr` of that statement with `last_updated = unixepoch('now')` added. Every other instruction is passed through unchanged. |
| Patches.SetPlayerDataReplaceQueryStrings | src/Harmony/Patches/SQLiteDbConnectionv2Patches.cs:33-53 | An `ldstr` of the vanilla player insert or player update becomes a new unlabelled `ldstr` of that statement also writing `last_updated`. Every other instruction is passed through. |
| Patches.InsertChunkReplaceQueryStrings | src/Harmony/Patches/SQLiteDbConnectionv2Patches.cs:55-78 | An `ldstr` of the vanilla `mapregion`, `mapchunk` or `chunk` upsert becomes a new unlabelled `ldstr` of that statement also writing `last_updated`. Every other instruction is passed through. |
| Patches.CreateTablesReplaceQueryStrings | src/Harmony/Patches/SQLiteDbConnectionv2Patches.cs:80-113 | An `ldstr` of one of the five vanilla `CREATE TABLE` statements becomes a new unlabelled `ldstr` of that table with a trailing `last_updated INTEGER NOT NULL DEFAULT 0` column. The `index_playeruid` statement keeps its text but loses its labels. Every other instruction is passed through. |
| Sqlite.InsertPlayerAddsOneRow | src/Harmony/Patches/SQLiteDbConnectionv2Patches.cs:43-44 | The stamped `INSERT INTO playerdata` adds exactly one row, under a `playerid` no row had. The row holds the uid, the data and `now`. Every existing row is kept. |
| Sqlite.UpdatePlayerKeepsRows | src/ProofOfConceptGameDbConnection.cs:176-182 | `UPDATE playerdata ... WHERE playeruid = @playeruid` keeps the set of row ids. It rewrites exactly the rows of that uid to hold the new data and `now`, and leaves the others as they were. |
| Sqlite.DeletePlayerRemovesRows | src/ProofOfConceptGameDbConnection.cs:155-162 | `DELETE FROM playerdata WHERE playeruid = @playeruid` leaves no row of that uid. A row is kept exactly when its uid differs, and kept rows are unchanged. |
| Sqlite.SqliteConnection.CountColumn | src/ProofOfConceptGameDbConnection.cs:444-445 | The `pragma_table_info` count is positive exactly when the table exists and has the column. On a closed connection it throws. |
| Schema.StampIndexNameInjective | src/ProofOfConceptGameDbConnection.cs:463 | `index_<table>_last_updated` names a different index for each table, so the indexes of the loop never collide. |
| Schema.MigrateTableEffect | src/ProofOfConceptGameDbConnection.cs:442-465 | One iteration touches only its own table. It adds the column and its index exactly when the column is missing, and every row of that table then reads the column's default. |
| Schema.MigrateSpec | src/ProofOfConceptGameDbConnection.cs:437-467 | A loop that does not throw leaves `last_updated` on every visited table. It adds the column, the default-valued stamps and the index exactly to the tables that lacked the column. Every other table, schema and rows, is unchanged. |
| Schema.StampIndexCreatedIff | src/ProofOfConceptGameDbConnection.cs:437-467 | After a loop that does not throw, a stamp index that did not exist before exists exactly when its own table was visited, existed and lacked `last_updated`. No other table's iteration creates it. |
| Schema.MigrateSucceeds | src/WorldSaveProofOfConceptModSystem.cs:53-84 | When every visited table exists, the loop without an engine fault does not throw, and with one it throws only `EngineFault`. |
| Schema.MigrateTableSucceeds | src/ProofOfConceptGameDbConnection.cs:453-464 | On a table that exists, one iteration without an engine fault does not throw: the `ALTER` adds the column that the `CREATE INDEX` then finds. With a fault it throws only `EngineFault`. |
| Schema.MigrateKeepsTables | src/ProofOfConceptGameDbConnection.cs:437-467 | A loop that does not throw drops no table. |
| Schema.MigrateFaultOnlyFails | src/ProofOfConceptGameDbConnection.cs:440-466 | An engine fault can only end the loop with `EngineFault`. Any other run, passing or throwing, is exactly the run without the fault. |
| Schema.FaultElsewhere | src/ProofOfConceptGameDbConnection.cs:453-464 | A fault on another table's statement leaves the iteration for this table as it would be without a fault. |
| Schema.IndexFaultStep | src/ProofOfConceptGameDbConnection.cs:453-464 | When the engine fails the `CREATE INDEX` of a table that lacks the column, the iteration throws `EngineFault` after its `ALTER` committed. The table has the column but not its index, and the set of tables is unchanged. |
| Schema.UntouchedBefore | src/ProofOfConceptGameDbConnection.cs:440-466 | Before its first visit, a table's column and stamp index are as they were, and no table has been dropped. |
| Schema.IndexFaultRun | src/ProofOfConceptGameDbConnection.cs:453-464 | On a file where every visited table exists and `t` lacks the column and its index, failing `t`'s `CREATE INDEX` throws `EngineFault` at `t`'s first visit. The committed `ALTER` leaves the column on `t` without the index, and every table is kept. When `t` is not visited, the run is the fault-free one. |
| Schema.IndexFaultNotRepaired | src/WorldSaveProofOfConceptModSystem.cs:53-84 | After the engine fails `t`'s `CREATE INDEX`, the file has the column on `t` but not `index_<t>_last_updated`. A later run passes without creating that index, because the count check skips `t`. |
| Schema.MigrateNoop | src/WorldSaveProofOfConceptModSystem.cs:58-66 | On tables that all have `last_updated`, the loop changes nothing, whatever statement the engine would fail: no `ALTER`, no index. |
| Schema.MigrateIdempotent | src/WorldSaveProofOfConceptModSystem.cs:53-84 | Running the loop again after a successful run yields the same file and outcome, even under an engine fault: the migration adds each column once. |
| Schema.MigrateFailureSticks | src/ProofOfConceptGameDbConnection.cs:440-466 | Once a statement of the loop has thrown, the later tables are not visited. |
| Schema.AddLastUpdatedColumn | src/ProofOfConceptGameDbConnection.cs:442-465 | On an open connection, one iteration of the loop leaves the file and outcome that `MigrateTable` specifies, including an engine fault on its `ALTER` or `CREATE INDEX`. A closed connection throws and changes nothing. |
| Schema.AddLastUpdatedColumns | src/ProofOfConceptGameDbConnection.cs:437-467 | On an open connection, the loop over `chunk`, `mapchunk`, `mapregion` and `playerdata` leaves exactly the file and outcome `Migrate` specifies for the same `failsAt`, which `MigrateSpec` characterises. |
| Schema.CreateFiveTables | src/ProofOfConceptGameDbConnection.cs:397-425 | The five `CREATE TABLE IF NOT EXISTS` create exactly the missing tables with their declared columns. When the engine fails one of them, the call throws `EngineFault`. |
| Schema.CreateStatementsEffect | src/ProofOfConceptGameDbConnection.cs:397-431 | The six statements create exactly the missing tables, with their declared columns, and add `index_playeruid`. They pass exactly when the index can be built (it exists, or `playerdata` has `playeruid`) and the engine fails none of them. When the index can be built, the only failure is `EngineFault`. |
| Schema.PlayerUidIndexEffect | src/ProofOfConceptGameDbConnection.cs:427-431 | Once `playerdata` exists, `CREATE INDEX IF NOT EXISTS index_playeruid` passes exactly when the index exists or the table has `playeruid`, and the engine does not fail it. It then adds the index. When the index can be built, the only failure is `EngineFault`. |
| Schema.CreateStatementsKeep | src/ProofOfConceptGameDbConnection.cs:397-431 | On a file with all five tables and `index_playeruid`, the six statements change nothing, even when the engine fails one of them. |
| Schema.CreateTablesPasses | src/ProofOfConceptGameDbConnection.cs:395-434 | Without an engine fault, `CreateTablesIfNotExists` succeeds exactly when it is not the case that an existing `playerdata` lacks `playeruid` while `index_playeruid` is missing. When that holds, only an engine fault makes it throw. When it succeeds, it is the six statements followed by the loop. |
| Schema.CreateTablesThenMigrate | src/ProofOfConceptGameDbConnection.cs:395-434 | A call that succeeds is the six statements, reaching the completed schema with `index_playeruid`, followed by the loop with the same `failsAt`. |
| Schema.CreateTablesSpec | src/ProofOfConceptGameDbConnection.cs:395-434 | After `CreateTablesIfNotExists`, all five tables exist and the four migrated tables have `last_updated`. New tables have their declared columns and no rows. Existing tables are migrated exactly as `MigrateSpec` says. The indexes grow by `index_playeruid` and one stamp index per existing table that lacked the column. |
| Schema.CreateTablesOnEmptyFile | src/ProofOfConceptGameDbConnection.cs:395-434 | On a file with no tables, `CreateTablesIfNotExists` succeeds without an engine fault. It can fail only at one of the six statements before the loop. The only index it adds is `index_playeruid`. |
| Schema.CreateTablesIdempotent | src/ProofOfConceptGameDbConnection.cs:395-434 | A second `CreateTablesIfNotExists` succeeds and changes nothing. One that the engine fails changes nothing either. |
| Batches.UpsertAllFrame | src/ProofOfConceptGameDbConnection.cs:287-292 | A batch of upserts leaves exactly the old indexes plus those of the batch. Every row the batch does not name is unchanged. |
| Batches.UpsertAllLastWins | src/ProofOfConceptGameDbConnection.cs:287-292 | The row of an index holds the data of the batch's last entry with that index, stamped `now`: last write wins. |
| Batches.FlattenedCollide | src/ProofOfConceptGameDbConnection.cs:306-311 | Two map chunks that differ only in height are written to the same row, and the later one wins. |
| Batches.DeleteAllSpec | src/ProofOfConceptGameDbConnection.cs:260-263 | A batch of deletes removes exactly the listed indexes and keeps every other row. Absent and repeated indexes are no-ops. |
| Batches.DeleteAllPositions | src/ProofOfConceptGameDbConnection.cs:254-268 | Deleting by positions removes exactly the rows whose index is `ToChunkIndex` of a listed position. |
| Batches.WriteThenRead | src/ProofOfConceptGameDbConnection.cs:213-237 | After a batch write, the index of an entry that no later entry shares has a row, and a point read yields that entry's blob. For a one-entry batch, `ChunkExists` and `GetChunk` see the entry. |
| Batches.DeleteThenRead | src/ProofOfConceptGameDbConnection.cs:254-268 | After a batch delete, a point read of any listed position yields null. Every other row reads as before. |
| Batches.DeleteUnflattenedMisses | src/ProofOfConceptGameDbConnection.cs:244-247 | This shows the delete/write asymmetry for map chunks. When the encoding tells a position from its height-0 version, deleting by the original position leaves the row that writing the same map chunk created. |
| GameDb.Release | src/ProofOfConceptGameDbConnection.cs:505-506 | `cmd?.Dispose()` leaves a null field null and disposes a set one. |
| GameDb.ProofOfConceptGameDbConnection.constructor | src/ProofOfConceptGameDbConnection.cs:13-24 | A new connection object has no prepared commands. |
| GameDb.ProofOfConceptGameDbConnection.OnOpened | src/ProofOfConceptGameDbConnection.cs:26-38 | The chunk command is always set, and the map chunk command is set only when preparing the chunk upsert did not throw. The outcome is the first failure to prepare: closed connection, missing table or missing column. |
| GameDb.ProofOfConceptGameDbConnection.IntegrityCheck | src/ProofOfConceptGameDbConnection.cs:42-83 | It never answers false. It answers true exactly when the first check passes, or the repair does not throw and the recheck passes. Otherwise it throws "Database integrity bad". |
| GameDb.ProofOfConceptGameDbConnection.QuantityChunks | src/ProofOfConceptGameDbConnection.cs:85-92 | It answers the number of `chunk` rows. It fails on a closed connection or a missing table, and overflows when the count exceeds `int.MaxValue`. |
| GameDb.ProofOfConceptGameDbConnection.GetAllChunks | src/ProofOfConceptGameDbConnection.cs:94-111 | It yields every row of the table exactly once, in some order, each as its decoded position and its blob. It fails exactly when the table or a selected column is missing. |
| GameDb.ProofOfConceptGameDbConnection.GetPlayerData | src/ProofOfConceptGameDbConnection.cs:140-151 | It answers null when no row has the uid. Otherwise it answers the data of a row of that uid. |
| GameDb.ProofOfConceptGameDbConnection.SetPlayerDataUsing | src/ProofOfConceptGameDbConnection.cs:153-184 | Null data deletes the uid's rows. Data for a uid whose read comes back null runs the insert. Otherwise it runs the update. Each branch leaves the file that its statement gives, or throws and changes nothing. |
| GameDb.ProofOfConceptGameDbConnection.SetPlayerDataAsWritten | src/ProofOfConceptGameDbConnection.cs:164-173 | For a uid with no row, data is never stored: the call throws a syntax error and the file is unchanged. |
| GameDb.ProofOfConceptGameDbConnection.SetPlayerData | src/ProofOfConceptGameDbConnection.cs:153-184 | Null data on an open connection passes exactly when `playerdata` has `playeruid`. It then leaves no row of that uid, keeps every other row and changes no other table. Data for a uid whose rows all hold null runs the insert: it passes exactly when the stamped columns exist, adds exactly one row under a fresh `playerid` holding the uid, the data and `now`, keeps every old row and changes nothing else. Data for a uid with a row holding data runs the update: it keeps the row ids and rewrites exactly that uid's rows. A closed connection, a missing column or a throwing statement leaves the file unchanged. |
| GameDb.ProofOfConceptGameDbConnection.GetChunks | src/ProofOfConceptGameDbConnection.cs:186-199 | It yields, for each position in order, the blob stored under its index, or null when there is none. It fails exactly when the request is non-empty and `chunk` or one of its selected columns is missing. |
| GameDb.ProofOfConceptGameDbConnection.ChunkExists | src/ProofOfConceptGameDbConnection.cs:213-224 | It answers true exactly when the table has a row under that index. |
| GameDb.ProofOfConceptGameDbConnection.GetChunk | src/ProofOfConceptGameDbConnection.cs:226-237 | It answers the stored blob, or null when no row has that index. |
| GameDb.ProofOfConceptGameDbConnection.DeleteChunks | src/ProofOfConceptGameDbConnection.cs:239-242 | On a commit, exactly the listed positions' rows leave `chunk`. The outcome is `BatchOutcome`: a closed connection, a missing table or column, or an engine failure at any statement. Every failure leaves the file unchanged, even after earlier deletes of the batch. |
| GameDb.ProofOfConceptGameDbConnection.DeleteMapChunks | src/ProofOfConceptGameDbConnection.cs:244-247 | On a commit, exactly the rows of the listed positions, as given, leave `mapchunk`. The outcome is `BatchOutcome`, and every failure leaves the file unchanged. |
| GameDb.ProofOfConceptGameDbConnection.DeleteMapRegions | src/ProofOfConceptGameDbConnection.cs:249-252 | On a commit, exactly the rows of the listed positions, as given, leave `mapregion`. The outcome is `BatchOutcome`, and every failure leaves the file unchanged. |
| GameDb.ProofOfConceptGameDbConnection.DeleteChunksFrom | src/ProofOfConceptGameDbConnection.cs:254-268 | Inside one transaction, the table loses exactly the rows of the listed positions, and nothing else changes. When statement `failsAt` throws, or the first statement finds no table or column, the transaction rolls back and the file is unchanged. |
| GameDb.ProofOfConceptGameDbConnection.DeleteChunk | src/ProofOfConceptGameDbConnection.cs:270-278 | The table loses the row of that index, if any, and nothing else changes. A closed connection, a missing table or column, or an engine failure leaves the file unchanged. |
| GameDb.ProofOfConceptGameDbConnection.SetChunks | src/ProofOfConceptGameDbConnection.cs:280-297 | Inside one transaction, `chunk` becomes the batch upsert of the entries, each stamped `now`. Other tables are unchanged. The outcome is `BatchOutcome`: a null command, a closed connection, a missing column, or an engine failure at statement `failsAt`. Every failure leaves the file as it was, even after earlier upserts of the batch. |
| GameDb.ProofOfConceptGameDbConnection.SetMapChunks | src/ProofOfConceptGameDbConnection.cs:299-317 | The caller's entries end with height 0. `mapchunk` becomes the batch upsert of the flattened entries. The outcome is `BatchOutcome`. On a failure the file is unchanged, and exactly the entries up to the failing statement (`StoppedAt`) have been flattened. |
| GameDb.ProofOfConceptGameDbConnection.SetMapRegions | src/ProofOfConceptGameDbConnection.cs:319-345 | The same as `SetMapChunks`, for `mapregion`, without a prepared command. |
| GameDb.ProofOfConceptGameDbConnection.FlattenAndUpsert | src/ProofOfConceptGameDbConnection.cs:303-315 | After the batch commits, the entries are flattened in place and the table holds their batch upsert. When statement `k` throws, the transaction rolls back the file and exactly entries `0` to `k` are flattened. |
| GameDb.ProofOfConceptGameDbConnection.FlattenAndUpsertEach | src/ProofOfConceptGameDbConnection.cs:306-312 | The loop either runs every statement, with every entry flattened and the table holding the batch upsert, or stops at the first statement that throws, with the entries up to it flattened and the rest as given. |
| GameDb.ProofOfConceptGameDbConnection.FlattenAndUpsertAt | src/ProofOfConceptGameDbConnection.cs:308-311 | One iteration flattens entry `i` in place and upserts it, or throws when the table lacks a column or the engine fails at statement `i`. This extends both loop invariants by one entry. |
| GameDb.ProofOfConceptGameDbConnection.StoreGameData | src/ProofOfConceptGameDbConnection.cs:367-384 | The row with `savegameid` 1 holds the data afterwards, and `last_updated` takes its default. Every other row and table is unchanged. A closed connection, a missing column or an engine failure rolls back. |
| GameDb.ProofOfConceptGameDbConnection.GetGameData | src/ProofOfConceptGameDbConnection.cs:347-365 | It answers null when the read throws or `gamedata` is empty. Otherwise it answers the data of one of its rows. |
| GameDb.ProofOfConceptGameDbConnection.QuickCorrectSaveGameVersionTest | src/ProofOfConceptGameDbConnection.cs:386-393 | It answers true exactly when the `gamedata` table exists. |
| GameDb.ProofOfConceptGameDbConnection.UpgradeToWriteAccess | src/ProofOfConceptGameDbConnection.cs:40 | On an open connection it leaves the file `CreateTables` specifies. |
| GameDb.ProofOfConceptGameDbConnection.CreateTablesIfNotExists | src/ProofOfConceptGameDbConnection.cs:395-434 | The six statements then the loop, stopping at the first that throws (including one the engine fails), leave exactly the file and outcome `CreateTables` gives, which `CreateTablesSpec` characterises. |
| GameDb.ProofOfConceptGameDbConnection.CreateLastUpdatedColumnIfNotExists | src/ProofOfConceptGameDbConnection.cs:436 | On the connection's own `sqliteConn`, it performs the migration `Migrate` specifies with a nullable column. |
| GameDb.ProofOfConceptGameDbConnection.CreateLastUpdatedColumnIfNotExistsOn | src/ProofOfConceptGameDbConnection.cs:437-467 | On the given connection, it performs the migration `Migrate` specifies with a nullable column. |
| GameDb.ProofOfConceptGameDbConnection.CreateBackup | src/ProofOfConceptGameDbConnection.cs:469-501 | A copy is made exactly when the backup name differs from the running database's file name. |
| GameDb.ProofOfConceptGameDbConnection.Close | src/ProofOfConceptGameDbConnection.cs:503-508 | Both commands are disposed and the connection is closed. The file is unchanged. |
| GameDb.ProofOfConceptGameDbConnection.Dispose | src/ProofOfConceptGameDbConnection.cs:510-515 | Both commands are disposed and the connection is closed. The file is unchanged. |
| ModSystem.IncrementalWorldBackupsModSystem.constructor | src/WorldSaveProofOfConceptModSystem.cs:17-20 | A new mod system holds no Harmony instance and has applied no patch. |
| ModSystem.IncrementalWorldBackupsModSystem.StartServerSide | src/WorldSaveProofOfConceptModSystem.cs:24-31 | The patches are applied under `incrementalworldbackups`. The open save file is migrated with `NOT NULL DEFAULT 0`, keeping whatever committed before an engine fault. On success both prepared commands are live and the four tables have `last_updated`. |
| ModSystem.IncrementalWorldBackupsModSystem.Dispose | src/WorldSaveProofOfConceptModSystem.cs:33-37 | The instance is dropped. The patches are removed exactly when there was an instance to remove them through. |
| ModSystem.IncrementalWorldBackupsModSystem.CreateLastUpdatedColumnIfNotExists | src/WorldSaveProofOfConceptModSystem.cs:39-84 | The file becomes the `Migrate` result. When the loop throws, the commands are untouched. Otherwise the connection's `OnOpened` rebuilds them, with the outcomes of preparing on the migrated file. |

## Left out

- The SQLite engine is modelled only as far as this code depends on it: DDL, the statements the code issues, errors for a missing table or column and for malformed SQL, and the `AUTOINCREMENT` counter. SQL parsing, types and the file format are not modelled. I/O appears only through its effect: a write the engine fails (`EngineFault`).
- Sqlite.SqliteConnection.CountColumn: the `pragma_table_info` count, like the other reads (`GetChunk`, `GetChunks`, `GetAllChunks`, `GetPlayerData`, `QuantityChunks`), is not given an engine fault. A read that fails throws before any change. In the migration loop such a fault would end the run at that table, as a fault on its `ALTER` does when the column is missing.
- `DoIntegrityCheck`, `PRAGMA writable_schema` and `VACUUM` belong to the engine. `IntegrityCheck` receives their results as parameters.
- CreateBackup: only the guard against overwriting the running file is modelled. The file check, the backup API and `GamePaths.Backups` are I/O.
- `transactionLock` and concurrency are not modelled. Each method runs alone, and a transaction is a snapshot restored on failure.
- The clock: `unixepoch('now')` is the parameter `now`, one value per call. The clock is not modelled as advancing within a batch.
- Logging, `Console.WriteLine` and the `_api` logger are left out.
- `ChunkPos.ToChunkIndex` and `FromChunkIndex_saveGamev2` are left uninterpreted, as the function values of `PosCodec`. The signed 64-bit round trip `(ulong)(long)` on read is inside them.
- Lazy `IEnumerable` results are modelled as complete sequences. This includes `GetChunks` reading inside its transaction, and the caller stopping iteration early is not modelled.
- ForAllChunks: it is the `GetAllChunks("chunk")` scan with a callback per row. It is not modelled separately, because the callback is code this project cannot see.
- The one-line wrappers are covered by the members they call, with the table as a parameter. These are `GetAllChunks()`, `GetAllMapChunks`, `GetAllMapRegions`, `GetChunk(position)`, `GetMapChunk`, `GetMapRegion`, `ChunkExists(position)`, `MapChunkExists`, `MapRegionExists` and the private `InsertChunk`.
- `OpenOrCreate` and `Vacuum` live in the game's base class, which is not part of this model.
- The table name is an enumeration. SQL built from an arbitrary `tableName` string is not modelled.
- A disposed command that is used again is not modelled. `Close` and `Dispose` only mark the commands disposed.
- ModSystem.IncrementalWorldBackupsModSystem.StartServerSide: the reflection walk from `ServerProgram.server` to the connection's `sqliteConn` is replaced by passing the connection in. `PatchAll` and `UnpatchAll` become the `patched` flag, and the transpilers themselves are the `Patches` module.
- ModSystem.IncrementalWorldBackupsModSystem.CreateLastUpdatedColumnIfNotExists: in the game, `OnOpened` is that of the patched game connection. The model calls this project's `OnOpened`, whose statements are the same stamped upserts.
- ModSystem.ShouldLoad has no contract beyond its body: the mod loads on the server side only.
- GameDb.ProofOfConceptGameDbConnection.GetPlayerData: the reader's first row is "some row of the uid", because SQLite does not guarantee an order. GetGameData is modelled the same way.
- GameDb.ProofOfConceptGameDbConnection.SetMapChunks: the entries are values in an array, so two entries that share one `ChunkPos` object are not modelled.
- GameDb.ProofOfConceptGameDbConnection.SetPlayerData: for a uid with some rows holding null and some holding data, the read may find either, and the contract then says only that a failure changes nothing. Such rows arise only from an earlier insert for a uid whose read came back null.
- GameDb.ProofOfConceptGameDbConnection.SetPlayerData: its statements do not run in a transaction, and the model runs them without engine faults. The batch writes, `DeleteChunk`, `StoreGameData` and the schema statements do model them.
- A null blob is bound as SQL `NULL`. The driver refusing a parameter value is covered only as an engine fault (`EngineFault`).

## Findings

| source | as written | input that shows it | evidently intended | confidence | as-written member | corrected member |
|---|---|---|---|---|---|---|
| src/ProofOfConceptGameDbConnection.cs:168 | The insert for a new player lists `unixepoch('now')` as a column name and gives three columns only two values, so SQLite rejects the statement and `SetPlayerData` throws | `SetPlayerData(uid, data)` with non-null `data` and no `playerdata` row for `uid` | `INSERT INTO playerdata (playeruid, data, last_updated) VALUES (@playeruid, @data, unixepoch('now'))`, the statement the transpiler installs in the game's own class, which adds exactly one row holding the uid, the data and the time | not executed | GameDb.ProofOfConceptGameDbConnection.SetPlayerDataAsWritten | GameDb.ProofOfConceptGameDbConnection.SetPlayerData |
