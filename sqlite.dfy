/**
 * The SQLite save file as the persistence layer sees it: a schema (table ->
 * columns), a set of index names and the rows of the five tables. The engine
 * itself (parsing, planning, the file format) is not modelled; each statement
 * the layer issues is given its effect as an update of these maps, and its
 * failure when the table or a column it names does not exist.
 */
module Sqlite {
  import opened Wrappers

  newtype byte = x: int | 0 <= x < 256

  /** An opaque chunk, map or player blob; the store never looks inside. */
  type Blob = seq<byte>

  /** The 64-bit unsigned chunk index used as the `position` key. */
  newtype u64 = x: int | 0 <= x < 0x1_0000_0000_0000_0000

  /** The five tables of a save file. */
  datatype Table = Chunk | MapChunk | MapRegion | GameData | PlayerData
  {
    /** The table's name in SQL text. */
    function Name(): string
    {
      match this
      case Chunk => "chunk"
      case MapChunk => "mapchunk"
      case MapRegion => "mapregion"
      case GameData => "gamedata"
      case PlayerData => "playerdata"
    }
  }

  /** The three tables keyed by a chunk index (`position integer PRIMARY KEY`). */
  type ChunkTable = t: Table | t.Chunk? || t.MapChunk? || t.MapRegion? witness Chunk

  const PositionColumn := "position"
  const DataColumn := "data"
  const LastUpdatedColumn := "last_updated"
  const SavegameIdColumn := "savegameid"
  const PlayerIdColumn := "playerid"
  const PlayerUidColumn := "playeruid"

  /** The value of a `last_updated` cell: SQL NULL or epoch seconds. */
  datatype Stamp = Null | Epoch(seconds: int)

  datatype SqlType = Integer | BlobType | Text

  datatype Constraint =
    | Unconstrained
    | PrimaryKey
    | PrimaryKeyAutoincrement
    | NotNullDefault(value: int)

  /** One column definition of a CREATE TABLE or ALTER TABLE ... ADD COLUMN. */
  datatype ColumnDecl = ColumnDecl(sqlType: SqlType, constraint: Constraint)
  {
    /** What a row holds in this column when no value is supplied for it. */
    function Default(): Stamp
    {
      if constraint.NotNullDefault? then Epoch(constraint.value) else Null
    }
  }

  type Columns = map<string, ColumnDecl>

  /** A row of `chunk`, `mapchunk`, `mapregion` or `gamedata`. */
  datatype Row = Row(data: Option<Blob>, lastUpdated: Stamp)

  /** A row of `playerdata`; the row's key is the surrogate `playerid`. */
  datatype PlayerRow = PlayerRow(playeruid: string, data: Option<Blob>, lastUpdated: Stamp)

  /** The exceptions the layer can raise or receive. */
  datatype DbError =
    | ConnectionClosed
    | NoSuchTable
    | NoSuchColumn
    | DuplicateColumn
    | SyntaxError
    | NullReference
    | IntegerOverflow
    | IntegrityBad
      /** A failure from outside the statement: a full disk, an I/O error, a locked file, a value the driver refuses to bind. */
    | EngineFault

  /** The contents of the database file. */
  datatype Db = Db(
    schema: map<Table, Columns>,
    indexes: set<string>,
    chunk: map<u64, Row>,
    mapchunk: map<u64, Row>,
    mapregion: map<u64, Row>,
    gamedata: map<int, Row>,
    playerdata: map<int, PlayerRow>,
    playerSeq: int)  // the AUTOINCREMENT counter kept in sqlite_sequence
  {
    /**
     * Tables that do not exist hold no rows, and every `playerid` is at most
     * the AUTOINCREMENT counter, so the next insert gets a fresh id.
     */
    ghost predicate Valid()
    {
      && (forall t: ChunkTable | t !in schema :: Rows(t) == map[])
      && (GameData !in schema ==> gamedata == map[])
      && (PlayerData !in schema ==> playerdata == map[])
      && 0 <= playerSeq
      && (forall id | id in playerdata :: 0 < id <= playerSeq)
    }

    function Rows(t: ChunkTable): map<u64, Row>
    {
      match t
      case Chunk => chunk
      case MapChunk => mapchunk
      case MapRegion => mapregion
    }

    function WithRows(t: ChunkTable, rows: map<u64, Row>): Db
    {
      match t
      case Chunk => this.(chunk := rows)
      case MapChunk => this.(mapchunk := rows)
      case MapRegion => this.(mapregion := rows)
    }

    predicate HasColumn(t: Table, column: string)
    {
      t in schema && column in schema[t]
    }

    /** How SQLite resolves a statement naming `columns` of `t`. */
    function Resolve(t: Table, columns: set<string>): Outcome<DbError>
    {
      if t !in schema then Fail(NoSuchTable)
      else if columns <= schema[t].Keys then Pass
      else Fail(NoSuchColumn)
    }

    /** What `last_updated` holds in a row inserted into `t` without it. */
    function StampDefault(t: Table): Stamp
    {
      if HasColumn(t, LastUpdatedColumn) then schema[t][LastUpdatedColumn].Default() else Null
    }
  }

  /** Every row of `rows` with its `last_updated` cell set to `s`. */
  function Restamp<K>(rows: map<K, Row>, s: Stamp): map<K, Row>
  {
    map k | k in rows :: rows[k].(lastUpdated := s)
  }

  function RestampPlayers(rows: map<int, PlayerRow>, s: Stamp): map<int, PlayerRow>
  {
    map k | k in rows :: rows[k].(lastUpdated := s)
  }

  /** Schema statements. */
  datatype Ddl =
    | CreateTableIfNotExists(table: Table, columns: Columns)
    | CreateIndexIfNotExists(name: string, on: Table, column: string)
    | AlterTableAddColumn(table: Table, column: string, decl: ColumnDecl)

  /** `ALTER TABLE t ADD COLUMN c decl` on a table that lacks `c`: existing rows take the default. */
  function AddColumn(db: Db, t: Table, c: string, decl: ColumnDecl): Db
    requires t in db.schema
  {
    var db' := db.(schema := db.schema[t := db.schema[t][c := decl]]);
    if c != LastUpdatedColumn then db'
    else match t
      case GameData => db'.(gamedata := Restamp(db.gamedata, decl.Default()))
      case PlayerData => db'.(playerdata := RestampPlayers(db.playerdata, decl.Default()))
      case _ => db'.WithRows(t, Restamp(db.Rows(t), decl.Default()))
  }

  /**
   * The effect of one schema statement. A `CREATE INDEX IF NOT EXISTS` looks
   * up its table first, then the index name, then the column.
   */
  function ExecDdl(db: Db, s: Ddl): Result<Db, DbError>
  {
    match s
    case CreateTableIfNotExists(t, columns) =>
      Success(if t in db.schema then db else db.(schema := db.schema[t := columns]))
    case CreateIndexIfNotExists(name, t, c) =>
      if t !in db.schema then Failure(NoSuchTable)
      else if name in db.indexes then Success(db)
      else if db.Resolve(t, {c}).Fail? then Failure(db.Resolve(t, {c}).error)
      else Success(db.(indexes := db.indexes + {name}))
    case AlterTableAddColumn(t, c, decl) =>
      if t !in db.schema then Failure(NoSuchTable)
      else if c in db.schema[t] then Failure(DuplicateColumn)
      else Success(AddColumn(db, t, c, decl))
  }

  /** Data statements, with their bound parameters. */
  datatype Dml =
      /** INSERT OR REPLACE INTO t (position, data, last_updated) VALUES (@position, @data, unixepoch('now')) */
    | InsertOrReplaceChunk(table: ChunkTable, position: u64, data: Option<Blob>)
      /** DELETE FROM t WHERE position = @position */
    | DeleteChunk(table: ChunkTable, position: u64)
      /** INSERT OR REPLACE INTO gamedata (savegameid, data) VALUES (@savegameid, @data) */
    | InsertOrReplaceGameData(savegameid: int, data: Option<Blob>)
      /** INSERT INTO playerdata (playeruid, data, last_updated) VALUES (@playeruid, @data, unixepoch('now')) */
    | InsertPlayer(playeruid: string, data: Option<Blob>)
      /** UPDATE playerdata SET data = @data, last_updated = unixepoch('now') WHERE playeruid = @playeruid */
    | UpdatePlayer(playeruid: string, data: Option<Blob>)
      /** DELETE FROM playerdata WHERE playeruid = @playeruid */
    | DeletePlayer(playeruid: string)
      /** Text that SQLite's parser rejects. */
    | Unparsable

  /** The effect of one data statement executed when `unixepoch('now')` is `now`. */
  function Exec(db: Db, s: Dml, now: int): Result<Db, DbError>
  {
    match s
    case InsertOrReplaceChunk(t, position, data) =>
      var check := db.Resolve(t, {PositionColumn, DataColumn, LastUpdatedColumn});
      if check.Fail? then Failure(check.error)
      else Success(db.WithRows(t, db.Rows(t)[position := Row(data, Epoch(now))]))
    case DeleteChunk(t, position) =>
      var check := db.Resolve(t, {PositionColumn});
      if check.Fail? then Failure(check.error)
      else Success(db.WithRows(t, db.Rows(t) - {position}))
    case InsertOrReplaceGameData(id, data) =>
      var check := db.Resolve(GameData, {SavegameIdColumn, DataColumn});
      if check.Fail? then Failure(check.error)
      else Success(db.(gamedata := db.gamedata[id := Row(data, db.StampDefault(GameData))]))
    case InsertPlayer(uid, data) =>
      var check := db.Resolve(PlayerData, {PlayerUidColumn, DataColumn, LastUpdatedColumn});
      if check.Fail? then Failure(check.error)
      else
        var id := db.playerSeq + 1;
        Success(db.(playerdata := db.playerdata[id := PlayerRow(uid, data, Epoch(now))], playerSeq := id))
    case UpdatePlayer(uid, data) =>
      var check := db.Resolve(PlayerData, {PlayerUidColumn, DataColumn, LastUpdatedColumn});
      if check.Fail? then Failure(check.error)
      else Success(db.(playerdata := map id | id in db.playerdata ::
                                       if db.playerdata[id].playeruid == uid then PlayerRow(uid, data, Epoch(now))
                                       else db.playerdata[id]))
    case DeletePlayer(uid) =>
      var check := db.Resolve(PlayerData, {PlayerUidColumn});
      if check.Fail? then Failure(check.error)
      else Success(db.(playerdata := map id | id in db.playerdata && db.playerdata[id].playeruid != uid :: db.playerdata[id]))
    case Unparsable =>
      Failure(SyntaxError)
  }

  lemma WithRowsValid(db: Db, t: ChunkTable, rows: map<u64, Row>)
    requires db.Valid() && t in db.schema
    ensures db.WithRows(t, rows).Valid()
  {
    var d := db.WithRows(t, rows);
    forall u: ChunkTable | u !in d.schema
      ensures d.Rows(u) == map[]
    {
      assert u != t && d.Rows(u) == db.Rows(u);
    }
  }

  /** Replacing one table's rows twice keeps the second replacement, and the schema is untouched. */
  lemma WithRowsTwice(db: Db, t: ChunkTable, first: map<u64, Row>, second: map<u64, Row>)
    ensures db.WithRows(t, first).Rows(t) == first
    ensures db.WithRows(t, first).WithRows(t, second) == db.WithRows(t, second)
    ensures db.WithRows(t, first).schema == db.schema
  {
    match t
    case Chunk =>
    case MapChunk =>
    case MapRegion =>
  }

  /** A database that differs from a valid one only outside the chunk tables' rows is valid. */
  lemma SameChunkRowsValid(db: Db, d: Db)
    requires db.Valid() && db.schema.Keys <= d.schema.Keys
    requires d.chunk == db.chunk && d.mapchunk == db.mapchunk && d.mapregion == db.mapregion
    requires GameData !in d.schema ==> d.gamedata == map[]
    requires PlayerData !in d.schema ==> d.playerdata == map[]
    requires 0 <= d.playerSeq && forall id | id in d.playerdata :: 0 < id <= d.playerSeq
    ensures d.Valid()
  {
    forall u: ChunkTable | u !in d.schema
      ensures d.Rows(u) == map[]
    {
      assert u !in db.schema && d.Rows(u) == db.Rows(u);
    }
  }

  lemma AddColumnValid(db: Db, t: Table, c: string, decl: ColumnDecl)
    requires db.Valid() && t in db.schema
    ensures AddColumn(db, t, c, decl).Valid()
  {
    var db' := db.(schema := db.schema[t := db.schema[t][c := decl]]);
    SameChunkRowsValid(db, db');
    if c == LastUpdatedColumn {
      match t
      case GameData =>
        SameChunkRowsValid(db, db'.(gamedata := Restamp(db.gamedata, decl.Default())));
      case PlayerData =>
        SameChunkRowsValid(db, db'.(playerdata := RestampPlayers(db.playerdata, decl.Default())));
      case _ =>
        WithRowsValid(db', t, Restamp(db.Rows(t), decl.Default()));
    }
  }

  /** No schema statement breaks the invariant of the file. */
  lemma ExecDdlValid(db: Db, s: Ddl)
    requires db.Valid() && ExecDdl(db, s).Success?
    ensures ExecDdl(db, s).value.Valid()
  {
    match s
    case CreateTableIfNotExists(t, columns) =>
      if t !in db.schema {
        SameChunkRowsValid(db, db.(schema := db.schema[t := columns]));
      }
    case CreateIndexIfNotExists(name, t, c) =>
      SameChunkRowsValid(db, db.(indexes := db.indexes + {name}));
    case AlterTableAddColumn(t, c, decl) =>
      AddColumnValid(db, t, c, decl);
  }

  /** No data statement breaks the invariant of the file. */
  lemma ExecValid(db: Db, s: Dml, now: int)
    requires db.Valid() && Exec(db, s, now).Success?
    ensures Exec(db, s, now).value.Valid()
  {
    match s
    case InsertOrReplaceChunk(t, position, data) =>
      WithRowsValid(db, t, db.Rows(t)[position := Row(data, Epoch(now))]);
    case DeleteChunk(t, position) =>
      WithRowsValid(db, t, db.Rows(t) - {position});
    case InsertOrReplaceGameData(id, data) =>
      SameChunkRowsValid(db, Exec(db, s, now).value);
    case InsertPlayer(uid, data) =>
      SameChunkRowsValid(db, Exec(db, s, now).value);
    case UpdatePlayer(uid, data) =>
      SameChunkRowsValid(db, Exec(db, s, now).value);
    case DeletePlayer(uid) =>
      SameChunkRowsValid(db, Exec(db, s, now).value);
    case Unparsable =>
  }

  /**
   * `INSERT INTO playerdata` adds exactly one row, under an id no row had,
   * holding the uid, the data and `now`; every other row is kept.
   */
  lemma InsertPlayerAddsOneRow(db: Db, uid: string, data: Option<Blob>, now: int)
    requires db.Valid() && Exec(db, InsertPlayer(uid, data), now).Success?
    ensures var after := Exec(db, InsertPlayer(uid, data), now).value.playerdata;
      && |after| == |db.playerdata| + 1
      && (forall id | id in db.playerdata :: id in after && after[id] == db.playerdata[id])
      && exists id :: id !in db.playerdata && id in after && after[id] == PlayerRow(uid, data, Epoch(now))
  {
    var id := db.playerSeq + 1;
    assert id !in db.playerdata;
    var after := Exec(db, InsertPlayer(uid, data), now).value.playerdata;
    assert after == db.playerdata[id := PlayerRow(uid, data, Epoch(now))];
    assert id in after && after[id] == PlayerRow(uid, data, Epoch(now));
  }

  /**
   * `UPDATE playerdata ... WHERE playeruid = @playeruid` keeps the set of
   * rows and rewrites exactly the rows of that uid.
   */
  lemma UpdatePlayerKeepsRows(db: Db, uid: string, data: Option<Blob>, now: int)
    requires Exec(db, UpdatePlayer(uid, data), now).Success?
    ensures var after := Exec(db, UpdatePlayer(uid, data), now).value.playerdata;
      && after.Keys == db.playerdata.Keys
      && |after| == |db.playerdata|
      && (forall id | id in after && db.playerdata[id].playeruid == uid :: after[id] == PlayerRow(uid, data, Epoch(now)))
      && (forall id | id in after && db.playerdata[id].playeruid != uid :: after[id] == db.playerdata[id])
  {
    var after := Exec(db, UpdatePlayer(uid, data), now).value.playerdata;
    assert after.Keys == db.playerdata.Keys;
  }

  /** `DELETE FROM playerdata WHERE playeruid = @playeruid` removes exactly the rows of that uid. */
  lemma DeletePlayerRemovesRows(db: Db, uid: string, now: int)
    requires Exec(db, DeletePlayer(uid), now).Success?
    ensures var after := Exec(db, DeletePlayer(uid), now).value.playerdata;
      && (forall id | id in after :: after[id].playeruid != uid)
      && (forall id | id in db.playerdata :: (id in after <==> db.playerdata[id].playeruid != uid))
      && (forall id | id in after :: after[id] == db.playerdata[id])
  {
  }

  /** The live connection to the save file (Microsoft.Data.Sqlite's `SqliteConnection`). */
  class SqliteConnection {
    var db: Db
    var isOpen: bool

    constructor (db: Db)
      requires db.Valid()
      ensures this.db == db && isOpen
    {
      this.db := db;
      isOpen := true;
    }

    /** `SELECT COUNT(*) FROM pragma_table_info('t') WHERE name = c`; a missing table has no columns. */
    method CountColumn(t: Table, c: string) returns (r: Result<int, DbError>)
      ensures !isOpen ==> r == Failure(ConnectionClosed)
      ensures isOpen ==> r == Success(if db.HasColumn(t, c) then 1 else 0)
    {
      if !isOpen {
        return Failure(ConnectionClosed);
      }
      r := Success(if db.HasColumn(t, c) then 1 else 0);
    }

    /** `Prepare()`: compiling a statement fails exactly where executing it would, and changes nothing. */
    method Prepare(s: Dml) returns (r: Outcome<DbError>)
      ensures !isOpen ==> r == Fail(ConnectionClosed)
      ensures isOpen && Exec(db, s, 0).Failure? ==> r == Fail(Exec(db, s, 0).error)
      ensures isOpen && Exec(db, s, 0).Success? ==> r == Pass
    {
      if !isOpen {
        return Fail(ConnectionClosed);
      }
      r := if Exec(db, s, 0).Failure? then Fail(Exec(db, s, 0).error) else Pass;
    }

    /** Disposing a transaction that was not committed restores the file as it was when it began. */
    method Rollback(snapshot: Db)
      requires snapshot.Valid()
      modifies this
      ensures db == snapshot && isOpen == old(isOpen)
    {
      db := snapshot;
    }

    method Close()
      modifies this
      ensures !isOpen && db == old(db)
    {
      isOpen := false;
    }

    /**
     * `ExecuteNonQuery` of a schema statement outside any transaction; it
     * commits on its own. `fault` says whether the engine fails a statement
     * that is itself sound, as for a data statement.
     */
    method ExecuteDdl(s: Ddl, fault: bool) returns (r: Outcome<DbError>)
      requires db.Valid()
      modifies this
      ensures db.Valid() && isOpen == old(isOpen)
      ensures !old(isOpen) ==> r == Fail(ConnectionClosed) && db == old(db)
      ensures old(isOpen) && ExecDdl(old(db), s).Success? && !fault ==> r == Pass && db == ExecDdl(old(db), s).value
      ensures old(isOpen) && ExecDdl(old(db), s).Success? && fault ==> r == Fail(EngineFault) && db == old(db)
      ensures old(isOpen) && ExecDdl(old(db), s).Failure? ==> r == Fail(ExecDdl(old(db), s).error) && db == old(db)
    {
      if !isOpen {
        return Fail(ConnectionClosed);
      }
      match ExecDdl(db, s)
      case Success(d) =>
        if fault {
          return Fail(EngineFault);
        }
        ExecDdlValid(db, s);
        db := d;
        r := Pass;
      case Failure(e) =>
        r := Fail(e);
    }

    /**
     * `ExecuteNonQuery` of a data statement. `fault` says whether the engine
     * fails a statement that is itself sound, for a reason outside it; a
     * failed statement changes nothing.
     */
    method ExecuteNonQuery(s: Dml, now: int, fault: bool) returns (r: Outcome<DbError>)
      requires db.Valid()
      modifies this
      ensures db.Valid() && isOpen == old(isOpen)
      ensures !old(isOpen) ==> r == Fail(ConnectionClosed) && db == old(db)
      ensures old(isOpen) && Exec(old(db), s, now).Success? && !fault ==> r == Pass && db == Exec(old(db), s, now).value
      ensures old(isOpen) && Exec(old(db), s, now).Success? && fault ==> r == Fail(EngineFault) && db == old(db)
      ensures old(isOpen) && Exec(old(db), s, now).Failure? ==> r == Fail(Exec(old(db), s, now).error) && db == old(db)
    {
      if !isOpen {
        return Fail(ConnectionClosed);
      }
      match Exec(db, s, now)
      case Success(d) =>
        if fault {
          return Fail(EngineFault);
        }
        ExecValid(db, s, now);
        db := d;
        r := Pass;
      case Failure(e) =>
        r := Fail(e);
    }
  }
}
