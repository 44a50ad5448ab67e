/**
 * `ProofOfConceptGameDbConnection`: the save-game store. It keeps two
 * prepared upsert commands, writes batches of chunks, map chunks and map
 * regions inside one transaction each, reads them back, stores player and
 * game data, and creates and migrates the schema.
 */
module GameDb {
  import opened Wrappers
  import opened Sqlite
  import opened Schema
  import opened Batches

  /** A command held in a field: usable, or released by `Close`/`Dispose`. */
  datatype Command = Live | Disposed

  /** `cmd?.Dispose()`: a null field stays null. */
  function Release(cmd: Option<Command>): (r: Option<Command>)
    ensures r.Some? <==> cmd.Some?
    ensures r.Some? ==> r.value == Disposed
  {
    if cmd.Some? then Some(Disposed) else None
  }

  /** The columns `INSERT OR REPLACE INTO t (position, data, last_updated)` names. */
  const UpsertColumns: set<string> := {PositionColumn, DataColumn, LastUpdatedColumn}

  /** How preparing the upsert into `t` ends: it fails exactly where executing it would. */
  function PrepareOutcome(open: bool, db: Db, t: ChunkTable): Outcome<DbError>
  {
    if !open then Fail(ConnectionClosed) else db.Resolve(t, UpsertColumns)
  }

  /** The columns `SELECT data FROM t WHERE position = @position` names. */
  const LookupColumns: set<string> := {PositionColumn, DataColumn}

  /** `int.MaxValue`, the bound of `Convert.ToInt32`. */
  const Int32Max := 0x7fff_ffff

  /**
   * How a batch of `n` statements that runs inside a transaction ends.
   * `BeginTransaction` throws on a closed connection, and a missing prepared
   * command is a null dereference. An empty batch commits at once. Otherwise
   * the first statement throws when the table or a column is missing, since
   * every statement of a batch names the same ones (`check`); failing that,
   * statement `failsAt`, if the batch reaches it, throws `EngineFault`.
   */
  function BatchOutcome(open: bool, hasCommand: bool, n: nat, check: Outcome<DbError>, failsAt: Option<nat>): Outcome<DbError>
  {
    if !open then Fail(ConnectionClosed)
    else if !hasCommand then Fail(NullReference)
    else if n == 0 then Pass
    else if check.Fail? then check
    else if failsAt.Some? && failsAt.value < n then Fail(EngineFault)
    else Pass
  }

  /**
   * The index of the statement a failed batch stopped at: the first when
   * the table or a column is missing, otherwise the one the engine failed.
   */
  function StoppedAt(check: Outcome<DbError>, failsAt: Option<nat>): nat
  {
    if check.Fail? || failsAt.None? then 0 else failsAt.value
  }

  /** The outcome of statement `i` of a batch that got that far without failing. */
  function StepOutcome(check: Outcome<DbError>, failsAt: Option<nat>, i: nat): Outcome<DbError>
  {
    if check.Pass? && failsAt == Some(i) then Fail(EngineFault) else check
  }

  /** A batch whose statement `i` fails ends with that failure, stopped at `i`. */
  lemma BatchStopsAt(check: Outcome<DbError>, failsAt: Option<nat>, n: nat, i: nat)
    requires i < n && (i > 0 ==> check.Pass?) && (failsAt.Some? ==> i <= failsAt.value)
    requires StepOutcome(check, failsAt, i).Fail?
    ensures BatchOutcome(true, true, n, check, failsAt) == StepOutcome(check, failsAt, i)
    ensures StoppedAt(check, failsAt) == i
  {
  }

  /** A batch whose every statement passes commits. */
  lemma BatchRunsThrough(check: Outcome<DbError>, failsAt: Option<nat>, n: nat)
    requires (n > 0 ==> check.Pass?) && (failsAt.Some? ==> n <= failsAt.value)
    ensures BatchOutcome(true, true, n, check, failsAt) == Pass
  {
  }

  /** Some row of `playerdata` belongs to `uid`. */
  predicate HasPlayer(players: map<int, PlayerRow>, uid: string)
  {
    exists id | id in players :: players[id].playeruid == uid
  }

  /** The data `SELECT data FROM playerdata WHERE playeruid = @playeruid` may read for `uid`. */
  predicate IsPlayerData(players: map<int, PlayerRow>, uid: string, d: Option<Blob>)
  {
    exists id | id in players :: players[id].playeruid == uid && players[id].data == d
  }

  /** Every row of `uid` holds null data, so the read for `uid` comes back null whichever row it finds. */
  predicate ReadsNull(players: map<int, PlayerRow>, uid: string)
  {
    forall id | id in players && players[id].playeruid == uid :: players[id].data.None?
  }

  class ProofOfConceptGameDbConnection {
    const sqliteConn: SqliteConnection
    /** `ChunkPos.ToChunkIndex` and `ChunkPos.FromChunkIndex_saveGamev2`. */
    const codec: PosCodec
    const databaseFileName: string
    var setChunksCmd: Option<Command>
    var setMapChunksCmd: Option<Command>

    ghost predicate Valid()
      reads this, sqliteConn
    {
      sqliteConn.db.Valid()
    }

    constructor (conn: SqliteConnection, codec: PosCodec, databaseFileName: string)
      requires conn.db.Valid()
      ensures sqliteConn == conn && this.codec == codec && this.databaseFileName == databaseFileName
      ensures setChunksCmd == None && setMapChunksCmd == None
      ensures Valid()
    {
      sqliteConn := conn;
      this.codec := codec;
      this.databaseFileName := databaseFileName;
      setChunksCmd := None;
      setMapChunksCmd := None;
    }

    /**
     * Builds and prepares the chunk and map chunk upserts. Each field is
     * assigned before its command is prepared, so a failure to prepare the
     * first leaves the second field as it was.
     */
    method OnOpened() returns (r: Outcome<DbError>)
      modifies this
      ensures setChunksCmd == Some(Live)
      ensures var first := PrepareOutcome(sqliteConn.isOpen, sqliteConn.db, Chunk);
        && r == (if first.Fail? then first else PrepareOutcome(sqliteConn.isOpen, sqliteConn.db, MapChunk))
        && setMapChunksCmd == (if first.Fail? then old(setMapChunksCmd) else Some(Live))
    {
      setChunksCmd := Some(Live);
      r := sqliteConn.Prepare(InsertOrReplaceChunk(Chunk, 0, None));
      if r.Fail? {
        return;
      }
      setMapChunksCmd := Some(Live);
      r := sqliteConn.Prepare(InsertOrReplaceChunk(MapChunk, 0, None));
    }

    /**
     * `IntegrityCheck`: the check and the repair belong to the engine and
     * arrive as their results. It never answers false: it answers true or
     * throws.
     */
    method IntegrityCheck(checkPasses: bool, repairThrows: bool, recheckPasses: bool) returns (r: Result<bool, DbError>)
      ensures r.Success? ==> r.value
      ensures r.Success? <==> checkPasses || (!repairThrows && recheckPasses)
      ensures r.Failure? ==> r.error == IntegrityBad
    {
      if !checkPasses {
        if repairThrows {
          return Failure(IntegrityBad);
        }
        if !recheckPasses {
          return Failure(IntegrityBad);
        }
      }
      return Success(true);
    }

    /** `SELECT count(*) FROM chunk`, narrowed by `Convert.ToInt32`. */
    method QuantityChunks() returns (r: Result<int, DbError>)
      ensures !sqliteConn.isOpen ==> r == Failure(ConnectionClosed)
      ensures sqliteConn.isOpen && Chunk !in sqliteConn.db.schema ==> r == Failure(NoSuchTable)
      ensures r.Success? <==> sqliteConn.isOpen && Chunk in sqliteConn.db.schema && |sqliteConn.db.chunk| <= Int32Max
      ensures r.Success? ==> r.value == |sqliteConn.db.chunk|
      ensures sqliteConn.isOpen && Chunk in sqliteConn.db.schema && |sqliteConn.db.chunk| > Int32Max ==> r == Failure(IntegerOverflow)
    {
      if !sqliteConn.isOpen {
        return Failure(ConnectionClosed);
      }
      if Chunk !in sqliteConn.db.schema {
        return Failure(NoSuchTable);
      }
      var count := |sqliteConn.db.chunk|;
      if count > Int32Max {
        return Failure(IntegerOverflow);
      }
      return Success(count);
    }

    /**
     * `SELECT position, data FROM t`, read to the end: every row of the
     * table exactly once, in the engine's order (`keys`), decoded by
     * `FromChunkIndex_saveGamev2`.
     */
    method GetAllChunks(t: ChunkTable) returns (r: Result<seq<DbChunk>, DbError>, ghost keys: seq<u64>)
      ensures !sqliteConn.isOpen ==> r == Failure(ConnectionClosed)
      ensures sqliteConn.isOpen ==> (r.Failure? <==> sqliteConn.db.Resolve(t, LookupColumns).Fail?)
      ensures r.Failure? && sqliteConn.isOpen ==> r.error == sqliteConn.db.Resolve(t, LookupColumns).error
      ensures r.Success? ==>
        && |r.value| == |keys| == |sqliteConn.db.Rows(t)|
        && (forall i, j | 0 <= i < j < |keys| :: keys[i] != keys[j])
        && (forall k :: k in keys <==> k in sqliteConn.db.Rows(t))
        && (forall i | 0 <= i < |keys| :: r.value[i] == DbChunk(codec.fromIndex(keys[i]), sqliteConn.db.Rows(t)[keys[i]].data))
    {
      keys := [];
      if !sqliteConn.isOpen {
        return Failure(ConnectionClosed), keys;
      }
      var check := sqliteConn.db.Resolve(t, LookupColumns);
      if check.Fail? {
        return Failure(check.error), keys;
      }
      var rows := sqliteConn.db.Rows(t);
      var remaining := rows.Keys;
      var out: seq<DbChunk> := [];
      while remaining != {}
        invariant remaining <= rows.Keys
        invariant |out| == |keys|
        invariant forall i, j | 0 <= i < j < |keys| :: keys[i] != keys[j]
        invariant forall k :: k in keys <==> k in rows && k !in remaining
        invariant |keys| + |remaining| == |rows.Keys|
        invariant forall i | 0 <= i < |keys| :: out[i] == DbChunk(codec.fromIndex(keys[i]), rows[keys[i]].data)
        decreases |remaining|
      {
        var k :| k in remaining;
        out := out + [DbChunk(codec.fromIndex(k), rows[k].data)];
        keys := keys + [k];
        remaining := remaining - {k};
      }
      assert |keys| == |rows|;
      return Success(out), keys;
    }

    /** `SELECT data FROM playerdata WHERE playeruid = @playeruid`: the data of some row of that uid, or null. */
    method GetPlayerData(uid: string) returns (r: Result<Option<Blob>, DbError>)
      ensures !sqliteConn.isOpen ==> r == Failure(ConnectionClosed)
      ensures sqliteConn.isOpen ==> (r.Failure? <==> sqliteConn.db.Resolve(PlayerData, {DataColumn, PlayerUidColumn}).Fail?)
      ensures r.Failure? && sqliteConn.isOpen ==> r.error == sqliteConn.db.Resolve(PlayerData, {DataColumn, PlayerUidColumn}).error
      ensures r.Success? && !HasPlayer(sqliteConn.db.playerdata, uid) ==> r.value == None
      ensures r.Success? && HasPlayer(sqliteConn.db.playerdata, uid) ==> IsPlayerData(sqliteConn.db.playerdata, uid, r.value)
    {
      if !sqliteConn.isOpen {
        return Failure(ConnectionClosed);
      }
      var check := sqliteConn.db.Resolve(PlayerData, {DataColumn, PlayerUidColumn});
      if check.Fail? {
        return Failure(check.error);
      }
      var players := sqliteConn.db.playerdata;
      if HasPlayer(players, uid) {
        var id :| id in players && players[id].playeruid == uid;
        return Success(players[id].data);
      }
      return Success(None);
    }

    /**
     * The three branches of `SetPlayerData`, with the statement the insert
     * branch runs as a parameter: null data deletes the uid's rows; data for
     * a uid whose read comes back null inserts; otherwise the uid's rows are
     * updated.
     */
    method SetPlayerDataUsing(uid: string, data: Option<Blob>, now: int, insert: Dml) returns (r: Outcome<DbError>)
      requires Valid()
      modifies sqliteConn
      ensures Valid() && sqliteConn.isOpen == old(sqliteConn.isOpen)
      ensures r.Fail? ==> sqliteConn.db == old(sqliteConn.db)
      ensures data.None? ==> r == (if !old(sqliteConn.isOpen) then Fail(ConnectionClosed) else old(sqliteConn.db).Resolve(PlayerData, {PlayerUidColumn}))
      ensures data.None? && r.Pass? ==> sqliteConn.db == Exec(old(sqliteConn.db), DeletePlayer(uid), now).value
      ensures data.Some? && old(sqliteConn.isOpen) && old(sqliteConn.db).Resolve(PlayerData, {DataColumn, PlayerUidColumn}).Pass?
              && HasPlayer(old(sqliteConn.db).playerdata, uid) && !IsPlayerData(old(sqliteConn.db).playerdata, uid, None) ==>
        var s := UpdatePlayer(uid, data);
        r == (if Exec(old(sqliteConn.db), s, now).Failure? then Fail(Exec(old(sqliteConn.db), s, now).error) else Pass)
        && (r.Pass? ==> sqliteConn.db == Exec(old(sqliteConn.db), s, now).value)
      ensures data.Some? && old(sqliteConn.isOpen) && old(sqliteConn.db).Resolve(PlayerData, {DataColumn, PlayerUidColumn}).Pass?
              && ReadsNull(old(sqliteConn.db).playerdata, uid) ==>
        r == (if Exec(old(sqliteConn.db), insert, now).Failure? then Fail(Exec(old(sqliteConn.db), insert, now).error) else Pass)
        && (r.Pass? ==> sqliteConn.db == Exec(old(sqliteConn.db), insert, now).value)
      ensures data.Some? && !old(sqliteConn.isOpen) ==> r == Fail(ConnectionClosed)
      ensures data.Some? && old(sqliteConn.isOpen) && old(sqliteConn.db).Resolve(PlayerData, {DataColumn, PlayerUidColumn}).Fail? ==>
        r == old(sqliteConn.db).Resolve(PlayerData, {DataColumn, PlayerUidColumn})
    {
      if data.None? {
        r := sqliteConn.ExecuteNonQuery(DeletePlayer(uid), now, false);
        return;
      }
      var existing := GetPlayerData(uid);
      if existing.Failure? {
        return Fail(existing.error);
      }
      if existing.value.None? {
        r := sqliteConn.ExecuteNonQuery(insert, now, false);
      } else {
        r := sqliteConn.ExecuteNonQuery(UpdatePlayer(uid, data), now, false);
      }
    }

    /**
     * `SetPlayerData` as written: its insert text lists `unixepoch('now')`
     * as a column and gives three columns two values, so SQLite rejects it
     * and a new player's data is never stored.
     */
    method SetPlayerDataAsWritten(uid: string, data: Option<Blob>, now: int) returns (r: Outcome<DbError>)
      requires Valid()
      modifies sqliteConn
      ensures Valid() && sqliteConn.isOpen == old(sqliteConn.isOpen)
      ensures data.Some? && old(sqliteConn.isOpen) && old(sqliteConn.db).Resolve(PlayerData, {DataColumn, PlayerUidColumn}).Pass?
              && !HasPlayer(old(sqliteConn.db).playerdata, uid) ==>
        r == Fail(SyntaxError) && sqliteConn.db == old(sqliteConn.db)
    {
      r := SetPlayerDataUsing(uid, data, now, Unparsable);
    }

    /**
     * `SetPlayerData` with the insert the patched game uses,
     * `INSERT INTO playerdata (playeruid, data, last_updated) VALUES
     * (@playeruid, @data, unixepoch('now'))`: a new player gets exactly one
     * row holding the uid, the data and `now`.
     */
    method SetPlayerData(uid: string, data: Option<Blob>, now: int) returns (r: Outcome<DbError>)
      requires Valid()
      modifies sqliteConn
      ensures Valid() && sqliteConn.isOpen == old(sqliteConn.isOpen)
      ensures r.Fail? ==> sqliteConn.db == old(sqliteConn.db)
      // null data: the uid's rows are deleted
      ensures data.None? ==> r == (if !old(sqliteConn.isOpen) then Fail(ConnectionClosed) else old(sqliteConn.db).Resolve(PlayerData, {PlayerUidColumn}))
      ensures data.None? && r.Pass? ==>
        && sqliteConn.db == Exec(old(sqliteConn.db), DeletePlayer(uid), now).value
        && sqliteConn.db == old(sqliteConn.db).(playerdata := sqliteConn.db.playerdata)
        && !HasPlayer(sqliteConn.db.playerdata, uid)
        && (forall id | id in old(sqliteConn.db).playerdata && old(sqliteConn.db).playerdata[id].playeruid != uid ::
              id in sqliteConn.db.playerdata && sqliteConn.db.playerdata[id] == old(sqliteConn.db).playerdata[id])
      // data, but the read of the uid throws
      ensures data.Some? && !old(sqliteConn.isOpen) ==> r == Fail(ConnectionClosed)
      ensures data.Some? && old(sqliteConn.isOpen) && old(sqliteConn.db).Resolve(PlayerData, {DataColumn, PlayerUidColumn}).Fail? ==>
        r == old(sqliteConn.db).Resolve(PlayerData, {DataColumn, PlayerUidColumn})
      // data for a uid whose read comes back null: one row is inserted
      ensures data.Some? && old(sqliteConn.isOpen) && old(sqliteConn.db).Resolve(PlayerData, {DataColumn, PlayerUidColumn}).Pass?
              && ReadsNull(old(sqliteConn.db).playerdata, uid) ==>
        && r == old(sqliteConn.db).Resolve(PlayerData, {DataColumn, PlayerUidColumn, LastUpdatedColumn})
        && (r.Pass? ==> sqliteConn.db == Exec(old(sqliteConn.db), InsertPlayer(uid, data), now).value)
      ensures data.Some? && old(sqliteConn.isOpen) && old(sqliteConn.db).Resolve(PlayerData, {DataColumn, PlayerUidColumn}).Pass?
              && ReadsNull(old(sqliteConn.db).playerdata, uid) && r.Pass? ==>
        && sqliteConn.db == old(sqliteConn.db).(playerdata := sqliteConn.db.playerdata, playerSeq := sqliteConn.db.playerSeq)
        && |sqliteConn.db.playerdata| == |old(sqliteConn.db).playerdata| + 1
        && (forall id | id in old(sqliteConn.db).playerdata :: id in sqliteConn.db.playerdata && sqliteConn.db.playerdata[id] == old(sqliteConn.db).playerdata[id])
        && (exists id :: id !in old(sqliteConn.db).playerdata && id in sqliteConn.db.playerdata && sqliteConn.db.playerdata[id] == PlayerRow(uid, data, Epoch(now)))
      ensures data.Some? && old(sqliteConn.isOpen) && old(sqliteConn.db).Resolve(PlayerData, {DataColumn, PlayerUidColumn, LastUpdatedColumn}).Pass?
              && !HasPlayer(old(sqliteConn.db).playerdata, uid) ==>
        r == Pass && IsPlayerData(sqliteConn.db.playerdata, uid, data)
      // data for a uid whose every row holds data: those rows are updated
      ensures data.Some? && old(sqliteConn.isOpen) && old(sqliteConn.db).Resolve(PlayerData, {DataColumn, PlayerUidColumn}).Pass?
              && HasPlayer(old(sqliteConn.db).playerdata, uid) && !IsPlayerData(old(sqliteConn.db).playerdata, uid, None) ==>
        && r == old(sqliteConn.db).Resolve(PlayerData, {DataColumn, PlayerUidColumn, LastUpdatedColumn})
        && (r.Pass? ==> sqliteConn.db == Exec(old(sqliteConn.db), UpdatePlayer(uid, data), now).value)
      ensures data.Some? && old(sqliteConn.isOpen) && old(sqliteConn.db).Resolve(PlayerData, {DataColumn, PlayerUidColumn}).Pass?
              && HasPlayer(old(sqliteConn.db).playerdata, uid) && !IsPlayerData(old(sqliteConn.db).playerdata, uid, None) && r.Pass? ==>
        && sqliteConn.db == old(sqliteConn.db).(playerdata := sqliteConn.db.playerdata)
        && sqliteConn.db.playerdata.Keys == old(sqliteConn.db).playerdata.Keys
        && (forall id | id in sqliteConn.db.playerdata ::
              sqliteConn.db.playerdata[id] == if old(sqliteConn.db).playerdata[id].playeruid == uid
                                              then PlayerRow(uid, data, Epoch(now))
                                              else old(sqliteConn.db).playerdata[id])
      ensures data.Some? && old(sqliteConn.isOpen) && old(sqliteConn.db).Resolve(PlayerData, {DataColumn, PlayerUidColumn, LastUpdatedColumn}).Pass?
              && HasPlayer(old(sqliteConn.db).playerdata, uid) && !IsPlayerData(old(sqliteConn.db).playerdata, uid, None) ==>
        r == Pass
    {
      ghost var before := sqliteConn.db;
      r := SetPlayerDataUsing(uid, data, now, InsertPlayer(uid, data));
      if data.None? && r.Pass? {
        DeletePlayerRemovesRows(before, uid, now);
      }
      if data.Some? && r.Pass? && before.Resolve(PlayerData, {DataColumn, PlayerUidColumn}).Pass? {
        if ReadsNull(before.playerdata, uid) {
          InsertPlayerAddsOneRow(before, uid, data, now);
          var id :| id !in before.playerdata && id in sqliteConn.db.playerdata && sqliteConn.db.playerdata[id] == PlayerRow(uid, data, Epoch(now));
        } else if HasPlayer(before.playerdata, uid) && !IsPlayerData(before.playerdata, uid, None) {
          UpdatePlayerKeepsRows(before, uid, data, now);
        }
      }
    }

    /**
     * `GetChunks`: inside one transaction, `GetChunk` of each position's
     * index in `chunk`, in order.
     */
    method GetChunks(positions: seq<ChunkPos>) returns (r: Result<seq<Option<Blob>>, DbError>)
      ensures !sqliteConn.isOpen ==> r == Failure(ConnectionClosed)
      ensures sqliteConn.isOpen ==>
        (r.Failure? <==> |positions| > 0 && sqliteConn.db.Resolve(Chunk, LookupColumns).Fail?)
      ensures r.Success? ==>
        && |r.value| == |positions|
        && forall i | 0 <= i < |positions| :: r.value[i] == DataAt(sqliteConn.db.chunk, codec.toIndex(positions[i]))
    {
      if !sqliteConn.isOpen {
        return Failure(ConnectionClosed);
      }
      var out: seq<Option<Blob>> := [];
      var i := 0;
      while i < |positions|
        invariant 0 <= i <= |positions|
        invariant |out| == i
        invariant i > 0 ==> sqliteConn.db.Resolve(Chunk, LookupColumns).Pass?
        invariant forall j | 0 <= j < i :: out[j] == DataAt(sqliteConn.db.chunk, codec.toIndex(positions[j]))
      {
        var d := GetChunk(codec.toIndex(positions[i]), Chunk);
        if d.Failure? {
          return Failure(d.error);
        }
        out := out + [d.value];
        i := i + 1;
      }
      return Success(out);
    }

    /** `SELECT position FROM t WHERE position = @position` has a row. */
    method ChunkExists(position: u64, t: ChunkTable) returns (r: Result<bool, DbError>)
      ensures !sqliteConn.isOpen ==> r == Failure(ConnectionClosed)
      ensures sqliteConn.isOpen ==> (r.Failure? <==> sqliteConn.db.Resolve(t, {PositionColumn}).Fail?)
      ensures r.Failure? && sqliteConn.isOpen ==> r.error == sqliteConn.db.Resolve(t, {PositionColumn}).error
      ensures r.Success? ==> (r.value <==> position in sqliteConn.db.Rows(t))
    {
      if !sqliteConn.isOpen {
        return Failure(ConnectionClosed);
      }
      var check := sqliteConn.db.Resolve(t, {PositionColumn});
      if check.Fail? {
        return Failure(check.error);
      }
      return Success(position in sqliteConn.db.Rows(t));
    }

    /** `SELECT data FROM t WHERE position = @position`: the stored blob, or null when there is no such row. */
    method GetChunk(position: u64, t: ChunkTable) returns (r: Result<Option<Blob>, DbError>)
      ensures !sqliteConn.isOpen ==> r == Failure(ConnectionClosed)
      ensures sqliteConn.isOpen ==> (r.Failure? <==> sqliteConn.db.Resolve(t, LookupColumns).Fail?)
      ensures r.Failure? && sqliteConn.isOpen ==> r.error == sqliteConn.db.Resolve(t, LookupColumns).error
      ensures r.Success? && position !in sqliteConn.db.Rows(t) ==> r.value == None
      ensures r.Success? && position in sqliteConn.db.Rows(t) ==> r.value == sqliteConn.db.Rows(t)[position].data
    {
      if !sqliteConn.isOpen {
        return Failure(ConnectionClosed);
      }
      var check := sqliteConn.db.Resolve(t, LookupColumns);
      if check.Fail? {
        return Failure(check.error);
      }
      return Success(DataAt(sqliteConn.db.Rows(t), position));
    }

    method DeleteChunks(positions: seq<ChunkPos>, failsAt: Option<nat>) returns (r: Outcome<DbError>)
      requires Valid()
      modifies sqliteConn
      ensures Valid() && sqliteConn.isOpen == old(sqliteConn.isOpen)
      ensures r == BatchOutcome(old(sqliteConn.isOpen), true, |positions|, old(sqliteConn.db).Resolve(Chunk, {PositionColumn}), failsAt)
      ensures r.Pass? ==> sqliteConn.db == old(sqliteConn.db).WithRows(Chunk, old(sqliteConn.db).chunk - (set p | p in positions :: codec.toIndex(p)))
      ensures r.Fail? ==> sqliteConn.db == old(sqliteConn.db)
    {
      r := DeleteChunksFrom(positions, Chunk, failsAt);
    }

    /** Deletes by the positions as given: unlike `SetMapChunks`, the height is not zeroed. */
    method DeleteMapChunks(positions: seq<ChunkPos>, failsAt: Option<nat>) returns (r: Outcome<DbError>)
      requires Valid()
      modifies sqliteConn
      ensures Valid() && sqliteConn.isOpen == old(sqliteConn.isOpen)
      ensures r == BatchOutcome(old(sqliteConn.isOpen), true, |positions|, old(sqliteConn.db).Resolve(MapChunk, {PositionColumn}), failsAt)
      ensures r.Pass? ==> sqliteConn.db == old(sqliteConn.db).WithRows(MapChunk, old(sqliteConn.db).mapchunk - (set p | p in positions :: codec.toIndex(p)))
      ensures r.Fail? ==> sqliteConn.db == old(sqliteConn.db)
    {
      r := DeleteChunksFrom(positions, MapChunk, failsAt);
    }

    /** Deletes by the positions as given: unlike `SetMapRegions`, the height is not zeroed. */
    method DeleteMapRegions(positions: seq<ChunkPos>, failsAt: Option<nat>) returns (r: Outcome<DbError>)
      requires Valid()
      modifies sqliteConn
      ensures Valid() && sqliteConn.isOpen == old(sqliteConn.isOpen)
      ensures r == BatchOutcome(old(sqliteConn.isOpen), true, |positions|, old(sqliteConn.db).Resolve(MapRegion, {PositionColumn}), failsAt)
      ensures r.Pass? ==> sqliteConn.db == old(sqliteConn.db).WithRows(MapRegion, old(sqliteConn.db).mapregion - (set p | p in positions :: codec.toIndex(p)))
      ensures r.Fail? ==> sqliteConn.db == old(sqliteConn.db)
    {
      r := DeleteChunksFrom(positions, MapRegion, failsAt);
    }

    /**
     * `DeleteChunks(positions, tableName)`: inside one transaction, delete
     * the row of each position's index. Exactly the listed indexes leave the
     * table; absent ones are no-ops; nothing else changes.
     */
    method DeleteChunksFrom(positions: seq<ChunkPos>, t: ChunkTable, failsAt: Option<nat>) returns (r: Outcome<DbError>)
      requires Valid()
      modifies sqliteConn
      ensures Valid() && sqliteConn.isOpen == old(sqliteConn.isOpen)
      ensures r == BatchOutcome(old(sqliteConn.isOpen), true, |positions|, old(sqliteConn.db).Resolve(t, {PositionColumn}), failsAt)
      ensures r.Pass? ==> sqliteConn.db == old(sqliteConn.db).WithRows(t, old(sqliteConn.db).Rows(t) - (set p | p in positions :: codec.toIndex(p)))
      ensures r.Fail? ==> sqliteConn.db == old(sqliteConn.db)
    {
      if !sqliteConn.isOpen {
        return Fail(ConnectionClosed);
      }
      var saved := sqliteConn.db;
      ghost var keys := Indexes(codec, positions);
      var i := 0;
      while i < |positions|
        invariant 0 <= i <= |positions|
        invariant sqliteConn.db.Valid() && sqliteConn.isOpen
        invariant sqliteConn.db == saved.WithRows(t, DeleteAll(saved.Rows(t), keys[..i]))
        invariant sqliteConn.db.schema == saved.schema
        invariant i > 0 ==> saved.Resolve(t, {PositionColumn}).Pass?
        invariant failsAt.Some? ==> i <= failsAt.value
      {
        r := DeleteChunk(codec.toIndex(positions[i]), t, failsAt == Some(i));
        if r.Fail? {
          sqliteConn.Rollback(saved);
          return;
        }
        DeleteStep(saved.Rows(t), keys, i);
        WithRowsTwice(saved, t, DeleteAll(saved.Rows(t), keys[..i]), DeleteAll(saved.Rows(t), keys[..i + 1]));
        i := i + 1;
      }
      assert keys[..i] == keys;
      DeleteAllPositions(saved.Rows(t), codec, positions);
      r := Pass;
    }

    /** `DELETE FROM t WHERE position = @position`; `fault` as for `ExecuteNonQuery`. */
    method DeleteChunk(position: u64, t: ChunkTable, fault: bool) returns (r: Outcome<DbError>)
      requires Valid()
      modifies sqliteConn
      ensures Valid() && sqliteConn.isOpen == old(sqliteConn.isOpen)
      ensures r == (if !old(sqliteConn.isOpen) then Fail(ConnectionClosed)
                    else if old(sqliteConn.db).Resolve(t, {PositionColumn}).Pass? && fault then Fail(EngineFault)
                    else old(sqliteConn.db).Resolve(t, {PositionColumn}))
      ensures r.Pass? ==> sqliteConn.db == old(sqliteConn.db).WithRows(t, old(sqliteConn.db).Rows(t) - {position})
      ensures r.Fail? ==> sqliteConn.db == old(sqliteConn.db)
    {
      r := sqliteConn.ExecuteNonQuery(Dml.DeleteChunk(t, position), 0, fault);
    }

    /**
     * `SetChunks`: inside one transaction, the prepared chunk upsert for
     * every entry in order. Each entry's index then holds the data of the
     * batch's last entry with that index, stamped `now`; other rows and
     * tables are unchanged; a failure leaves the file as it was.
     */
    method SetChunks(chunks: seq<DbChunk>, now: int, failsAt: Option<nat>) returns (r: Outcome<DbError>)
      requires Valid()
      modifies sqliteConn
      ensures Valid() && sqliteConn.isOpen == old(sqliteConn.isOpen)
      ensures r == BatchOutcome(old(sqliteConn.isOpen), setChunksCmd.Some?, |chunks|, old(sqliteConn.db).Resolve(Chunk, UpsertColumns), failsAt)
      ensures r.Pass? ==> sqliteConn.db == old(sqliteConn.db).WithRows(Chunk, UpsertAll(old(sqliteConn.db).chunk, codec, chunks, now))
      ensures r.Fail? ==> sqliteConn.db == old(sqliteConn.db)
    {
      if !sqliteConn.isOpen {
        return Fail(ConnectionClosed);
      }
      var saved := sqliteConn.db;
      if setChunksCmd.None? {
        return Fail(NullReference);
      }
      var i := 0;
      while i < |chunks|
        invariant 0 <= i <= |chunks|
        invariant sqliteConn.db.Valid() && sqliteConn.isOpen
        invariant sqliteConn.db == saved.WithRows(Chunk, UpsertAll(saved.chunk, codec, chunks[..i], now))
        invariant i > 0 ==> saved.Resolve(Chunk, UpsertColumns).Pass?
        invariant failsAt.Some? ==> i <= failsAt.value
      {
        r := sqliteConn.ExecuteNonQuery(InsertOrReplaceChunk(Chunk, Key(codec, chunks[i]), chunks[i].data), now, failsAt == Some(i));
        if r.Fail? {
          sqliteConn.Rollback(saved);
          return;
        }
        assert chunks[..i + 1][..i] == chunks[..i];
        i := i + 1;
      }
      assert chunks[..i] == chunks;
      r := Pass;
    }

    /**
     * `SetMapChunks`: like `SetChunks` with the map chunk command, but each
     * entry's height is first set to 0 in the caller's own entry, so entries
     * differing only in height write one row. A failing statement fails on
     * the first entry, which is then already flattened.
     */
    method SetMapChunks(mapchunks: array<DbChunk>, now: int, failsAt: Option<nat>) returns (r: Outcome<DbError>)
      requires Valid()
      modifies sqliteConn, mapchunks
      ensures Valid() && sqliteConn.isOpen == old(sqliteConn.isOpen)
      ensures r == BatchOutcome(old(sqliteConn.isOpen), setMapChunksCmd.Some?, mapchunks.Length, old(sqliteConn.db).Resolve(MapChunk, UpsertColumns), failsAt)
      ensures r.Pass? ==> mapchunks[..] == FlattenAll(old(mapchunks[..]))
      ensures r.Pass? ==> sqliteConn.db == old(sqliteConn.db).WithRows(MapChunk, UpsertAll(old(sqliteConn.db).mapchunk, codec, FlattenAll(old(mapchunks[..])), now))
      ensures r.Fail? ==> sqliteConn.db == old(sqliteConn.db)
      ensures r.Fail? && old(sqliteConn.isOpen) && setMapChunksCmd.Some? ==>
        var k := StoppedAt(old(sqliteConn.db).Resolve(MapChunk, UpsertColumns), failsAt);
        k < mapchunks.Length && mapchunks[..] == FlattenAll(old(mapchunks[..k + 1])) + old(mapchunks[k + 1..])
      ensures r.Fail? && !(old(sqliteConn.isOpen) && setMapChunksCmd.Some?) ==> mapchunks[..] == old(mapchunks[..])
    {
      if !sqliteConn.isOpen {
        return Fail(ConnectionClosed);
      }
      if setMapChunksCmd.None? {
        return Fail(NullReference);
      }
      r := FlattenAndUpsert(mapchunks, MapChunk, now, failsAt);
    }

    /**
     * `SetMapRegions`: like `SetMapChunks`, each upsert issued through
     * `InsertChunk` on `mapregion` rather than a prepared command.
     */
    method SetMapRegions(mapregions: array<DbChunk>, now: int, failsAt: Option<nat>) returns (r: Outcome<DbError>)
      requires Valid()
      modifies sqliteConn, mapregions
      ensures Valid() && sqliteConn.isOpen == old(sqliteConn.isOpen)
      ensures r == BatchOutcome(old(sqliteConn.isOpen), true, mapregions.Length, old(sqliteConn.db).Resolve(MapRegion, UpsertColumns), failsAt)
      ensures r.Pass? ==> mapregions[..] == FlattenAll(old(mapregions[..]))
      ensures r.Pass? ==> sqliteConn.db == old(sqliteConn.db).WithRows(MapRegion, UpsertAll(old(sqliteConn.db).mapregion, codec, FlattenAll(old(mapregions[..])), now))
      ensures r.Fail? ==> sqliteConn.db == old(sqliteConn.db)
      ensures r.Fail? && old(sqliteConn.isOpen) ==>
        var k := StoppedAt(old(sqliteConn.db).Resolve(MapRegion, UpsertColumns), failsAt);
        k < mapregions.Length && mapregions[..] == FlattenAll(old(mapregions[..k + 1])) + old(mapregions[k + 1..])
      ensures r.Fail? && !old(sqliteConn.isOpen) ==> mapregions[..] == old(mapregions[..])
    {
      if !sqliteConn.isOpen {
        return Fail(ConnectionClosed);
      }
      r := FlattenAndUpsert(mapregions, MapRegion, now, failsAt);
    }

    /**
     * The transaction shared by `SetMapChunks` and `SetMapRegions`: run the
     * batch, and roll back when a statement throws out of it.
     */
    method FlattenAndUpsert(entries: array<DbChunk>, t: ChunkTable, now: int, failsAt: Option<nat>) returns (r: Outcome<DbError>)
      requires Valid() && sqliteConn.isOpen
      modifies sqliteConn, entries
      ensures Valid() && sqliteConn.isOpen
      ensures r == BatchOutcome(true, true, entries.Length, old(sqliteConn.db).Resolve(t, UpsertColumns), failsAt)
      ensures r.Pass? ==> entries[..] == FlattenAll(old(entries[..]))
      ensures r.Pass? ==> sqliteConn.db == old(sqliteConn.db).WithRows(t, UpsertAll(old(sqliteConn.db).Rows(t), codec, FlattenAll(old(entries[..])), now))
      ensures r.Fail? ==> sqliteConn.db == old(sqliteConn.db)
      ensures r.Fail? ==>
        var k := StoppedAt(old(sqliteConn.db).Resolve(t, UpsertColumns), failsAt);
        k < entries.Length && entries[..] == FlattenAll(old(entries[..k + 1])) + old(entries[k + 1..])
    {
      var saved := sqliteConn.db;
      ghost var given := entries[..];
      var stop;
      r, stop := FlattenAndUpsertEach(entries, t, now, failsAt, given, saved);
      if r.Fail? {
        sqliteConn.Rollback(saved);
        BatchStopsAt(saved.Resolve(t, UpsertColumns), failsAt, entries.Length, stop);
        assert entries[..] == FlattenAll(given[..stop + 1]) + given[stop + 1..] by {
          assert forall j | 0 <= j < entries.Length :: entries[..][j] == (FlattenAll(given[..stop + 1]) + given[stop + 1..])[j];
        }
      } else {
        BatchRunsThrough(saved.Resolve(t, UpsertColumns), failsAt, entries.Length);
        assert entries[..] == FlattenAll(given);
      }
    }

    /**
     * The loop of `FlattenAndUpsert`: zero each entry's height, then upsert
     * it into `t`, stopping at the first statement that throws. `given` is
     * the batch as passed in and `saved` the file before the batch; after a
     * failure at statement `stop` the file is left for the transaction to
     * roll back.
     */
    method FlattenAndUpsertEach(entries: array<DbChunk>, t: ChunkTable, now: int, failsAt: Option<nat>, ghost given: seq<DbChunk>, ghost saved: Db)
      returns (r: Outcome<DbError>, stop: nat)
      requires Valid() && sqliteConn.isOpen && sqliteConn.db == saved && entries[..] == given
      modifies sqliteConn, entries
      ensures Valid() && sqliteConn.isOpen
      ensures (stop > 0 ==> saved.Resolve(t, UpsertColumns).Pass?) && (failsAt.Some? ==> stop <= failsAt.value)
      ensures r.Pass? ==> stop == |given|
      ensures r.Pass? ==> forall j | 0 <= j < entries.Length :: entries[j] == Flattened(given[j])
      ensures r.Pass? ==> sqliteConn.db == saved.WithRows(t, UpsertAll(saved.Rows(t), codec, FlattenAll(given), now))
      ensures r.Fail? ==> stop < |given| && r == StepOutcome(saved.Resolve(t, UpsertColumns), failsAt, stop)
      ensures r.Fail? ==> forall j | 0 <= j < entries.Length :: entries[j] == if j <= stop then Flattened(given[j]) else given[j]
    {
      ghost var flat := FlattenAll(given);
      stop := 0;
      while stop < entries.Length
        invariant 0 <= stop <= entries.Length
        invariant sqliteConn.db.Valid() && sqliteConn.isOpen
        invariant forall j | 0 <= j < entries.Length :: entries[j] == if j < stop then Flattened(given[j]) else given[j]
        invariant sqliteConn.db == saved.WithRows(t, UpsertAll(saved.Rows(t), codec, flat[..stop], now))
        invariant stop > 0 ==> saved.Resolve(t, UpsertColumns).Pass?
        invariant failsAt.Some? ==> stop <= failsAt.value
      {
        r := FlattenAndUpsertAt(entries, t, now, failsAt, stop, given, saved);
        if r.Fail? {
          return;
        }
        stop := stop + 1;
      }
      assert flat[..stop] == flat;
      r := Pass;
    }

    /**
     * One step of `FlattenAndUpsert`: zero the height of entry `i` in place,
     * then upsert it. `given` is the batch as passed in and `saved` the file
     * before the batch.
     */
    method FlattenAndUpsertAt(entries: array<DbChunk>, t: ChunkTable, now: int, failsAt: Option<nat>, i: nat, ghost given: seq<DbChunk>, ghost saved: Db)
      returns (r: Outcome<DbError>)
      requires Valid() && sqliteConn.isOpen && i < entries.Length == |given|
      requires forall j | 0 <= j < entries.Length :: entries[j] == if j < i then Flattened(given[j]) else given[j]
      requires sqliteConn.db == saved.WithRows(t, UpsertAll(saved.Rows(t), codec, FlattenAll(given)[..i], now))
      modifies sqliteConn, entries
      ensures Valid() && sqliteConn.isOpen
      ensures forall j | 0 <= j < entries.Length :: entries[j] == if j <= i then Flattened(given[j]) else given[j]
      ensures r == StepOutcome(saved.Resolve(t, UpsertColumns), failsAt, i)
      ensures r.Pass? ==> sqliteConn.db == saved.WithRows(t, UpsertAll(saved.Rows(t), codec, FlattenAll(given)[..i + 1], now))
      ensures r.Fail? ==> sqliteConn.db == old(sqliteConn.db)
    {
      ghost var flat := FlattenAll(given);
      entries[i] := Flattened(entries[i]);
      UpsertStep(saved.Rows(t), codec, flat, now, i);
      WithRowsTwice(saved, t, UpsertAll(saved.Rows(t), codec, flat[..i], now), UpsertAll(saved.Rows(t), codec, flat[..i + 1], now));
      r := sqliteConn.ExecuteNonQuery(InsertOrReplaceChunk(t, Key(codec, entries[i]), entries[i].data), now, failsAt == Some(i));
    }

    /**
     * `StoreGameData`: inside a transaction, `INSERT OR REPLACE` the row with
     * `savegameid` 1. The statement names no `last_updated`, so the new row
     * holds the column's default, not `now`.
     */
    method StoreGameData(data: Blob, fault: bool) returns (r: Outcome<DbError>)
      requires Valid()
      modifies sqliteConn
      ensures Valid() && sqliteConn.isOpen == old(sqliteConn.isOpen)
      ensures r == (if !old(sqliteConn.isOpen) then Fail(ConnectionClosed)
                    else if old(sqliteConn.db).Resolve(GameData, {SavegameIdColumn, DataColumn}).Pass? && fault then Fail(EngineFault)
                    else old(sqliteConn.db).Resolve(GameData, {SavegameIdColumn, DataColumn}))
      ensures r.Pass? ==> sqliteConn.db == old(sqliteConn.db).(gamedata := old(sqliteConn.db).gamedata[1 := Row(Some(data), old(sqliteConn.db).StampDefault(GameData))])
      ensures r.Fail? ==> sqliteConn.db == old(sqliteConn.db)
    {
      if !sqliteConn.isOpen {
        return Fail(ConnectionClosed);
      }
      var saved := sqliteConn.db;
      r := sqliteConn.ExecuteNonQuery(InsertOrReplaceGameData(1, Some(data)), 0, fault);
      if r.Fail? {
        sqliteConn.Rollback(saved);
      }
    }

    /**
     * `SELECT data FROM gamedata LIMIT 1`, with every exception caught: the
     * data of some row, or null when the read throws or the table is empty.
     */
    method GetGameData() returns (r: Option<Blob>)
      ensures !sqliteConn.isOpen || sqliteConn.db.Resolve(GameData, {DataColumn}).Fail? ==> r == None
      ensures (forall id :: id !in sqliteConn.db.gamedata) ==> r == None
      ensures sqliteConn.isOpen && sqliteConn.db.Resolve(GameData, {DataColumn}).Pass? && (exists id :: id in sqliteConn.db.gamedata) ==>
        exists id | id in sqliteConn.db.gamedata :: r == sqliteConn.db.gamedata[id].data
    {
      if !sqliteConn.isOpen || sqliteConn.db.Resolve(GameData, {DataColumn}).Fail? {
        return None;
      }
      var rows := sqliteConn.db.gamedata;
      if id :| id in rows {
        return rows[id].data;
      }
      return None;
    }

    /** `SELECT name FROM sqlite_master WHERE type = 'table' AND name = 'gamedata'` finds a row. */
    method QuickCorrectSaveGameVersionTest() returns (r: Result<bool, DbError>)
      ensures !sqliteConn.isOpen ==> r == Failure(ConnectionClosed)
      ensures sqliteConn.isOpen ==> r == Success(GameData in sqliteConn.db.schema)
    {
      if !sqliteConn.isOpen {
        return Failure(ConnectionClosed);
      }
      return Success(GameData in sqliteConn.db.schema);
    }

    method UpgradeToWriteAccess(failsAt: Option<DdlStep>) returns (r: Outcome<DbError>)
      requires Valid()
      modifies sqliteConn
      ensures Valid() && sqliteConn.isOpen == old(sqliteConn.isOpen)
      ensures !old(sqliteConn.isOpen) ==> r == Fail(ConnectionClosed) && sqliteConn.db == old(sqliteConn.db)
      ensures old(sqliteConn.isOpen) ==> Progress(sqliteConn.db, r) == CreateTables(old(sqliteConn.db), failsAt)
    {
      r := CreateTablesIfNotExists(sqliteConn, failsAt);
    }

    /**
     * `CreateTablesIfNotExists`: the five tables with a nullable
     * `last_updated`, the `index_playeruid` index, then the migration loop.
     * Each statement runs and commits on its own; the first that throws,
     * including the one the engine fails (`failsAt`), ends the call.
     */
    method CreateTablesIfNotExists(conn: SqliteConnection, failsAt: Option<DdlStep>) returns (r: Outcome<DbError>)
      requires conn.db.Valid()
      modifies conn
      ensures conn.db.Valid() && conn.isOpen == old(conn.isOpen)
      ensures !old(conn.isOpen) ==> r == Fail(ConnectionClosed) && conn.db == old(conn.db)
      ensures old(conn.isOpen) ==> Progress(conn.db, r) == CreateTables(old(conn.db), failsAt)
    {
      ghost var p := Progress(conn.db, Pass);
      r := conn.ExecuteDdl(CreateTableIfNotExists(Chunk, Declared(Chunk)), failsAt == Some(CreateStep(Chunk)));
      p := CreateTable(p, Chunk, failsAt);
      if r.Fail? {
        return;
      }
      r := conn.ExecuteDdl(CreateTableIfNotExists(MapChunk, Declared(MapChunk)), failsAt == Some(CreateStep(MapChunk)));
      p := CreateTable(p, MapChunk, failsAt);
      if r.Fail? {
        return;
      }
      r := conn.ExecuteDdl(CreateTableIfNotExists(MapRegion, Declared(MapRegion)), failsAt == Some(CreateStep(MapRegion)));
      p := CreateTable(p, MapRegion, failsAt);
      if r.Fail? {
        return;
      }
      r := conn.ExecuteDdl(CreateTableIfNotExists(GameData, Declared(GameData)), failsAt == Some(CreateStep(GameData)));
      p := CreateTable(p, GameData, failsAt);
      if r.Fail? {
        return;
      }
      r := conn.ExecuteDdl(CreateTableIfNotExists(PlayerData, Declared(PlayerData)), failsAt == Some(CreateStep(PlayerData)));
      p := CreateTable(p, PlayerData, failsAt);
      if r.Fail? {
        return;
      }
      r := conn.ExecuteDdl(CreateIndexIfNotExists(PlayerUidIndex, PlayerData, PlayerUidColumn), failsAt == Some(PlayerUidIndexStep));
      p := Then(p, CreateIndexIfNotExists(PlayerUidIndex, PlayerData, PlayerUidColumn), failsAt == Some(PlayerUidIndexStep));
      if r.Fail? {
        return;
      }
      assert p == CreateStatements(old(conn.db), failsAt) == Progress(conn.db, Pass);
      r := CreateLastUpdatedColumnIfNotExistsOn(conn, failsAt);
    }

    method CreateLastUpdatedColumnIfNotExists(failsAt: Option<DdlStep>) returns (r: Outcome<DbError>)
      requires Valid()
      modifies sqliteConn
      ensures Valid() && sqliteConn.isOpen == old(sqliteConn.isOpen)
      ensures !old(sqliteConn.isOpen) ==> r == Fail(ConnectionClosed) && sqliteConn.db == old(sqliteConn.db)
      ensures old(sqliteConn.isOpen) ==>
        Progress(sqliteConn.db, r) == Migrate(old(sqliteConn.db), MigratedTables, NullableInteger, failsAt)
    {
      r := CreateLastUpdatedColumnIfNotExistsOn(sqliteConn, failsAt);
    }

    /** The migration loop of this class, which adds the column as a nullable `INTEGER`. */
    method CreateLastUpdatedColumnIfNotExistsOn(conn: SqliteConnection, failsAt: Option<DdlStep>) returns (r: Outcome<DbError>)
      requires conn.db.Valid()
      modifies conn
      ensures conn.db.Valid() && conn.isOpen == old(conn.isOpen)
      ensures !old(conn.isOpen) ==> r == Fail(ConnectionClosed) && conn.db == old(conn.db)
      ensures old(conn.isOpen) ==> Progress(conn.db, r) == Migrate(old(conn.db), MigratedTables, NullableInteger, failsAt)
    {
      r := AddLastUpdatedColumns(conn, NullableInteger, failsAt);
    }

    /** Only the refusal to overwrite the running database is modelled; `true` when a copy is made. */
    method CreateBackup(backupFilename: string) returns (copied: bool)
      ensures copied <==> backupFilename != databaseFileName
    {
      copied := databaseFileName != backupFilename;
    }

    /** Disposes both commands (leaving the fields set) and closes the connection. */
    method Close()
      modifies this, sqliteConn
      ensures setChunksCmd == Release(old(setChunksCmd)) && setMapChunksCmd == Release(old(setMapChunksCmd))
      ensures !sqliteConn.isOpen && sqliteConn.db == old(sqliteConn.db)
    {
      setChunksCmd := Release(setChunksCmd);
      setMapChunksCmd := Release(setMapChunksCmd);
      sqliteConn.Close();
    }

    method Dispose()
      modifies this, sqliteConn
      ensures setChunksCmd == Release(old(setChunksCmd)) && setMapChunksCmd == Release(old(setMapChunksCmd))
      ensures !sqliteConn.isOpen && sqliteConn.db == old(sqliteConn.db)
    {
      setChunksCmd := Release(setChunksCmd);
      setMapChunksCmd := Release(setMapChunksCmd);
      sqliteConn.Close();
    }
  }
}
