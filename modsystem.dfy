/**
 * `IncrementalWorldBackupsModSystem`: on the server it applies the patches
 * and brings the already open save file up to date, adding `last_updated`
 * (`INTEGER NOT NULL DEFAULT 0`) and its index to the four stamped tables,
 * then rebuilding the connection's prepared upserts so that they use the
 * patched text.
 */
module ModSystem {
  import opened Wrappers
  import opened Sqlite
  import opened Schema
  import opened GameDb

  /** The Harmony id the patches are applied and removed under. */
  const HarmonyId := "incrementalworldbackups"

  datatype AppSide = Server | Client | Universal

  /** The mod runs on the server side only. */
  predicate ShouldLoad(side: AppSide)
  {
    side == Server
  }

  class IncrementalWorldBackupsModSystem {
    /** `_harmony`: the id of the Harmony instance, or `None` while there is none. */
    var harmony: Option<string>
    /** Whether the patches of this mod are in effect. */
    var patched: bool

    constructor ()
      ensures harmony == None && !patched
    {
      harmony := None;
      patched := false;
    }

    /**
     * `StartServerSide`: create the Harmony instance, apply every patch,
     * then migrate the save file the game has opened.
     */
    method StartServerSide(conn: ProofOfConceptGameDbConnection, failsAt: Option<DdlStep>) returns (r: Outcome<DbError>)
      requires conn.Valid()
      modifies this, conn, conn.sqliteConn
      ensures harmony == Some(HarmonyId) && patched
      ensures conn.Valid() && conn.sqliteConn.isOpen == old(conn.sqliteConn.isOpen)
      ensures !old(conn.sqliteConn.isOpen) ==> r == Fail(ConnectionClosed) && conn.sqliteConn.db == old(conn.sqliteConn.db)
      ensures old(conn.sqliteConn.isOpen) ==>
        conn.sqliteConn.db == Migrate(old(conn.sqliteConn.db), MigratedTables, NotNullDefaultZero, failsAt).db
      ensures r.Pass? ==> conn.setChunksCmd == Some(Live) && conn.setMapChunksCmd == Some(Live)
      ensures r.Pass? ==> forall t | t in MigratedTables :: conn.sqliteConn.db.HasColumn(t, LastUpdatedColumn)
    {
      harmony := Some(HarmonyId);
      patched := true;
      r := CreateLastUpdatedColumnIfNotExists(conn, failsAt);
    }

    /** `Dispose`: remove this mod's patches through the instance, if there is one, and drop it. */
    method Dispose()
      modifies this
      ensures harmony == None
      ensures patched == (old(patched) && old(harmony).None?)
    {
      if harmony.Some? {
        patched := false;
      }
      harmony := None;
    }

    /**
     * `CreateLastUpdatedColumnIfNotExists`: the migration loop on the
     * connection's `sqliteConn`, then the connection's `OnOpened` to rebuild
     * its commands. An exception in the loop ends the call before `OnOpened`.
     */
    method CreateLastUpdatedColumnIfNotExists(conn: ProofOfConceptGameDbConnection, failsAt: Option<DdlStep>)
      returns (r: Outcome<DbError>)
      requires conn.Valid()
      modifies conn, conn.sqliteConn
      ensures conn.Valid() && conn.sqliteConn.isOpen == old(conn.sqliteConn.isOpen)
      ensures !old(conn.sqliteConn.isOpen) ==>
        && r == Fail(ConnectionClosed) && conn.sqliteConn.db == old(conn.sqliteConn.db)
        && conn.setChunksCmd == old(conn.setChunksCmd) && conn.setMapChunksCmd == old(conn.setMapChunksCmd)
      ensures old(conn.sqliteConn.isOpen) ==>
        var m := Migrate(old(conn.sqliteConn.db), MigratedTables, NotNullDefaultZero, failsAt);
        && conn.sqliteConn.db == m.db
        && (m.outcome.Fail? ==> r == m.outcome
                                && conn.setChunksCmd == old(conn.setChunksCmd) && conn.setMapChunksCmd == old(conn.setMapChunksCmd))
        && (m.outcome.Pass? ==>
              var first := PrepareOutcome(true, m.db, Chunk);
              && conn.setChunksCmd == Some(Live)
              && r == (if first.Fail? then first else PrepareOutcome(true, m.db, MapChunk))
              && conn.setMapChunksCmd == (if first.Fail? then old(conn.setMapChunksCmd) else Some(Live)))
      ensures r.Pass? ==> conn.setChunksCmd == Some(Live) && conn.setMapChunksCmd == Some(Live)
      ensures r.Pass? ==> forall t | t in MigratedTables :: conn.sqliteConn.db.HasColumn(t, LastUpdatedColumn)
    {
      ghost var before := conn.sqliteConn.db;
      r := AddLastUpdatedColumns(conn.sqliteConn, NotNullDefaultZero, failsAt);
      if r.Fail? {
        return;
      }
      MigrateSpec(before, MigratedTables, NotNullDefaultZero, failsAt);
      r := conn.OnOpened();
    }
  }
}
