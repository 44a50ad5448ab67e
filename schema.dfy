/**
 * The schema of a save file and the procedure that brings an old file up to
 * date: for each of `chunk`, `mapchunk`, `mapregion` and `playerdata`, add the
 * `last_updated` column and the index `index_<table>_last_updated` when the
 * column is missing. The migration runs outside any transaction, so a failing
 * statement leaves the tables already migrated as they are.
 */
module Schema {
  import opened Wrappers
  import opened Sqlite

  /** `last_updated INTEGER`, as this connection class declares it: nullable, no default. */
  const NullableInteger := ColumnDecl(Integer, Unconstrained)

  /** `last_updated INTEGER NOT NULL DEFAULT 0`, as the mod system and the rewritten vanilla schema declare it. */
  const NotNullDefaultZero := ColumnDecl(Integer, NotNullDefault(0))

  /** The tables the migration visits, in order; `gamedata` is not among them. */
  const MigratedTables: seq<Table> := [Chunk, MapChunk, MapRegion, PlayerData]

  /** `index_{tableName}_last_updated`. */
  function StampIndexName(t: Table): string
  {
    "index_" + t.Name() + "_last_updated"
  }

  const PlayerUidIndex := "index_playeruid"

  /** The database reached so far and whether a statement has thrown. */
  datatype Progress = Progress(db: Db, outcome: Outcome<DbError>)

  /**
   * A schema statement that the engine fails although it is sound (a full
   * disk, a locked file): one of the five `CREATE TABLE`s, the `CREATE
   * INDEX` of `index_playeruid`, or the `ALTER` or the `CREATE INDEX` of a
   * table in the migration loop. A run is given at most one, `failsAt`; the
   * first statement that throws ends the run, so one is all it can meet.
   */
  datatype DdlStep =
    | CreateStep(table: Table)
    | PlayerUidIndexStep
    | AlterStep(table: Table)
    | IndexStep(table: Table)

  /**
   * Runs `s` unless an earlier statement threw. Each statement commits on its
   * own; `fault` fails it, changing nothing, when it would have succeeded.
   */
  function Then(p: Progress, s: Ddl, fault: bool): Progress
  {
    if p.outcome.Fail? then p
    else match ExecDdl(p.db, s)
      case Failure(e) => Progress(p.db, Fail(e))
      case Success(d) => if fault then Progress(p.db, Fail(EngineFault)) else Progress(d, Pass)
  }

  /** One iteration of the migration loop for table `t`. */
  function MigrateTable(db: Db, t: Table, decl: ColumnDecl, failsAt: Option<DdlStep>): Progress
  {
    if db.HasColumn(t, LastUpdatedColumn) then Progress(db, Pass)
    else
      Then(Then(Progress(db, Pass), AlterTableAddColumn(t, LastUpdatedColumn, decl), failsAt == Some(AlterStep(t))),
           CreateIndexIfNotExists(StampIndexName(t), t, LastUpdatedColumn), failsAt == Some(IndexStep(t)))
  }

  /** The migration loop over `ts`, stopping at the first statement that throws. */
  function Migrate(db: Db, ts: seq<Table>, decl: ColumnDecl, failsAt: Option<DdlStep>): Progress
    decreases |ts|
  {
    if ts == [] then Progress(db, Pass)
    else
      var p := Migrate(db, ts[..|ts| - 1], decl, failsAt);
      if p.outcome.Fail? then p else MigrateTable(p.db, ts[|ts| - 1], decl, failsAt)
  }

  /** The rows of `t` are the same in `a` and `b`. */
  predicate SameRows(a: Db, b: Db, t: Table)
  {
    match t
    case GameData => b.gamedata == a.gamedata
    case PlayerData => b.playerdata == a.playerdata
    case _ => b.Rows(t) == a.Rows(t)
  }

  /** `b` holds exactly `a`'s rows of `t`, each with `last_updated` set to `s`. */
  predicate RestampedRows(a: Db, b: Db, t: Table, s: Stamp)
  {
    match t
    case GameData => b.gamedata == Restamp(a.gamedata, s)
    case PlayerData => b.playerdata == RestampPlayers(a.playerdata, s)
    case _ => b.Rows(t) == Restamp(a.Rows(t), s)
  }

  /** Migrating `ts` must add the column to `t`: `t` is visited, exists and lacks `last_updated`. */
  predicate NeedsColumn(a: Db, t: Table, ts: seq<Table>)
  {
    t in ts && t in a.schema && !a.HasColumn(t, LastUpdatedColumn)
  }

  /**
   * Table `t` of `b` is table `t` of `a`, given the column `decl` when
   * `added`, and otherwise unchanged in schema and rows.
   */
  predicate TableMigrated(a: Db, b: Db, t: Table, added: bool, decl: ColumnDecl)
  {
    && (t in b.schema <==> t in a.schema)
    && if added then
         t in a.schema && b.schema[t] == a.schema[t][LastUpdatedColumn := decl] && RestampedRows(a, b, t, decl.Default())
       else
         (t in a.schema ==> b.schema[t] == a.schema[t]) && SameRows(a, b, t)
  }

  /**
   * `b` is `a` migrated over `ts`: each table that needed the column has
   * gained it (declared as `decl`), its rows read the column's default and its
   * index exists; every other table, schema and rows, is as it was.
   */
  ghost predicate MigratedFrom(a: Db, b: Db, ts: seq<Table>, decl: ColumnDecl)
  {
    && b.playerSeq == a.playerSeq
    && b.indexes == a.indexes + (set t | t in ts && NeedsColumn(a, t, ts) :: StampIndexName(t))
    && (forall t: Table :: TableMigrated(a, b, t, NeedsColumn(a, t, ts), decl))
  }

  lemma StampIndexNameInjective(t: Table, u: Table)
    ensures StampIndexName(t) == StampIndexName(u) ==> t == u
  {
    if StampIndexName(t) == StampIndexName(u) {
      assert StampIndexName(t)[6] == StampIndexName(u)[6];
      assert |StampIndexName(t)| == |StampIndexName(u)|;
    }
  }

  lemma MigratedFromSelf(a: Db, decl: ColumnDecl)
    ensures MigratedFrom(a, a, [], decl)
  {
    assert (set t | t in [] && NeedsColumn(a, t, []) :: StampIndexName(t)) == {};
  }

  lemma AddColumnRows(b: Db, t: Table, u: Table, decl: ColumnDecl)
    requires t in b.schema
    ensures u == t ==> RestampedRows(b, AddColumn(b, t, LastUpdatedColumn, decl), u, decl.Default())
    ensures u != t ==> SameRows(b, AddColumn(b, t, LastUpdatedColumn, decl), u)
  {
  }

  /** Whether the loop iteration for `t` on `b` adds the column to table `u`. */
  predicate AddsTo(b: Db, t: Table, u: Table)
  {
    u == t && !b.HasColumn(t, LastUpdatedColumn)
  }

  /** One iteration of the loop touches only its own table. */
  lemma MigrateTableEffect(b: Db, t: Table, decl: ColumnDecl, failsAt: Option<DdlStep>)
    requires MigrateTable(b, t, decl, failsAt).outcome.Pass?
    ensures var c := MigrateTable(b, t, decl, failsAt).db;
      && c.playerSeq == b.playerSeq
      && c.indexes == b.indexes + (if b.HasColumn(t, LastUpdatedColumn) then {} else {StampIndexName(t)})
      && forall u: Table :: TableMigrated(b, c, u, AddsTo(b, t, u), decl)
  {
    var c := MigrateTable(b, t, decl, failsAt).db;
    if !b.HasColumn(t, LastUpdatedColumn) {
      assert t in b.schema;
      var d := AddColumn(b, t, LastUpdatedColumn, decl);
      assert c == d.(indexes := b.indexes + {StampIndexName(t)});
      forall u: Table
        ensures TableMigrated(b, c, u, AddsTo(b, t, u), decl)
      {
        AddColumnRows(b, t, u, decl);
      }
    }
  }

  lemma TableMigratedCompose(a: Db, b: Db, c: Db, u: Table, n1: bool, n2: bool, decl: ColumnDecl)
    requires TableMigrated(a, b, u, n1, decl) && TableMigrated(b, c, u, n2, decl)
    requires n1 ==> !n2
    ensures TableMigrated(a, c, u, n1 || n2, decl)
  {
  }

  /** The step lemma for one table `u`. */
  lemma MigrateTableStepAt(a: Db, b: Db, c: Db, ts: seq<Table>, t: Table, u: Table, decl: ColumnDecl)
    requires TableMigrated(a, b, u, NeedsColumn(a, u, ts), decl)
    requires TableMigrated(b, c, u, AddsTo(b, t, u), decl)
    requires TableMigrated(a, b, t, NeedsColumn(a, t, ts), decl)
    requires AddsTo(b, t, t) ==> t in b.schema
    ensures NeedsColumn(a, u, ts + [t]) == (NeedsColumn(a, u, ts) || AddsTo(b, t, u))
    ensures TableMigrated(a, c, u, NeedsColumn(a, u, ts + [t]), decl)
  {
    assert u in ts + [t] <==> u in ts || u == t;
    TableMigratedCompose(a, b, c, u, NeedsColumn(a, u, ts), AddsTo(b, t, u), decl);
  }

  /** The stamp indexes grow by the one of `t` exactly when the iteration for `t` adds the column. */
  lemma StampIndexesStep(a: Db, b: Db, ts: seq<Table>, t: Table)
    requires forall u: Table :: NeedsColumn(a, u, ts + [t]) == (NeedsColumn(a, u, ts) || AddsTo(b, t, u))
    ensures (set u | u in ts + [t] && NeedsColumn(a, u, ts + [t]) :: StampIndexName(u))
         == (set u | u in ts && NeedsColumn(a, u, ts) :: StampIndexName(u))
            + (if AddsTo(b, t, t) then {StampIndexName(t)} else {})
  {
  }

  /** One more loop iteration keeps the characterisation. */
  lemma MigrateTableStep(a: Db, b: Db, ts: seq<Table>, t: Table, decl: ColumnDecl, failsAt: Option<DdlStep>)
    requires MigratedFrom(a, b, ts, decl)
    requires MigrateTable(b, t, decl, failsAt).outcome.Pass?
    ensures MigratedFrom(a, MigrateTable(b, t, decl, failsAt).db, ts + [t], decl)
  {
    var c := MigrateTable(b, t, decl, failsAt).db;
    MigrateTableEffect(b, t, decl, failsAt);
    assert TableMigrated(a, b, t, NeedsColumn(a, t, ts), decl);
    assert AddsTo(b, t, t) ==> t in b.schema;
    forall u: Table
      ensures NeedsColumn(a, u, ts + [t]) == (NeedsColumn(a, u, ts) || AddsTo(b, t, u))
      ensures TableMigrated(a, c, u, NeedsColumn(a, u, ts + [t]), decl)
    {
      MigrateTableStepAt(a, b, c, ts, t, u, decl);
    }
    StampIndexesStep(a, b, ts, t);
  }

  /**
   * A migration that does not throw adds the column exactly where it was
   * missing, leaves every other table unchanged, and ends with the column on
   * every visited table.
   */
  lemma {:induction false} MigrateSpec(db: Db, ts: seq<Table>, decl: ColumnDecl, failsAt: Option<DdlStep>)
    requires Migrate(db, ts, decl, failsAt).outcome.Pass?
    ensures MigratedFrom(db, Migrate(db, ts, decl, failsAt).db, ts, decl)
    ensures forall t | t in ts :: Migrate(db, ts, decl, failsAt).db.HasColumn(t, LastUpdatedColumn)
    decreases |ts|
  {
    if ts == [] {
      MigratedFromSelf(db, decl);
    } else {
      var init, t := ts[..|ts| - 1], ts[|ts| - 1];
      assert ts == init + [t];
      var p := Migrate(db, init, decl, failsAt);
      MigrateSpec(db, init, decl, failsAt);
      MigrateTableStep(db, p.db, init, t, decl, failsAt);
      MigrateTableEffect(p.db, t, decl, failsAt);
      var c := MigrateTable(p.db, t, decl, failsAt).db;
      forall u | u in ts
        ensures c.HasColumn(u, LastUpdatedColumn)
      {
        assert TableMigrated(p.db, c, u, AddsTo(p.db, t, u), decl);
        if u != t {
          assert u in init && p.db.HasColumn(u, LastUpdatedColumn);
        }
      }
    }
  }

  /**
   * After a migration that does not throw, the stamp index of `t` exists
   * where it did not before exactly when `t` needed the column: since each
   * table's index has its own name, no other table's iteration creates it.
   */
  lemma StampIndexCreatedIff(db: Db, ts: seq<Table>, decl: ColumnDecl, failsAt: Option<DdlStep>, t: Table)
    requires Migrate(db, ts, decl, failsAt).outcome.Pass?
    requires StampIndexName(t) !in db.indexes
    ensures StampIndexName(t) in Migrate(db, ts, decl, failsAt).db.indexes <==> NeedsColumn(db, t, ts)
  {
    MigrateSpec(db, ts, decl, failsAt);
    var added := set u | u in ts && NeedsColumn(db, u, ts) :: StampIndexName(u);
    if StampIndexName(t) in added {
      var u :| u in ts && NeedsColumn(db, u, ts) && StampIndexName(u) == StampIndexName(t);
      StampIndexNameInjective(t, u);
    }
  }

  /**
   * When every visited table exists, the migration does not throw unless
   * the engine fails one of its statements.
   */
  lemma {:induction false} MigrateSucceeds(db: Db, ts: seq<Table>, decl: ColumnDecl, failsAt: Option<DdlStep>)
    requires forall t | t in ts :: t in db.schema
    ensures Migrate(db, ts, decl, None).outcome.Pass?
    ensures Migrate(db, ts, decl, failsAt).outcome.Fail? ==> Migrate(db, ts, decl, failsAt).outcome == Fail(EngineFault)
    decreases |ts|
  {
    if ts != [] {
      var init, t := ts[..|ts| - 1], ts[|ts| - 1];
      MigrateSucceeds(db, init, decl, failsAt);
      var p := Migrate(db, init, decl, None);
      MigrateKeepsTables(db, init, decl, None);
      MigrateTableSucceeds(p.db, t, decl, failsAt);
      MigrateFaultOnlyFails(db, init, decl, failsAt);
    }
  }

  /** An iteration on a table that exists throws only when the engine fails one of its statements. */
  lemma MigrateTableSucceeds(b: Db, t: Table, decl: ColumnDecl, failsAt: Option<DdlStep>)
    requires t in b.schema
    ensures MigrateTable(b, t, decl, None).outcome.Pass?
    ensures MigrateTable(b, t, decl, failsAt).outcome.Fail? ==> MigrateTable(b, t, decl, failsAt).outcome == Fail(EngineFault)
  {
    if !b.HasColumn(t, LastUpdatedColumn) {
      var d := AddColumn(b, t, LastUpdatedColumn, decl);
      assert ExecDdl(b, AlterTableAddColumn(t, LastUpdatedColumn, decl)) == Success(d);
      assert d.HasColumn(t, LastUpdatedColumn);
    }
  }

  /** A loop that does not throw keeps every table. */
  lemma MigrateKeepsTables(db: Db, ts: seq<Table>, decl: ColumnDecl, failsAt: Option<DdlStep>)
    requires Migrate(db, ts, decl, failsAt).outcome.Pass?
    ensures db.schema.Keys <= Migrate(db, ts, decl, failsAt).db.schema.Keys
  {
    var b := Migrate(db, ts, decl, failsAt).db;
    MigrateSpec(db, ts, decl, failsAt);
    forall u | u in db.schema
      ensures u in b.schema
    {
      assert TableMigrated(db, b, u, NeedsColumn(db, u, ts), decl);
    }
  }

  /**
   * An engine fault can only end the loop early: a run that passes is the
   * run without the fault, and a run that throws anything but `EngineFault`
   * is too.
   */
  lemma {:induction false} MigrateFaultOnlyFails(db: Db, ts: seq<Table>, decl: ColumnDecl, failsAt: Option<DdlStep>)
    ensures var m := Migrate(db, ts, decl, failsAt);
      m.outcome != Fail(EngineFault) ==> m == Migrate(db, ts, decl, None)
    decreases |ts|
  {
    if ts != [] {
      MigrateFaultOnlyFails(db, ts[..|ts| - 1], decl, failsAt);
    }
  }

  /** A migration over tables that all carry the column changes nothing, whatever the engine does. */
  lemma {:induction false} MigrateNoop(db: Db, ts: seq<Table>, decl: ColumnDecl, failsAt: Option<DdlStep>)
    requires forall t | t in ts :: db.HasColumn(t, LastUpdatedColumn)
    ensures Migrate(db, ts, decl, failsAt) == Progress(db, Pass)
    decreases |ts|
  {
    if ts != [] {
      MigrateNoop(db, ts[..|ts| - 1], decl, failsAt);
    }
  }

  /** Running the migration a second time yields the same schema, indexes and rows. */
  lemma MigrateIdempotent(db: Db, ts: seq<Table>, decl: ColumnDecl, failsAt: Option<DdlStep>, again: Option<DdlStep>)
    requires Migrate(db, ts, decl, failsAt).outcome.Pass?
    ensures Migrate(Migrate(db, ts, decl, failsAt).db, ts, decl, again) == Migrate(db, ts, decl, failsAt)
  {
    MigrateSpec(db, ts, decl, failsAt);
    MigrateNoop(Migrate(db, ts, decl, failsAt).db, ts, decl, again);
  }

  /** The iteration for `t` when the engine fails its `CREATE INDEX`: the `ALTER` stays committed. */
  lemma IndexFaultStep(b: Db, t: Table, decl: ColumnDecl)
    requires t in b.schema && !b.HasColumn(t, LastUpdatedColumn) && StampIndexName(t) !in b.indexes
    ensures var m := MigrateTable(b, t, decl, Some(IndexStep(t)));
      && m.outcome == Fail(EngineFault)
      && m.db.HasColumn(t, LastUpdatedColumn) && StampIndexName(t) !in m.db.indexes
      && m.db.schema.Keys == b.schema.Keys
  {
    var d := AddColumn(b, t, LastUpdatedColumn, decl);
    assert Then(Progress(b, Pass), AlterTableAddColumn(t, LastUpdatedColumn, decl), false) == Progress(d, Pass);
  }

  /** Before the first visit of `t`, the migration has not touched `t`'s column or index, and keeps every table. */
  lemma UntouchedBefore(db: Db, init: seq<Table>, decl: ColumnDecl, t: Table)
    requires Migrate(db, init, decl, None).outcome.Pass? && t !in init
    requires t in db.schema && !db.HasColumn(t, LastUpdatedColumn) && StampIndexName(t) !in db.indexes
    ensures var b := Migrate(db, init, decl, None).db;
      && t in b.schema && !b.HasColumn(t, LastUpdatedColumn) && StampIndexName(t) !in b.indexes
      && db.schema.Keys <= b.schema.Keys
  {
    var b := Migrate(db, init, decl, None).db;
    MigrateSpec(db, init, decl, None);
    assert TableMigrated(db, b, t, NeedsColumn(db, t, init), decl);
    StampIndexCreatedIff(db, init, decl, None, t);
    MigrateKeepsTables(db, init, decl, None);
  }

  /** A fault on another table's statement does not affect the iteration for `u`. */
  lemma FaultElsewhere(b: Db, u: Table, decl: ColumnDecl, failsAt: Option<DdlStep>)
    requires failsAt != Some(AlterStep(u)) && failsAt != Some(IndexStep(u))
    ensures MigrateTable(b, u, decl, failsAt) == MigrateTable(b, u, decl, None)
  {
  }

  /** A run whose engine fails the `CREATE INDEX` of `t`, on a file where `t` still needs the column. */
  lemma {:induction false} IndexFaultRun(db: Db, ts: seq<Table>, decl: ColumnDecl, t: Table)
    requires forall u | u in ts :: u in db.schema
    requires t in db.schema && !db.HasColumn(t, LastUpdatedColumn) && StampIndexName(t) !in db.indexes
    ensures var m := Migrate(db, ts, decl, Some(IndexStep(t)));
      && (t !in ts ==> m == Migrate(db, ts, decl, None) && m.outcome.Pass?)
      && (t in ts ==>
            && m.outcome == Fail(EngineFault)
            && m.db.HasColumn(t, LastUpdatedColumn) && StampIndexName(t) !in m.db.indexes
            && db.schema.Keys <= m.db.schema.Keys)
    decreases |ts|
  {
    if ts != [] {
      var init, last := ts[..|ts| - 1], ts[|ts| - 1];
      assert ts == init + [last];
      IndexFaultRun(db, init, decl, t);
      if t !in init {
        MigrateSucceeds(db, ts, decl, None);
        var b := Migrate(db, init, decl, None).db;
        if last == t {
          UntouchedBefore(db, init, decl, t);
          IndexFaultStep(b, t, decl);
        } else {
          FaultElsewhere(b, last, decl, Some(IndexStep(t)));
        }
      }
    }
  }

  /**
   * The loop decides by the column alone. When the engine fails the
   * `CREATE INDEX` of a table whose `ALTER` has already committed, the run
   * throws and the file keeps the column without its index. A later run sees
   * the column, skips the table, succeeds, and still has no index.
   */
  lemma IndexFaultNotRepaired(db: Db, ts: seq<Table>, decl: ColumnDecl, t: Table)
    requires forall u | u in ts :: u in db.schema
    requires t in ts && !db.HasColumn(t, LastUpdatedColumn) && StampIndexName(t) !in db.indexes
    ensures var m := Migrate(db, ts, decl, Some(IndexStep(t)));
      && m.outcome == Fail(EngineFault)
      && m.db.HasColumn(t, LastUpdatedColumn) && StampIndexName(t) !in m.db.indexes
      && Migrate(m.db, ts, decl, None).outcome.Pass?
      && StampIndexName(t) !in Migrate(m.db, ts, decl, None).db.indexes
  {
    IndexFaultRun(db, ts, decl, t);
    var m := Migrate(db, ts, decl, Some(IndexStep(t)));
    MigrateSucceeds(m.db, ts, decl, None);
    StampIndexCreatedIff(m.db, ts, decl, None, t);
  }

  /** Every table of a save file. */
  const AllTables: set<Table> := {Chunk, MapChunk, MapRegion, GameData, PlayerData}

  const ChunkColumns: Columns := map[
    PositionColumn := ColumnDecl(Integer, PrimaryKey),
    DataColumn := ColumnDecl(BlobType, Unconstrained),
    LastUpdatedColumn := NullableInteger]

  const GameDataColumns: Columns := map[
    SavegameIdColumn := ColumnDecl(Integer, PrimaryKey),
    DataColumn := ColumnDecl(BlobType, Unconstrained),
    LastUpdatedColumn := NullableInteger]

  const PlayerDataColumns: Columns := map[
    PlayerIdColumn := ColumnDecl(Integer, PrimaryKeyAutoincrement),
    PlayerUidColumn := ColumnDecl(Text, Unconstrained),
    DataColumn := ColumnDecl(BlobType, Unconstrained),
    LastUpdatedColumn := NullableInteger]

  /** The columns this connection class's CREATE TABLE statement gives `t`. */
  function Declared(t: Table): Columns
  {
    match t
    case GameData => GameDataColumns
    case PlayerData => PlayerDataColumns
    case _ => ChunkColumns
  }

  /** `CREATE TABLE IF NOT EXISTS t (...)` with the columns this connection class declares. */
  function CreateTable(p: Progress, t: Table, failsAt: Option<DdlStep>): Progress
  {
    Then(p, CreateTableIfNotExists(t, Declared(t)), failsAt == Some(CreateStep(t)))
  }

  /** The five CREATE TABLE IF NOT EXISTS statements, in the order the source issues them. */
  function CreateFive(db: Db, failsAt: Option<DdlStep>): Progress
  {
    CreateTable(CreateTable(CreateTable(CreateTable(CreateTable(Progress(db, Pass),
      Chunk, failsAt), MapChunk, failsAt), MapRegion, failsAt), GameData, failsAt), PlayerData, failsAt)
  }

  /** The five CREATE TABLE IF NOT EXISTS and the CREATE INDEX of `index_playeruid`. */
  function CreateStatements(db: Db, failsAt: Option<DdlStep>): Progress
  {
    Then(CreateFive(db, failsAt), CreateIndexIfNotExists(PlayerUidIndex, PlayerData, PlayerUidColumn),
         failsAt == Some(PlayerUidIndexStep))
  }

  /**
   * `CreateTablesIfNotExists`: the five CREATE TABLE IF NOT EXISTS, the
   * `index_playeruid` index, then the migration loop with the nullable column.
   */
  function CreateTables(db: Db, failsAt: Option<DdlStep>): Progress
  {
    var p := CreateStatements(db, failsAt);
    if p.outcome.Fail? then p else Migrate(p.db, MigratedTables, NullableInteger, failsAt)
  }

  /** The engine fails one of the six statements that precede the migration loop. */
  predicate FailsBeforeLoop(failsAt: Option<DdlStep>)
  {
    failsAt.Some? && (failsAt.value.CreateStep? || failsAt.value.PlayerUidIndexStep?)
  }

  lemma AllTablesCover(t: Table)
    ensures t in AllTables
  {
    match t
    case Chunk =>
    case MapChunk =>
    case MapRegion =>
    case GameData =>
    case PlayerData =>
  }

  /** The schema once every missing table has been created with its declared columns. */
  function Completed(schema: map<Table, Columns>): (r: map<Table, Columns>)
    ensures forall t: Table :: t in r && r[t] == if t in schema then schema[t] else Declared(t)
  {
    var r := map t | t in AllTables :: if t in schema then schema[t] else Declared(t);
    assert forall t: Table :: t in r by {
      forall t: Table ensures t in r { AllTablesCover(t); }
    }
    r
  }

  /** `CREATE TABLE IF NOT EXISTS` adds `t` with its declared columns only when it is missing. */
  function CreateMissing(schema: map<Table, Columns>, t: Table): map<Table, Columns>
  {
    if t in schema then schema else schema[t := Declared(t)]
  }

  lemma CreateMissingAt(schema: map<Table, Columns>, t: Table, u: Table)
    ensures u in CreateMissing(schema, t) <==> u in schema || u == t
    ensures u in CreateMissing(schema, t) ==>
      CreateMissing(schema, t)[u] == if u in schema then schema[u] else Declared(u)
  {
  }

  lemma CompletedByCreates(schema: map<Table, Columns>)
    ensures CreateMissing(CreateMissing(CreateMissing(CreateMissing(CreateMissing(schema,
      Chunk), MapChunk), MapRegion), GameData), PlayerData) == Completed(schema)
  {
    var s1 := CreateMissing(schema, Chunk);
    var s2 := CreateMissing(s1, MapChunk);
    var s3 := CreateMissing(s2, MapRegion);
    var s4 := CreateMissing(s3, GameData);
    var s5 := CreateMissing(s4, PlayerData);
    forall t: Table
      ensures t in s5 && s5[t] == Completed(schema)[t]
    {
      CreateMissingAt(schema, Chunk, t);
      CreateMissingAt(s1, MapChunk, t);
      CreateMissingAt(s2, MapRegion, t);
      CreateMissingAt(s3, GameData, t);
      CreateMissingAt(s4, PlayerData, t);
      AllTablesCover(t);
    }
  }

  lemma ThenCreate(p: Progress, t: Table, failsAt: Option<DdlStep>)
    ensures CreateTable(p, t, failsAt)
         == if p.outcome.Fail? then p
            else if failsAt == Some(CreateStep(t)) then Progress(p.db, Fail(EngineFault))
            else Progress(p.db.(schema := CreateMissing(p.db.schema, t)), Pass)
  {
  }

  /**
   * The five CREATE TABLE IF NOT EXISTS statements create exactly the
   * missing tables, unless the engine fails one of them.
   */
  lemma CreateFiveTables(db: Db, failsAt: Option<DdlStep>)
    ensures failsAt.Some? && failsAt.value.CreateStep? ==> CreateFive(db, failsAt).outcome == Fail(EngineFault)
    ensures !(failsAt.Some? && failsAt.value.CreateStep?) ==>
      CreateFive(db, failsAt) == Progress(db.(schema := Completed(db.schema)), Pass)
  {
    var p0 := Progress(db, Pass);
    var p1 := CreateTable(p0, Chunk, failsAt);
    ThenCreate(p0, Chunk, failsAt);
    var p2 := CreateTable(p1, MapChunk, failsAt);
    ThenCreate(p1, MapChunk, failsAt);
    var p3 := CreateTable(p2, MapRegion, failsAt);
    ThenCreate(p2, MapRegion, failsAt);
    var p4 := CreateTable(p3, GameData, failsAt);
    ThenCreate(p3, GameData, failsAt);
    ThenCreate(p4, PlayerData, failsAt);
    if failsAt.Some? && failsAt.value.CreateStep? {
      AllTablesCover(failsAt.value.table);
    } else {
      CompletedByCreates(db.schema);
    }
  }

  /** The state after the six statements that precede the migration loop. */
  lemma CreateStatementsEffect(db: Db, failsAt: Option<DdlStep>)
    ensures var p := CreateStatements(db, failsAt);
      var d := db.(schema := Completed(db.schema));
      var indexable := PlayerUidIndex in db.indexes || PlayerUidColumn in d.schema[PlayerData];
      && (p.outcome.Pass? <==> indexable && !FailsBeforeLoop(failsAt))
      && (p.outcome.Pass? ==> p.db == d.(indexes := db.indexes + {PlayerUidIndex}))
      && (p.outcome.Fail? && indexable ==> p.outcome == Fail(EngineFault))
  {
    CreateFiveTables(db, failsAt);
    var d := db.(schema := Completed(db.schema));
    var five := CreateFive(db, failsAt);
    var index := CreateIndexIfNotExists(PlayerUidIndex, PlayerData, PlayerUidColumn);
    assert CreateStatements(db, failsAt) == Then(five, index, failsAt == Some(PlayerUidIndexStep));
    if five.outcome.Pass? {
      PlayerUidIndexEffect(d, failsAt == Some(PlayerUidIndexStep));
    }
  }

  /** The `CREATE INDEX IF NOT EXISTS index_playeruid` once `playerdata` exists. */
  lemma PlayerUidIndexEffect(d: Db, fault: bool)
    requires PlayerData in d.schema
    ensures var p := Then(Progress(d, Pass), CreateIndexIfNotExists(PlayerUidIndex, PlayerData, PlayerUidColumn), fault);
      var indexable := PlayerUidIndex in d.indexes || PlayerUidColumn in d.schema[PlayerData];
      && (p.outcome.Pass? <==> indexable && !fault)
      && (p.outcome.Pass? ==> p.db == d.(indexes := d.indexes + {PlayerUidIndex}))
      && (p.outcome.Fail? && indexable ==> p.outcome == Fail(EngineFault))
  {
    if PlayerUidIndex in d.indexes {
      assert d.(indexes := d.indexes + {PlayerUidIndex}) == d;
    }
  }

  /** On a file that has every table and `index_playeruid`, the six statements change nothing, even when one fails. */
  lemma CreateStatementsKeep(db: Db, failsAt: Option<DdlStep>)
    requires forall t: Table :: t in db.schema
    requires PlayerUidIndex in db.indexes
    ensures CreateStatements(db, failsAt).db == db
  {
    var p0 := Progress(db, Pass);
    var p1 := CreateTable(p0, Chunk, failsAt);
    ThenCreate(p0, Chunk, failsAt);
    var p2 := CreateTable(p1, MapChunk, failsAt);
    ThenCreate(p1, MapChunk, failsAt);
    var p3 := CreateTable(p2, MapRegion, failsAt);
    ThenCreate(p2, MapRegion, failsAt);
    var p4 := CreateTable(p3, GameData, failsAt);
    ThenCreate(p3, GameData, failsAt);
    ThenCreate(p4, PlayerData, failsAt);
  }

  /** The state the migration loop of `CreateTablesIfNotExists` starts from. */
  function Created(db: Db): Db
  {
    db.(schema := Completed(db.schema), indexes := db.indexes + {PlayerUidIndex})
  }

  /**
   * Without an engine fault, `CreateTablesIfNotExists` throws exactly when an
   * old `playerdata` lacks `playeruid` and its index is missing; otherwise
   * only an engine fault makes it throw.
   */
  lemma CreateTablesPasses(db: Db, failsAt: Option<DdlStep>)
    ensures CreateTables(db, None).outcome.Pass? <==>
      (PlayerData in db.schema && PlayerUidIndex !in db.indexes ==> PlayerUidColumn in db.schema[PlayerData])
    ensures (PlayerData in db.schema && PlayerUidIndex !in db.indexes ==> PlayerUidColumn in db.schema[PlayerData]) ==>
      (CreateTables(db, failsAt).outcome.Fail? ==> CreateTables(db, failsAt).outcome == Fail(EngineFault))
    ensures CreateTables(db, failsAt).outcome.Pass? ==>
      && CreateStatements(db, failsAt) == Progress(Created(db), Pass)
      && CreateTables(db, failsAt) == Migrate(Created(db), MigratedTables, NullableInteger, failsAt)
  {
    CreateStatementsEffect(db, None);
    CreateStatementsEffect(db, failsAt);
    if PlayerData in db.schema && PlayerUidIndex !in db.indexes ==> PlayerUidColumn in db.schema[PlayerData] {
      MigrateSucceeds(Created(db), MigratedTables, NullableInteger, failsAt);
    }
    if CreateTables(db, failsAt).outcome.Pass? {
      CreateTablesThenMigrate(db, failsAt);
    }
  }

  /** A call that succeeds is the six statements, reaching `Created(db)`, followed by the loop. */
  lemma CreateTablesThenMigrate(db: Db, failsAt: Option<DdlStep>)
    requires CreateTables(db, failsAt).outcome.Pass?
    ensures CreateStatements(db, failsAt) == Progress(Created(db), Pass)
    ensures CreateTables(db, failsAt) == Migrate(Created(db), MigratedTables, NullableInteger, failsAt)
  {
    CreateStatementsEffect(db, failsAt);
  }

  /** A table needs the column after the CREATE statements exactly when it needed it before. */
  lemma CreatedNeeds(db: Db, t: Table)
    ensures NeedsColumn(Created(db), t, MigratedTables) == NeedsColumn(db, t, MigratedTables)
  {
  }

  lemma CreateTablesAt(db: Db, d: Db, t: Table)
    requires TableMigrated(Created(db), d, t, NeedsColumn(db, t, MigratedTables), NullableInteger)
    ensures t !in db.schema ==> d.schema[t] == Declared(t) && SameRows(db, d, t)
    ensures t in db.schema ==> TableMigrated(db, d, t, NeedsColumn(db, t, MigratedTables), NullableInteger)
  {
  }

  /**
   * What `CreateTablesIfNotExists` leaves when it does not throw: all five
   * tables, `index_playeruid`, the column on the four migrated tables, and a
   * stamp index exactly for each existing table that lacked the column.
   */
  lemma CreateTablesSpec(db: Db, failsAt: Option<DdlStep>)
    requires CreateTables(db, failsAt).outcome.Pass?
    ensures var d := CreateTables(db, failsAt).db;
      && (forall t: Table :: t in d.schema)
      && d.playerSeq == db.playerSeq
      && (forall t | t in MigratedTables :: d.HasColumn(t, LastUpdatedColumn))
      && d.indexes == db.indexes + {PlayerUidIndex}
                      + (set t | t in MigratedTables && NeedsColumn(db, t, MigratedTables) :: StampIndexName(t))
      && (forall t | t !in db.schema :: d.schema[t] == Declared(t) && SameRows(db, d, t))
      && (forall t | t in db.schema :: TableMigrated(db, d, t, NeedsColumn(db, t, MigratedTables), NullableInteger))
  {
    CreateTablesThenMigrate(db, failsAt);
    var mid := Created(db);
    MigrateSpec(mid, MigratedTables, NullableInteger, failsAt);
    var d := CreateTables(db, failsAt).db;
    forall t: Table
      ensures t in d.schema
      ensures t !in db.schema ==> d.schema[t] == Declared(t) && SameRows(db, d, t)
      ensures t in db.schema ==> TableMigrated(db, d, t, NeedsColumn(db, t, MigratedTables), NullableInteger)
    {
      CreatedNeeds(db, t);
      assert TableMigrated(mid, d, t, NeedsColumn(mid, t, MigratedTables), NullableInteger);
      CreateTablesAt(db, d, t);
    }
    forall t
      ensures NeedsColumn(db, t, MigratedTables) == NeedsColumn(mid, t, MigratedTables)
    {
      CreatedNeeds(db, t);
    }
  }

  /**
   * On a new save file the tables are created already holding
   * `last_updated`, so the migration loop skips them all and no
   * `index_<table>_last_updated` index is created.
   */
  lemma CreateTablesOnEmptyFile(db: Db, failsAt: Option<DdlStep>)
    requires db.schema == map[]
    ensures CreateTables(db, None).outcome.Pass?
    ensures CreateTables(db, failsAt).outcome.Fail? ==> FailsBeforeLoop(failsAt)
    ensures CreateTables(db, failsAt).outcome.Pass? ==> CreateTables(db, failsAt).db.indexes == db.indexes + {PlayerUidIndex}
  {
    var c := Created(db);
    forall t | t in MigratedTables
      ensures c.HasColumn(t, LastUpdatedColumn)
    {
      assert c.schema[t] == Declared(t);
    }
    assert PlayerUidColumn in db.(schema := Completed(db.schema)).schema[PlayerData];
    assert CreateTables(db, None).outcome.Pass? by {
      CreateStatementsEffect(db, None);
      MigrateNoop(c, MigratedTables, NullableInteger, None);
    }
    assert CreateStatements(db, failsAt).outcome.Fail? ==> FailsBeforeLoop(failsAt) by {
      CreateStatementsEffect(db, failsAt);
    }
    if CreateStatements(db, failsAt).outcome.Pass? {
      CreateStatementsEffect(db, failsAt);
      MigrateNoop(c, MigratedTables, NullableInteger, failsAt);
    }
  }

  /** A second `CreateTablesIfNotExists` succeeds and changes nothing; one that the engine fails changes nothing either. */
  lemma CreateTablesIdempotent(db: Db, failsAt: Option<DdlStep>, again: Option<DdlStep>)
    requires CreateTables(db, failsAt).outcome.Pass?
    ensures CreateTables(CreateTables(db, failsAt).db, None) == Progress(CreateTables(db, failsAt).db, Pass)
    ensures CreateTables(CreateTables(db, failsAt).db, again).db == CreateTables(db, failsAt).db
  {
    CreateTablesSpec(db, failsAt);
    var d := CreateTables(db, failsAt).db;
    CreateStatementsEffect(d, None);
    CreateStatementsKeep(d, again);
    assert Completed(d.schema) == d.schema;
    assert d.(schema := Completed(d.schema), indexes := d.indexes + {PlayerUidIndex}) == d;
    MigrateNoop(d, MigratedTables, NullableInteger, None);
    MigrateNoop(d, MigratedTables, NullableInteger, again);
  }

  /** Once a statement has thrown, the rest of the loop does nothing. */
  lemma {:induction false} MigrateFailureSticks(db: Db, ts: seq<Table>, k: nat, decl: ColumnDecl, failsAt: Option<DdlStep>)
    requires k <= |ts| && Migrate(db, ts[..k], decl, failsAt).outcome.Fail?
    ensures Migrate(db, ts, decl, failsAt) == Migrate(db, ts[..k], decl, failsAt)
    decreases |ts| - k
  {
    if k < |ts| {
      assert ts[..k + 1][..k] == ts[..k];
      MigrateFailureSticks(db, ts, k + 1, decl, failsAt);
    } else {
      assert ts[..k] == ts;
    }
  }

  /** The loop after `i + 1` tables is the loop after `i` tables followed by table `i`. */
  lemma MigrateOneMore(db: Db, ts: seq<Table>, i: nat, decl: ColumnDecl, failsAt: Option<DdlStep>)
    requires i < |ts|
    ensures var p := Migrate(db, ts[..i], decl, failsAt);
      Migrate(db, ts[..i + 1], decl, failsAt) == if p.outcome.Fail? then p else MigrateTable(p.db, ts[i], decl, failsAt)
  {
    assert ts[..i + 1][..i] == ts[..i];
  }

  /**
   * One iteration of the loop: count the table's `last_updated` columns;
   * when there is none, add the column, then its index.
   */
  method AddLastUpdatedColumn(conn: SqliteConnection, t: Table, decl: ColumnDecl, failsAt: Option<DdlStep>)
    returns (r: Outcome<DbError>)
    requires conn.db.Valid()
    modifies conn
    ensures conn.db.Valid() && conn.isOpen == old(conn.isOpen)
    ensures !old(conn.isOpen) ==> r == Fail(ConnectionClosed) && conn.db == old(conn.db)
    ensures old(conn.isOpen) ==> Progress(conn.db, r) == MigrateTable(old(conn.db), t, decl, failsAt)
  {
    var count := conn.CountColumn(t, LastUpdatedColumn);
    if count.Failure? {
      return Fail(count.error);
    }
    if count.value > 0 {
      return Pass;
    }
    r := conn.ExecuteDdl(AlterTableAddColumn(t, LastUpdatedColumn, decl), failsAt == Some(AlterStep(t)));
    if r.Fail? {
      return;
    }
    r := conn.ExecuteDdl(CreateIndexIfNotExists(StampIndexName(t), t, LastUpdatedColumn), failsAt == Some(IndexStep(t)));
  }

  /**
   * The migration loop, as the connection class (with `NullableInteger`)
   * and the mod system (with `NotNullDefaultZero`) both run it: for each
   * table, count its `last_updated` column, and when there is none add the
   * column and then its index. The first statement that throws ends the loop.
   */
  method AddLastUpdatedColumns(conn: SqliteConnection, decl: ColumnDecl, failsAt: Option<DdlStep>)
    returns (r: Outcome<DbError>)
    requires conn.db.Valid()
    modifies conn
    ensures conn.db.Valid() && conn.isOpen == old(conn.isOpen)
    ensures !old(conn.isOpen) ==> r == Fail(ConnectionClosed) && conn.db == old(conn.db)
    ensures old(conn.isOpen) ==> Progress(conn.db, r) == Migrate(old(conn.db), MigratedTables, decl, failsAt)
  {
    var i := 0;
    while i < |MigratedTables|
      invariant 0 <= i <= |MigratedTables|
      invariant conn.db.Valid() && conn.isOpen == old(conn.isOpen)
      invariant !conn.isOpen ==> i == 0 && conn.db == old(conn.db)
      invariant conn.isOpen ==> Migrate(old(conn.db), MigratedTables[..i], decl, failsAt) == Progress(conn.db, Pass)
    {
      MigrateOneMore(old(conn.db), MigratedTables, i, decl, failsAt);
      r := AddLastUpdatedColumn(conn, MigratedTables[i], decl, failsAt);
      if r.Fail? {
        if conn.isOpen {
          MigrateFailureSticks(old(conn.db), MigratedTables, i + 1, decl, failsAt);
        }
        return;
      }
      i := i + 1;
    }
    assert MigratedTables[..i] == MigratedTables;
    r := Pass;
  }
}
