/**
 * The Harmony transpilers that patch the game's own `SQLiteDbConnectionv2`:
 * each walks the IL of one method and swaps selected `ldstr` SQL strings for
 * versions that also write `last_updated`. A transpiler is a streaming map
 * over the instruction sequence with a fixed lookup table.
 */
module Patches {

  /**
   * An IL instruction as a transpiler sees it. Only `ldstr` is inspected;
   * every other opcode, with its operand, labels and blocks, is opaque. Of
   * what an `ldstr` carries besides its string, only its labels are kept:
   * a replacement built as a new `CodeInstruction` loses both its labels and
   * its exception blocks, and the model records the loss of the labels.
   */
  datatype CodeInstruction<Op> =
    | Ldstr(operand: string, labels: seq<nat>)
    | Other(op: Op)

  /**
   * One transpiler: every `ldstr` whose string is a key of `replacements`
   * becomes a fresh `ldstr` of the mapped string (a new `CodeInstruction`,
   * which carries no labels); every other instruction is passed through.
   */
  function Transpile<Op>(replacements: map<string, string>, instructions: seq<CodeInstruction<Op>>)
    : (r: seq<CodeInstruction<Op>>)
    ensures |r| == |instructions|
    ensures forall i | 0 <= i < |instructions| ::
      if instructions[i].Ldstr? && instructions[i].operand in replacements
      then r[i] == Ldstr(replacements[instructions[i].operand], [])
      else r[i] == instructions[i]
  {
    if instructions == [] then []
    else
      var head := instructions[0];
      var out := if head.Ldstr? && head.operand in replacements then Ldstr(replacements[head.operand], []) else head;
      [out] + Transpile(replacements, instructions[1..])
  }

  /** No replacement is itself replaced again: it is its own key or no key at all. */
  predicate NoChain(replacements: map<string, string>)
  {
    forall k | k in replacements :: replacements[k] == k || replacements[k] !in replacements
  }

  /** Patching an already patched method changes nothing more. */
  lemma TranspileIdempotent<Op>(replacements: map<string, string>, instructions: seq<CodeInstruction<Op>>)
    requires NoChain(replacements)
    ensures Transpile(replacements, Transpile(replacements, instructions)) == Transpile(replacements, instructions)
  {
    var once := Transpile(replacements, instructions);
    var twice := Transpile(replacements, once);
    forall i | 0 <= i < |instructions|
      ensures twice[i] == once[i]
    {
      if instructions[i].Ldstr? && instructions[i].operand in replacements {
        assert once[i].operand == replacements[instructions[i].operand];
      }
    }
  }

  // The SQL text the tables map, built from the pieces of each statement.

  /** `parts` separated by `sep`. */
  function Join(parts: seq<string>, sep: string): string
  {
    if |parts| == 0 then ""
    else if |parts| == 1 then parts[0]
    else parts[0] + sep + Join(parts[1..], sep)
  }

  const StampColumn := "last_updated"
  const StampValue := "unixepoch('now')"
  const StampAssignment := "last_updated=unixepoch('now')"
  const StampColumnDefinition := "last_updated INTEGER NOT NULL DEFAULT 0"

  /** `<verb> INTO <table> (<columns, comma-space separated>) VALUES (<values, comma separated>)` */
  datatype InsertSql = InsertSql(verb: string, table: string, columns: seq<string>, values: seq<string>)
  {
    function Text(): string
    {
      verb + " INTO " + table + " (" + Join(columns, ", ") + ") VALUES (" + Join(values, ",") + ")"
    }

    /** The same statement also setting `last_updated` to `unixepoch('now')`. */
    function WithStamp(): InsertSql
    {
      this.(columns := columns + [StampColumn], values := values + [StampValue])
    }
  }

  /** `UPDATE <table> set <assignments, comma separated> where <condition>` */
  datatype UpdateSql = UpdateSql(table: string, assignments: seq<string>, condition: string)
  {
    function Text(): string
    {
      "UPDATE " + table + " set " + Join(assignments, ",") + " where " + condition
    }

    function WithStamp(): UpdateSql
    {
      this.(assignments := assignments + [StampAssignment])
    }
  }

  /** `CREATE TABLE IF NOT EXISTS <table> (<column definitions, comma-space separated>);` */
  datatype CreateTableSql = CreateTableSql(table: string, columns: seq<string>)
  {
    function Text(): string
    {
      "CREATE TABLE IF NOT EXISTS " + table + " (" + Join(columns, ", ") + ");"
    }

    /** The same table with `last_updated INTEGER NOT NULL DEFAULT 0` as its last column. */
    function WithStamp(): CreateTableSql
    {
      this.(columns := columns + [StampColumnDefinition])
    }
  }

  // The game's own statements the transpilers look for.

  const ChunkUpsert := InsertSql("INSERT OR REPLACE", "chunk", ["position", "data"], ["@position", "@data"])
  const MapChunkUpsert := InsertSql("INSERT OR REPLACE", "mapchunk", ["position", "data"], ["@position", "@data"])
  const MapRegionUpsert := InsertSql("INSERT OR REPLACE", "mapregion", ["position", "data"], ["@position", "@data"])
  const PlayerInsert := InsertSql("INSERT", "playerdata", ["playeruid", "data"], ["@playeruid", "@data"])
  const PlayerUpdate := UpdateSql("playerdata", ["data=@data"], "playeruid=@playeruid")
  const ChunkCreate := CreateTableSql("chunk", ["position integer PRIMARY KEY", "data BLOB"])
  const MapChunkCreate := CreateTableSql("mapchunk", ["position integer PRIMARY KEY", "data BLOB"])
  const MapRegionCreate := CreateTableSql("mapregion", ["position integer PRIMARY KEY", "data BLOB"])
  const GameDataCreate := CreateTableSql("gamedata", ["savegameid integer PRIMARY KEY", "data BLOB"])
  const PlayerDataCreate := CreateTableSql("playerdata", ["playerid integer PRIMARY KEY AUTOINCREMENT", "playeruid TEXT", "data BLOB"])
  const PlayerUidIndexSql := "CREATE index IF NOT EXISTS index_playeruid on playerdata(playeruid);"

  /** The lookup table of `OnOpened_ReplaceQueryStrings`. */
  const OnOpenedStrings: map<string, string> := map[
    ChunkUpsert.Text() :=
      InsertSql("INSERT OR REPLACE", "chunk", ["position", "data", "last_updated"], ["@position", "@data", "unixepoch('now')"]).Text(),
    MapChunkUpsert.Text() :=
      InsertSql("INSERT OR REPLACE", "mapchunk", ["position", "data", "last_updated"], ["@position", "@data", "unixepoch('now')"]).Text()]

  /** The lookup table of `SetPlayerData_ReplaceQueryStrings`. */
  const SetPlayerDataStrings: map<string, string> := map[
    PlayerInsert.Text() :=
      InsertSql("INSERT", "playerdata", ["playeruid", "data", "last_updated"], ["@playeruid", "@data", "unixepoch('now')"]).Text(),
    PlayerUpdate.Text() :=
      UpdateSql("playerdata", ["data=@data", "last_updated=unixepoch('now')"], "playeruid=@playeruid").Text()]

  /** The lookup table of `InsertChunk_ReplaceQueryStrings`. */
  const InsertChunkStrings: map<string, string> := map[
    MapRegionUpsert.Text() :=
      InsertSql("INSERT OR REPLACE", "mapregion", ["position", "data", "last_updated"], ["@position", "@data", "unixepoch('now')"]).Text(),
    MapChunkUpsert.Text() :=
      InsertSql("INSERT OR REPLACE", "mapchunk", ["position", "data", "last_updated"], ["@position", "@data", "unixepoch('now')"]).Text(),
    ChunkUpsert.Text() :=
      InsertSql("INSERT OR REPLACE", "chunk", ["position", "data", "last_updated"], ["@position", "@data", "unixepoch('now')"]).Text()]

  /** The lookup table of `CreateTablesIfNotExists_ReplaceQueryStrings`. */
  const CreateTablesStrings: map<string, string> := map[
    ChunkCreate.Text() :=
      CreateTableSql("chunk", ["position integer PRIMARY KEY", "data BLOB", "last_updated INTEGER NOT NULL DEFAULT 0"]).Text(),
    MapChunkCreate.Text() :=
      CreateTableSql("mapchunk", ["position integer PRIMARY KEY", "data BLOB", "last_updated INTEGER NOT NULL DEFAULT 0"]).Text(),
    MapRegionCreate.Text() :=
      CreateTableSql("mapregion", ["position integer PRIMARY KEY", "data BLOB", "last_updated INTEGER NOT NULL DEFAULT 0"]).Text(),
    GameDataCreate.Text() :=
      CreateTableSql("gamedata", ["savegameid integer PRIMARY KEY", "data BLOB", "last_updated INTEGER NOT NULL DEFAULT 0"]).Text(),
    PlayerDataCreate.Text() :=
      CreateTableSql("playerdata", ["playerid integer PRIMARY KEY AUTOINCREMENT", "playeruid TEXT", "data BLOB", "last_updated INTEGER NOT NULL DEFAULT 0"]).Text(),
    PlayerUidIndexSql := PlayerUidIndexSql]

  /** The chunk table upserts have different lengths, so no two are the same text. */
  lemma UpsertLengths()
    ensures |ChunkUpsert.Text()| == 70 && |MapChunkUpsert.Text()| == 73 && |MapRegionUpsert.Text()| == 74
  {
  }

  /** The player insert and update have different lengths. */
  lemma PlayerStatementLengths()
    ensures |PlayerInsert.Text()| == 66 && |PlayerUpdate.Text()| == 59
  {
  }

  /** The five create statements and the index statement have different lengths. */
  lemma CreateLengths()
    ensures |ChunkCreate.Text()| == 75 && |MapChunkCreate.Text()| == 78 && |MapRegionCreate.Text()| == 79
    ensures |GameDataCreate.Text()| == 80 && |PlayerDataCreate.Text()| == 110 && |PlayerUidIndexSql| == 68
  {
  }

  /** `instr` is an `ldstr` of exactly `sql`. */
  predicate Loads<Op>(instr: CodeInstruction<Op>, sql: string)
  {
    instr.Ldstr? && instr.operand == sql
  }

  /** A table of two different texts acts as a `switch` with two cases. */
  lemma TranspileTwo<Op>(k1: string, v1: string, k2: string, v2: string, instructions: seq<CodeInstruction<Op>>)
    requires k1 != k2
    ensures forall i | 0 <= i < |instructions| :: Transpile(map[k1 := v1, k2 := v2], instructions)[i] == (
              if Loads(instructions[i], k1) then Ldstr(v1, [])
              else if Loads(instructions[i], k2) then Ldstr(v2, [])
              else instructions[i])
  {
  }

  /** A table of three different texts acts as a `switch` with three cases. */
  lemma TranspileThree<Op>(k1: string, v1: string, k2: string, v2: string, k3: string, v3: string, instructions: seq<CodeInstruction<Op>>)
    requires k1 != k2 && k1 != k3 && k2 != k3
    ensures forall i | 0 <= i < |instructions| :: Transpile(map[k1 := v1, k2 := v2, k3 := v3], instructions)[i] == (
              if Loads(instructions[i], k1) then Ldstr(v1, [])
              else if Loads(instructions[i], k2) then Ldstr(v2, [])
              else if Loads(instructions[i], k3) then Ldstr(v3, [])
              else instructions[i])
  {
  }

  /** A table of six different texts acts as a `switch` with six cases. */
  lemma TranspileSix<Op>(k1: string, v1: string, k2: string, v2: string, k3: string, v3: string,
                         k4: string, v4: string, k5: string, v5: string, k6: string, v6: string, instructions: seq<CodeInstruction<Op>>)
    requires k1 !in {k2, k3, k4, k5, k6} && k2 !in {k3, k4, k5, k6} && k3 !in {k4, k5, k6} && k4 !in {k5, k6} && k5 != k6
    ensures forall i | 0 <= i < |instructions| :: Transpile(map[k1 := v1, k2 := v2, k3 := v3, k4 := v4, k5 := v5, k6 := v6], instructions)[i] == (
              if Loads(instructions[i], k1) then Ldstr(v1, [])
              else if Loads(instructions[i], k2) then Ldstr(v2, [])
              else if Loads(instructions[i], k3) then Ldstr(v3, [])
              else if Loads(instructions[i], k4) then Ldstr(v4, [])
              else if Loads(instructions[i], k5) then Ldstr(v5, [])
              else if Loads(instructions[i], k6) then Ldstr(v6, [])
              else instructions[i])
  {
    var m := map[k1 := v1, k2 := v2, k3 := v3, k4 := v4, k5 := v5, k6 := v6];
    assert m[k1] == v1 && m[k2] == v2 && m[k3] == v3 && m[k4] == v4 && m[k5] == v5;
    forall i | 0 <= i < |instructions| && instructions[i].Ldstr?
      ensures instructions[i].operand in m <==> instructions[i].operand in {k1, k2, k3, k4, k5, k6}
    {
    }
  }

  /**
   * `OnOpened_ReplaceQueryStrings`: the chunk and map chunk upserts come out
   * also writing `last_updated`, as new unlabelled instructions; everything
   * else is passed through.
   */
  function OnOpenedReplaceQueryStrings<Op>(instructions: seq<CodeInstruction<Op>>): (r: seq<CodeInstruction<Op>>)
    ensures |r| == |instructions|
    ensures forall i | 0 <= i < |instructions| :: r[i] == (
              if Loads(instructions[i], ChunkUpsert.Text()) then Ldstr(ChunkUpsert.WithStamp().Text(), [])
              else if Loads(instructions[i], MapChunkUpsert.Text()) then Ldstr(MapChunkUpsert.WithStamp().Text(), [])
              else instructions[i])
  {
    OnOpenedStringsStamp();
    UpsertLengths();
    TranspileTwo(ChunkUpsert.Text(), ChunkUpsert.WithStamp().Text(), MapChunkUpsert.Text(), MapChunkUpsert.WithStamp().Text(), instructions);
    Transpile(OnOpenedStrings, instructions)
  }

  /**
   * `SetPlayerData_ReplaceQueryStrings`: the player insert and update come
   * out also writing `last_updated`; everything else is passed through.
   */
  function SetPlayerDataReplaceQueryStrings<Op>(instructions: seq<CodeInstruction<Op>>): (r: seq<CodeInstruction<Op>>)
    ensures |r| == |instructions|
    ensures forall i | 0 <= i < |instructions| :: r[i] == (
              if Loads(instructions[i], PlayerInsert.Text()) then Ldstr(PlayerInsert.WithStamp().Text(), [])
              else if Loads(instructions[i], PlayerUpdate.Text()) then Ldstr(PlayerUpdate.WithStamp().Text(), [])
              else instructions[i])
  {
    SetPlayerDataStringsStamp();
    PlayerStatementLengths();
    TranspileTwo(PlayerInsert.Text(), PlayerInsert.WithStamp().Text(), PlayerUpdate.Text(), PlayerUpdate.WithStamp().Text(), instructions);
    Transpile(SetPlayerDataStrings, instructions)
  }

  /**
   * `InsertChunk_ReplaceQueryStrings`: the upserts of all three chunk tables
   * come out also writing `last_updated`; everything else is passed through.
   */
  function InsertChunkReplaceQueryStrings<Op>(instructions: seq<CodeInstruction<Op>>): (r: seq<CodeInstruction<Op>>)
    ensures |r| == |instructions|
    ensures forall i | 0 <= i < |instructions| :: r[i] == (
              if Loads(instructions[i], MapRegionUpsert.Text()) then Ldstr(MapRegionUpsert.WithStamp().Text(), [])
              else if Loads(instructions[i], MapChunkUpsert.Text()) then Ldstr(MapChunkUpsert.WithStamp().Text(), [])
              else if Loads(instructions[i], ChunkUpsert.Text()) then Ldstr(ChunkUpsert.WithStamp().Text(), [])
              else instructions[i])
  {
    InsertChunkStringsStamp();
    UpsertLengths();
    TranspileThree(MapRegionUpsert.Text(), MapRegionUpsert.WithStamp().Text(), MapChunkUpsert.Text(), MapChunkUpsert.WithStamp().Text(),
      ChunkUpsert.Text(), ChunkUpsert.WithStamp().Text(), instructions);
    Transpile(InsertChunkStrings, instructions)
  }

  /**
   * `CreateTablesIfNotExists_ReplaceQueryStrings`: each of the five create
   * statements comes out with the `last_updated` column; the
   * `index_playeruid` statement comes out with the same text but as a new
   * unlabelled instruction; everything else is passed through.
   */
  function CreateTablesReplaceQueryStrings<Op>(instructions: seq<CodeInstruction<Op>>): (r: seq<CodeInstruction<Op>>)
    ensures |r| == |instructions|
    ensures forall i | 0 <= i < |instructions| :: r[i] == (
              if Loads(instructions[i], ChunkCreate.Text()) then Ldstr(ChunkCreate.WithStamp().Text(), [])
              else if Loads(instructions[i], MapChunkCreate.Text()) then Ldstr(MapChunkCreate.WithStamp().Text(), [])
              else if Loads(instructions[i], MapRegionCreate.Text()) then Ldstr(MapRegionCreate.WithStamp().Text(), [])
              else if Loads(instructions[i], GameDataCreate.Text()) then Ldstr(GameDataCreate.WithStamp().Text(), [])
              else if Loads(instructions[i], PlayerDataCreate.Text()) then Ldstr(PlayerDataCreate.WithStamp().Text(), [])
              else if Loads(instructions[i], PlayerUidIndexSql) then Ldstr(PlayerUidIndexSql, [])
              else instructions[i])
  {
    CreateTablesStringsStamp();
    CreateLengths();
    TranspileSix(ChunkCreate.Text(), ChunkCreate.WithStamp().Text(), MapChunkCreate.Text(), MapChunkCreate.WithStamp().Text(),
      MapRegionCreate.Text(), MapRegionCreate.WithStamp().Text(), GameDataCreate.Text(), GameDataCreate.WithStamp().Text(),
      PlayerDataCreate.Text(), PlayerDataCreate.WithStamp().Text(), PlayerUidIndexSql, PlayerUidIndexSql, instructions);
    Transpile(CreateTablesStrings, instructions)
  }

  /** `OnOpened` gets the chunk and map chunk upserts, each also writing `last_updated = unixepoch('now')`. */
  lemma OnOpenedStringsStamp()
    ensures OnOpenedStrings == map[
      ChunkUpsert.Text() := ChunkUpsert.WithStamp().Text(),
      MapChunkUpsert.Text() := MapChunkUpsert.WithStamp().Text()]
  {
    assert ChunkUpsert.WithStamp().columns == ["position", "data", "last_updated"];
    assert ChunkUpsert.WithStamp().values == ["@position", "@data", "unixepoch('now')"];
  }

  /** `SetPlayerData` gets an insert and an update that also write `last_updated = unixepoch('now')`. */
  lemma SetPlayerDataStringsStamp()
    ensures SetPlayerDataStrings == map[
      PlayerInsert.Text() := PlayerInsert.WithStamp().Text(),
      PlayerUpdate.Text() := PlayerUpdate.WithStamp().Text()]
  {
    assert PlayerInsert.WithStamp().columns == ["playeruid", "data", "last_updated"];
    assert PlayerInsert.WithStamp().values == ["@playeruid", "@data", "unixepoch('now')"];
    assert PlayerUpdate.WithStamp().assignments == ["data=@data", "last_updated=unixepoch('now')"];
  }

  /** `InsertChunk` gets the upserts of all three chunk tables, each also writing `last_updated`. */
  lemma InsertChunkStringsStamp()
    ensures InsertChunkStrings == map[
      MapRegionUpsert.Text() := MapRegionUpsert.WithStamp().Text(),
      MapChunkUpsert.Text() := MapChunkUpsert.WithStamp().Text(),
      ChunkUpsert.Text() := ChunkUpsert.WithStamp().Text()]
  {
    assert ChunkUpsert.WithStamp().columns == ["position", "data", "last_updated"];
    assert ChunkUpsert.WithStamp().values == ["@position", "@data", "unixepoch('now')"];
  }

  /**
   * `CreateTablesIfNotExists` gets each of the five tables with a trailing
   * `last_updated INTEGER NOT NULL DEFAULT 0` column, and the
   * `index_playeruid` statement unchanged.
   */
  lemma CreateTablesStringsStamp()
    ensures CreateTablesStrings == map[
      ChunkCreate.Text() := ChunkCreate.WithStamp().Text(),
      MapChunkCreate.Text() := MapChunkCreate.WithStamp().Text(),
      MapRegionCreate.Text() := MapRegionCreate.WithStamp().Text(),
      GameDataCreate.Text() := GameDataCreate.WithStamp().Text(),
      PlayerDataCreate.Text() := PlayerDataCreate.WithStamp().Text(),
      PlayerUidIndexSql := PlayerUidIndexSql]
  {
    assert ChunkCreate.WithStamp().columns == ["position integer PRIMARY KEY", "data BLOB", "last_updated INTEGER NOT NULL DEFAULT 0"];
    assert GameDataCreate.WithStamp().columns == ["savegameid integer PRIMARY KEY", "data BLOB", "last_updated INTEGER NOT NULL DEFAULT 0"];
    assert PlayerDataCreate.WithStamp().columns
        == ["playerid integer PRIMARY KEY AUTOINCREMENT", "playeruid TEXT", "data BLOB", "last_updated INTEGER NOT NULL DEFAULT 0"];
  }

  /** Applying the `OnOpened` transpiler to its own output changes nothing. */
  lemma OnOpenedIdempotent<Op>(instructions: seq<CodeInstruction<Op>>)
    ensures OnOpenedReplaceQueryStrings(OnOpenedReplaceQueryStrings(instructions)) == OnOpenedReplaceQueryStrings(instructions)
  {
    assert NoChain(OnOpenedStrings);
    TranspileIdempotent(OnOpenedStrings, instructions);
  }

  /** Applying the `SetPlayerData` transpiler to its own output changes nothing. */
  lemma SetPlayerDataIdempotent<Op>(instructions: seq<CodeInstruction<Op>>)
    ensures SetPlayerDataReplaceQueryStrings(SetPlayerDataReplaceQueryStrings(instructions)) == SetPlayerDataReplaceQueryStrings(instructions)
  {
    assert NoChain(SetPlayerDataStrings);
    TranspileIdempotent(SetPlayerDataStrings, instructions);
  }

  /** Applying the `InsertChunk` transpiler to its own output changes nothing. */
  lemma InsertChunkIdempotent<Op>(instructions: seq<CodeInstruction<Op>>)
    ensures InsertChunkReplaceQueryStrings(InsertChunkReplaceQueryStrings(instructions)) == InsertChunkReplaceQueryStrings(instructions)
  {
    assert NoChain(InsertChunkStrings);
    TranspileIdempotent(InsertChunkStrings, instructions);
  }

  /** Applying the `CreateTablesIfNotExists` transpiler to its own output changes nothing. */
  lemma CreateTablesIdempotent<Op>(instructions: seq<CodeInstruction<Op>>)
    ensures CreateTablesReplaceQueryStrings(CreateTablesReplaceQueryStrings(instructions)) == CreateTablesReplaceQueryStrings(instructions)
  {
    CreateTablesNoChain();
    TranspileIdempotent(CreateTablesStrings, instructions);
  }

  /** The last character of a join is the last character of its last part. */
  lemma {:induction false} JoinLast(parts: seq<string>, sep: string)
    requires |parts| > 0 && |parts[|parts| - 1]| > 0
    ensures |Join(parts, sep)| > 0
    ensures Join(parts, sep)[|Join(parts, sep)| - 1] == parts[|parts| - 1][|parts[|parts| - 1]| - 1]
    decreases |parts|
  {
    if |parts| > 1 {
      JoinLast(parts[1..], sep);
    }
  }

  /** The character before the closing `);` of a create statement: the last character of its last column. */
  function Marker(s: string): char
  {
    if |s| < 3 then ' ' else s[|s| - 3]
  }

  lemma CreateMarker(c: CreateTableSql)
    requires |c.columns| > 0 && |c.columns[|c.columns| - 1]| > 0
    ensures Marker(c.Text()) == c.columns[|c.columns| - 1][|c.columns[|c.columns| - 1]| - 1]
  {
    JoinLast(c.columns, ", ");
    var j := Join(c.columns, ", ");
    var text := "CREATE TABLE IF NOT EXISTS " + c.table + " (" + j + ");";
    assert text[|text| - 3] == j[|j| - 1];
  }

  /**
   * A table whose keys carry no `0` marker and whose values are either their
   * own key or carry one: no value can be looked up again.
   */
  predicate MarkedNoChain(replacements: map<string, string>)
  {
    && (forall k | k in replacements :: Marker(k) != '0')
    && (forall k | k in replacements :: replacements[k] == k || Marker(replacements[k]) == '0')
  }

  lemma MarkedNoChainExtend(replacements: map<string, string>, key: string, value: string)
    requires MarkedNoChain(replacements)
    requires Marker(key) != '0' && (value == key || Marker(value) == '0')
    ensures MarkedNoChain(replacements[key := value])
  {
  }

  lemma MarkedNoChainIsNoChain(replacements: map<string, string>)
    requires MarkedNoChain(replacements)
    ensures NoChain(replacements)
  {
  }

  /** Every create statement the game issues ends in `BLOB);`, and its rewrite in `DEFAULT 0);`. */
  lemma CreateMarkers()
    ensures forall c | c in [ChunkCreate, MapChunkCreate, MapRegionCreate, GameDataCreate, PlayerDataCreate] ::
      Marker(c.Text()) == 'B' && Marker(c.WithStamp().Text()) == '0'
  {
    forall c | c in [ChunkCreate, MapChunkCreate, MapRegionCreate, GameDataCreate, PlayerDataCreate]
      ensures Marker(c.Text()) == 'B' && Marker(c.WithStamp().Text()) == '0'
    {
      CreateMarker(c);
      CreateMarker(c.WithStamp());
    }
  }

  lemma CreateTablesMarked()
    ensures MarkedNoChain(map[
      ChunkCreate.Text() := ChunkCreate.WithStamp().Text(),
      MapChunkCreate.Text() := MapChunkCreate.WithStamp().Text(),
      MapRegionCreate.Text() := MapRegionCreate.WithStamp().Text(),
      GameDataCreate.Text() := GameDataCreate.WithStamp().Text(),
      PlayerDataCreate.Text() := PlayerDataCreate.WithStamp().Text(),
      PlayerUidIndexSql := PlayerUidIndexSql])
  {
    CreateMarkers();
    var m: map<string, string> := map[];
    MarkedNoChainExtend(m, ChunkCreate.Text(), ChunkCreate.WithStamp().Text());
    m := m[ChunkCreate.Text() := ChunkCreate.WithStamp().Text()];
    MarkedNoChainExtend(m, MapChunkCreate.Text(), MapChunkCreate.WithStamp().Text());
    m := m[MapChunkCreate.Text() := MapChunkCreate.WithStamp().Text()];
    MarkedNoChainExtend(m, MapRegionCreate.Text(), MapRegionCreate.WithStamp().Text());
    m := m[MapRegionCreate.Text() := MapRegionCreate.WithStamp().Text()];
    MarkedNoChainExtend(m, GameDataCreate.Text(), GameDataCreate.WithStamp().Text());
    m := m[GameDataCreate.Text() := GameDataCreate.WithStamp().Text()];
    MarkedNoChainExtend(m, PlayerDataCreate.Text(), PlayerDataCreate.WithStamp().Text());
    m := m[PlayerDataCreate.Text() := PlayerDataCreate.WithStamp().Text()];
    assert Marker(PlayerUidIndexSql) == 'd';
    MarkedNoChainExtend(m, PlayerUidIndexSql, PlayerUidIndexSql);
  }

  /**
   * No rewritten create statement is itself a key of the table: each ends in
   * `DEFAULT 0);`, while every key ends in `BLOB);` or `(playeruid);`.
   */
  lemma CreateTablesNoChain()
    ensures NoChain(CreateTablesStrings)
  {
    CreateTablesStringsStamp();
    CreateTablesMarked();
    MarkedNoChainIsNoChain(CreateTablesStrings);
  }
}
