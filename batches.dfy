/**
 * What a batch of chunk writes or deletes does to one chunk table, as pure
 * functions of the rows before the batch. The connection's loops are proved
 * against these.
 */
module Batches {
  import opened Wrappers
  import opened Sqlite

  /** A chunk, map chunk or map region coordinate. */
  datatype ChunkPos = ChunkPos(x: int, y: int, z: int)

  /** One entry of a batch: where it goes and its blob (`null` allowed). */
  datatype DbChunk = DbChunk(position: ChunkPos, data: Option<Blob>)

  /**
   * The game's chunk index encoding (`ChunkPos.ToChunkIndex` and
   * `ChunkPos.FromChunkIndex_saveGamev2`), left uninterpreted.
   */
  datatype PosCodec = PosCodec(toIndex: ChunkPos -> u64, fromIndex: u64 -> ChunkPos)

  function Key(codec: PosCodec, c: DbChunk): u64
  {
    codec.toIndex(c.position)
  }

  /** The indexes a batch writes. */
  function KeySet(codec: PosCodec, chunks: seq<DbChunk>): set<u64>
  {
    set c | c in chunks :: Key(codec, c)
  }

  /** `ToChunkIndex` of each position, in order. */
  function Indexes(codec: PosCodec, positions: seq<ChunkPos>): (r: seq<u64>)
    ensures |r| == |positions|
    ensures forall i | 0 <= i < |positions| :: r[i] == codec.toIndex(positions[i])
  {
    seq(|positions|, i requires 0 <= i < |positions| => codec.toIndex(positions[i]))
  }

  /** `mapChunk.Position.Y = 0`: map chunks and map regions are keyed by column. */
  function Flattened(c: DbChunk): (r: DbChunk)
    ensures r.position.y == 0 && r.data == c.data
    ensures r.position.x == c.position.x && r.position.z == c.position.z
  {
    c.(position := c.position.(y := 0))
  }

  function FlattenAll(chunks: seq<DbChunk>): (r: seq<DbChunk>)
    ensures |r| == |chunks|
    ensures forall i | 0 <= i < |chunks| :: r[i] == Flattened(chunks[i])
  {
    seq(|chunks|, i requires 0 <= i < |chunks| => Flattened(chunks[i]))
  }

  /** `INSERT OR REPLACE` of every entry in order, each stamped `now`. */
  function UpsertAll(rows: map<u64, Row>, codec: PosCodec, chunks: seq<DbChunk>, now: int): map<u64, Row>
    decreases |chunks|
  {
    if chunks == [] then rows
    else
      var last := chunks[|chunks| - 1];
      UpsertAll(rows, codec, chunks[..|chunks| - 1], now)[Key(codec, last) := Row(last.data, Epoch(now))]
  }

  /** Upserting one more entry after a prefix of the batch. */
  lemma UpsertStep(rows: map<u64, Row>, codec: PosCodec, chunks: seq<DbChunk>, now: int, i: nat)
    requires i < |chunks|
    ensures UpsertAll(rows, codec, chunks[..i + 1], now)
         == UpsertAll(rows, codec, chunks[..i], now)[Key(codec, chunks[i]) := Row(chunks[i].data, Epoch(now))]
  {
    assert chunks[..i + 1][..i] == chunks[..i];
  }

  /** `DELETE ... WHERE position = @position` for every index in order. */
  function DeleteAll(rows: map<u64, Row>, keys: seq<u64>): map<u64, Row>
    decreases |keys|
  {
    if keys == [] then rows else DeleteAll(rows, keys[..|keys| - 1]) - {keys[|keys| - 1]}
  }

  /** A batch writes exactly the rows it names and keeps every other row. */
  lemma {:induction false} UpsertAllFrame(rows: map<u64, Row>, codec: PosCodec, chunks: seq<DbChunk>, now: int)
    ensures UpsertAll(rows, codec, chunks, now).Keys == rows.Keys + KeySet(codec, chunks)
    ensures forall k | k in rows && k !in KeySet(codec, chunks) :: UpsertAll(rows, codec, chunks, now)[k] == rows[k]
    decreases |chunks|
  {
    if chunks != [] {
      var init := chunks[..|chunks| - 1];
      UpsertAllFrame(rows, codec, init, now);
      assert chunks == init + [chunks[|chunks| - 1]];
      assert KeySet(codec, chunks) == KeySet(codec, init) + {Key(codec, chunks[|chunks| - 1])};
    }
  }

  /**
   * The row of an index holds the data of the last entry of the batch with
   * that index, stamped `now`: a later entry overwrites an earlier one.
   */
  lemma {:induction false} UpsertAllLastWins(rows: map<u64, Row>, codec: PosCodec, chunks: seq<DbChunk>, now: int, i: nat)
    requires i < |chunks|
    requires forall j | i < j < |chunks| :: Key(codec, chunks[j]) != Key(codec, chunks[i])
    ensures Key(codec, chunks[i]) in UpsertAll(rows, codec, chunks, now)
    ensures UpsertAll(rows, codec, chunks, now)[Key(codec, chunks[i])] == Row(chunks[i].data, Epoch(now))
    decreases |chunks|
  {
    if i < |chunks| - 1 {
      var init := chunks[..|chunks| - 1];
      UpsertAllLastWins(rows, codec, init, now, i);
    }
  }

  /**
   * Two map chunks that differ only in their height land on the same row,
   * and the later one is what the row holds.
   */
  lemma FlattenedCollide(rows: map<u64, Row>, codec: PosCodec, a: DbChunk, b: DbChunk, now: int)
    requires a.position.x == b.position.x && a.position.z == b.position.z
    ensures Key(codec, Flattened(a)) == Key(codec, Flattened(b))
    ensures UpsertAll(rows, codec, FlattenAll([a, b]), now)[Key(codec, Flattened(a))] == Row(b.data, Epoch(now))
  {
    UpsertAllLastWins(rows, codec, FlattenAll([a, b]), now, 1);
  }

  /** A batch delete removes exactly the listed indexes; absent ones are no-ops. */
  lemma {:induction false} DeleteAllSpec(rows: map<u64, Row>, keys: seq<u64>)
    ensures DeleteAll(rows, keys) == rows - (set k | k in keys)
    decreases |keys|
  {
    if keys != [] {
      var init := keys[..|keys| - 1];
      DeleteAllSpec(rows, init);
      assert keys == init + [keys[|keys| - 1]];
      assert (set k | k in keys) == (set k | k in init) + {keys[|keys| - 1]};
    }
  }

  /** What `reader["data"] as byte[]` yields for index `k`: the stored blob, or null when no row has that index. */
  function DataAt(rows: map<u64, Row>, k: u64): Option<Blob>
  {
    if k in rows then rows[k].data else None
  }

  /** Deleting one more index after a prefix of the keys. */
  lemma DeleteStep(rows: map<u64, Row>, keys: seq<u64>, i: nat)
    requires i < |keys|
    ensures DeleteAll(rows, keys[..i + 1]) == DeleteAll(rows, keys[..i]) - {keys[i]}
  {
    assert keys[..i + 1][..i] == keys[..i];
  }

  /** A batch delete by positions removes exactly the rows of their indexes. */
  lemma DeleteAllPositions(rows: map<u64, Row>, codec: PosCodec, positions: seq<ChunkPos>)
    ensures DeleteAll(rows, Indexes(codec, positions)) == rows - (set p | p in positions :: codec.toIndex(p))
  {
    var keys := Indexes(codec, positions);
    DeleteAllSpec(rows, keys);
    assert (set k | k in keys) == (set p | p in positions :: codec.toIndex(p)) by {
      forall p | p in positions
        ensures codec.toIndex(p) in keys
      {
        var j :| 0 <= j < |positions| && positions[j] == p;
        assert keys[j] == codec.toIndex(p);
      }
    }
  }

  /**
   * After a batch delete, no listed position has a row: a point read of any
   * of them yields null, and every other row reads as before.
   */
  lemma DeleteThenRead(rows: map<u64, Row>, codec: PosCodec, positions: seq<ChunkPos>)
    ensures var after := DeleteAll(rows, Indexes(codec, positions));
      && (forall p | p in positions :: codec.toIndex(p) !in after && DataAt(after, codec.toIndex(p)) == None)
      && (forall k | k in rows && k !in Indexes(codec, positions) :: k in after && DataAt(after, k) == DataAt(rows, k))
  {
    DeleteAllPositions(rows, codec, positions);
    DeleteAllSpec(rows, Indexes(codec, positions));
  }

  /**
   * A point read after a batch write: the index of an entry that no later
   * entry of the batch shares has a row, and reading it yields that entry's
   * blob. With a one-entry batch `[c]`, `ChunkExists` and `GetChunk` of
   * `c`'s index see `c`.
   */
  lemma WriteThenRead(rows: map<u64, Row>, codec: PosCodec, chunks: seq<DbChunk>, now: int, i: nat)
    requires i < |chunks|
    requires forall j | i < j < |chunks| :: Key(codec, chunks[j]) != Key(codec, chunks[i])
    ensures var after := UpsertAll(rows, codec, chunks, now);
      Key(codec, chunks[i]) in after && DataAt(after, Key(codec, chunks[i])) == chunks[i].data
  {
    UpsertAllLastWins(rows, codec, chunks, now, i);
  }

  /**
   * Deleting map chunks by their unflattened positions misses the rows that
   * writing the same entries created, whenever the encoding tells an entry's
   * position from its flattened one (a nonzero height in a valid world).
   */
  lemma DeleteUnflattenedMisses(rows: map<u64, Row>, codec: PosCodec, c: DbChunk, now: int)
    requires codec.toIndex(c.position) != codec.toIndex(Flattened(c).position)
    ensures var written := UpsertAll(rows, codec, FlattenAll([c]), now);
      Key(codec, Flattened(c)) in DeleteAll(written, [Key(codec, c)])
  {
    var written := UpsertAll(rows, codec, FlattenAll([c]), now);
    UpsertAllLastWins(rows, codec, FlattenAll([c]), now, 0);
    DeleteAllSpec(written, [Key(codec, c)]);
  }
}
