/** The erasure tables as the database object changes them: row by row inside a transaction
    that either reaches its end or restores the tables it started from. */
module ErasureCatalog {
  import opened Prelude
  import opened ProtectionPolicy
  import opened Sorting
  import opened Erasure

  // ---------------------------------------------------------------- failing prefixes

  lemma {:induction false} ContiguousPrefix(rows: seq<ChunkEntry>, n: nat)
    requires n <= |rows| && Contiguous(rows)
    ensures Contiguous(rows[..n])
    decreases |rows|
  {
    if n == |rows| {
      assert rows[..n] == rows;
    } else {
      assert rows[..|rows| - 1][..n] == rows[..n];
      ContiguousPrefix(rows[..|rows| - 1], n);
    }
  }

  lemma {:induction false} ChunkFailureIsFinal(known: set<Hash>, chunks: map<Hash, ChunkRow>, pack: Hash, rows: seq<ChunkEntry>, n: nat)
    requires n <= |rows| && InsertChunks(known, chunks, pack, rows[..n]).None?
    ensures InsertChunks(known, chunks, pack, rows).None?
    decreases |rows|
  {
    if n == |rows| {
      assert rows[..n] == rows;
    } else {
      assert rows[..|rows| - 1][..n] == rows[..n];
      ChunkFailureIsFinal(known, chunks, pack, rows[..|rows| - 1], n);
    }
  }

  lemma {:induction false} ShardFailureIsFinal(shards: map<(Hash, int), ShardRow>, pack: Hash, rows: seq<ShardEntry>, state: ProtectionState, n: nat)
    requires n <= |rows| && InsertShards(shards, pack, rows[..n], state).None?
    ensures InsertShards(shards, pack, rows, state).None?
    decreases |rows|
  {
    if n == |rows| {
      assert rows[..n] == rows;
    } else {
      assert rows[..|rows| - 1][..n] == rows[..n];
      ShardFailureIsFinal(shards, pack, rows[..|rows| - 1], state, n);
    }
  }

  lemma {:induction false} BatchFailureIsFinal(t: Tables, batch: seq<Change>, n: nat)
    requires n <= |batch| && ApplyBatch(t, batch[..n]).None?
    ensures ApplyBatch(t, batch).None?
    decreases |batch|
  {
    hide ApplyChange;
    if n == |batch| {
      assert batch[..n] == batch;
    } else {
      assert batch[..|batch| - 1][..n] == batch[..n];
      BatchFailureIsFinal(t, batch[..|batch| - 1], n);
    }
  }

  // ---------------------------------------------------------------- normalisation loops

  method NormalizeChunkRows(entries: seq<ChunkEntry>, payload: int) returns (r: Option<seq<ChunkEntry>>)
    ensures r == NormalizeChunks(entries, payload)
  {
    var rows := SortBy(entries, (e: ChunkEntry) => e.ordinal);
    if rows == [] {
      return None;
    }
    var previousEnd := 0;
    for i := 0 to |rows|
      invariant Contiguous(rows[..i]) && previousEnd == EndOf(rows[..i])
    {
      assert rows[..i + 1][..i] == rows[..i];
      if rows[i].length <= 0 || rows[i].ordinal != i || rows[i].offset != previousEnd {
        assert !Contiguous(rows) by {
          if Contiguous(rows) { ContiguousPrefix(rows, i + 1); }
        }
        return None;
      }
      previousEnd := rows[i].offset + rows[i].length;
    }
    assert rows[..|rows|] == rows;
    return if previousEnd == payload then Some(rows) else None;
  }

  // ---------------------------------------------------------------- the database object

  class Catalog {
    var known: set<Hash>
    var packs: map<Hash, PackRow>
    var chunks: map<Hash, ChunkRow>
    var shards: map<(Hash, int), ShardRow>

    ghost function View(): Tables
      reads this
    {
      Tables(known, packs, chunks, shards)
    }

    constructor ()
      ensures View() == EMPTY
    {
      known, packs, chunks, shards := {}, map[], map[], map[];
    }

    method InsertChunkRows(pack: Hash, rows: seq<ChunkEntry>) returns (ok: bool)
      modifies this`chunks
      ensures ok == InsertChunks(known, old(chunks), pack, rows).Some?
      ensures ok ==> InsertChunks(known, old(chunks), pack, rows) == Some(chunks)
    {
      for i := 0 to |rows|
        invariant InsertChunks(known, old(chunks), pack, rows[..i]) == Some(chunks)
      {
        var row := rows[i];
        assert rows[..i + 1][..i] == rows[..i];
        if row.hash in chunks {
          if chunks[row.hash] != row.Row(pack) {
            ChunkFailureIsFinal(known, old(chunks), pack, rows, i + 1);
            return false;
          }
        } else if row.hash !in known || OrdinalTaken(chunks, pack, row.ordinal) {
          ChunkFailureIsFinal(known, old(chunks), pack, rows, i + 1);
          return false;
        } else {
          chunks := chunks[row.hash := row.Row(pack)];
        }
      }
      assert rows[..|rows|] == rows;
      return true;
    }

    method InsertShardRows(pack: Hash, rows: seq<ShardEntry>, state: ProtectionState) returns (ok: bool)
      modifies this`shards
      ensures ok == InsertShards(old(shards), pack, rows, state).Some?
      ensures ok ==> InsertShards(old(shards), pack, rows, state) == Some(shards)
    {
      for i := 0 to |rows|
        invariant InsertShards(old(shards), pack, rows[..i], state) == Some(shards)
      {
        var row := rows[i];
        var key := (pack, row.index);
        assert rows[..i + 1][..i] == rows[..i];
        if key in shards {
          if (shards[key].hash, shards[key].node, shards[key].size) != (row.hash, row.node, row.size) {
            ShardFailureIsFinal(old(shards), pack, rows, state, i + 1);
            return false;
          }
        } else {
          shards := shards[key := row.Row(state)];
        }
      }
      assert rows[..|rows|] == rows;
      return true;
    }

    /** The tables end up exactly as the transaction says, and a failure leaves no trace of the
        rows written before it. */
    method RegisterPack(spec: PackSpec) returns (ok: bool)
      modifies this
      ensures ok == Register(old(View()), spec).Some?
      ensures View() == Commit(old(View()), PackRegistered(spec))
    {
      var chunkRows := NormalizeChunkRows(spec.chunks, spec.header.payload);
      var shardRows := NormalizeShards(spec.shards, spec.header.TotalShards());
      if !spec.header.Valid() || chunkRows.None? || shardRows.None? {
        return false;
      }
      var savedPacks, savedChunks, savedShards := packs, chunks, shards;
      if spec.pack in packs {
        if packs[spec.pack].header != spec.header {
          return false;
        }
      } else {
        packs := packs[spec.pack := PackRow(spec.header, spec.state, spec.epoch, None)];
      }
      ok := InsertChunkRows(spec.pack, chunkRows.value);
      if ok {
        ok := InsertShardRows(spec.pack, shardRows.value, spec.state);
      }
      if !ok {
        packs, chunks, shards := savedPacks, savedChunks, savedShards;
      }
    }

    method UpsertShardRows(pack: Hash, rows: seq<ShardEntry>, state: ProtectionState)
      modifies this`shards
      ensures shards == UpsertShards(old(shards), pack, rows, state)
    {
      for i := 0 to |rows|
        invariant shards == UpsertShards(old(shards), pack, rows[..i], state)
      {
        assert rows[..i + 1][..i] == rows[..i];
        shards := shards[(pack, rows[i].index) := rows[i].Row(state)];
      }
      assert rows[..|rows|] == rows;
    }

    method PushOne(spec: PackSpec) returns (ok: bool)
      modifies this`packs, this`shards
      ensures ok == PushUpdate(old(View()), spec).Some?
      ensures View() == if ok then PushUpdate(old(View()), spec).value else old(View())
    {
      var chunkRows := NormalizeChunkRows(spec.chunks, spec.header.payload);
      var shardRows := NormalizeShards(spec.shards, spec.header.TotalShards());
      if spec.state.PENDING? || spec.state.VERIFIED? || !spec.header.Valid()
      || chunkRows.None? || shardRows.None? || spec.pack !in packs {
        return false;
      }
      if packs[spec.pack].header != spec.header || !ChunksMatch(chunks, spec.pack, chunkRows.value) {
        return false;
      }
      packs := packs[spec.pack := PackRow(spec.header, spec.state, spec.epoch, None)];
      UpsertShardRows(spec.pack, shardRows.value, spec.state);
      shards := DropUnseenShards(shards, spec.pack, |shardRows.value|);
      return true;
    }

    method ApplyOne(c: Change) returns (ok: bool)
      modifies this`packs, this`shards
      ensures ok == ApplyChange(old(View()), c).Some?
      ensures ok ==> ApplyChange(old(View()), c) == Some(View())
    {
      match c
      case Pushed(spec) => ok := PushOne(spec);
      case PushFailed(pack, error) =>
        if error == "" || pack !in packs {
          return false;
        }
        packs := packs[pack := packs[pack].(error := Some(error))];
        return true;
      case Verified(v) =>
        if v.state.PENDING? || v.state.PLACED? || v.pack !in packs || exists i :: i in v.verified && i < 0 {
          return false;
        }
        var missing := if v.state.FAILED? then FAILED else DEGRADED;
        packs := packs[v.pack := packs[v.pack].(state := v.state, error := v.error)];
        shards := map k: (Hash, int) | k in shards ::
          if k.0 != v.pack then shards[k]
          else shards[k].(state := if k.1 in v.verified then VERIFIED else missing);
        return true;
    }

    /** A batch of push results, push failures or verifications: all of it or nothing. */
    method Apply(batch: seq<Change>) returns (ok: bool)
      modifies this`packs, this`shards
      ensures ok == ApplyBatch(old(View()), batch).Some?
      ensures View() == Commit(old(View()), Batch(batch))
    {
      hide ApplyChange;
      var savedPacks, savedShards := packs, shards;
      for i := 0 to |batch|
        invariant ApplyBatch(old(View()), batch[..i]) == Some(View())
      {
        assert batch[..i + 1][..i] == batch[..i];
        ok := ApplyOne(batch[i]);
        if !ok {
          BatchFailureIsFinal(old(View()), batch, i + 1);
          packs, shards := savedPacks, savedShards;
          return false;
        }
      }
      assert batch[..|batch|] == batch;
      return true;
    }
  }
}
