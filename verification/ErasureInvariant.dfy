/** What every sequence of erasure transactions keeps: packs are exact tilings of their payload,
    shards cover all indexes on distinct nodes, and nothing once assigned is reassigned. */
module ErasureInvariant {
  import opened Prelude
  import opened ProtectionPolicy
  import opened Sorting
  import opened Erasure

  /** rows is the content of the pack: it tiles the payload, each row is stored, and every
      stored chunk of the pack is one of the rows. */
  ghost predicate Layout(chunks: map<Hash, ChunkRow>, pack: Hash, payload: int, rows: seq<ChunkEntry>)
  {
    && Tiling(rows, payload)
    && (forall i :: 0 <= i < |rows| ==> rows[i].hash in chunks && chunks[rows[i].hash] == rows[i].Row(pack))
    && (forall h :: h in chunks && chunks[h].pack == pack ==>
          0 <= chunks[h].ordinal < |rows| && rows[chunks[h].ordinal].hash == h)
  }

  ghost predicate PackTiled(chunks: map<Hash, ChunkRow>, pack: Hash, payload: int)
  {
    exists rows :: Layout(chunks, pack, payload, rows)
  }

  ghost predicate ShardsPlaced(shards: map<(Hash, int), ShardRow>, pack: Hash, total: int)
  {
    && (forall i :: (pack, i) in shards <==> 0 <= i < total)
    && (forall i, j :: 0 <= i < j < total ==> shards[(pack, i)].node != shards[(pack, j)].node)
  }

  /** Foreign keys of the two dependent tables. */
  ghost predicate References(t: Tables)
  {
    && (forall h :: h in t.chunks ==> h in t.known && t.chunks[h].pack in t.packs)
    && (forall k: (Hash, int) :: k in t.shards ==> k.0 in t.packs)
  }

  ghost predicate PackGood(t: Tables, pack: Hash)
    requires pack in t.packs
  {
    && t.packs[pack].header.Valid()
    && PackTiled(t.chunks, pack, t.packs[pack].header.payload)
    && ShardsPlaced(t.shards, pack, t.packs[pack].header.TotalShards())
  }

  ghost predicate Inv(t: Tables)
  {
    References(t) && forall p :: p in t.packs ==> PackGood(t, p)
  }

  /** A later state keeps every chunk location and every pack header of an earlier one. */
  ghost predicate Preserves(t: Tables, u: Tables)
  {
    && t.known <= u.known
    && (forall h :: h in t.chunks ==> h in u.chunks && u.chunks[h] == t.chunks[h])
    && (forall p :: p in t.packs ==> p in u.packs && u.packs[p].header == t.packs[p].header)
  }

  // ---------------------------------------------------------------- chunk insertion

  /** Inserting rows of one pack adds rows of that pack only. */
  lemma {:induction false} InsertChunksFrame(known: set<Hash>, chunks: map<Hash, ChunkRow>, pack: Hash, rows: seq<ChunkEntry>)
    requires InsertChunks(known, chunks, pack, rows).Some?
    ensures var c := InsertChunks(known, chunks, pack, rows).value;
            && (forall h :: h in chunks ==> h in c && c[h] == chunks[h])
            && (forall h :: h in c && h !in chunks ==> c[h].pack == pack && h in known)
  {
    if rows != [] {
      InsertChunksFrame(known, chunks, pack, rows[..|rows| - 1]);
    }
  }

  /** For a pack without rows yet, success means that exactly the given rows were stored. */
  lemma {:induction false} InsertChunksNew(known: set<Hash>, chunks: map<Hash, ChunkRow>, pack: Hash, rows: seq<ChunkEntry>)
    requires InsertChunks(known, chunks, pack, rows).Some? && Contiguous(rows)
    requires forall h :: h in chunks ==> chunks[h].pack != pack
    ensures var c := InsertChunks(known, chunks, pack, rows).value;
            && (forall i :: 0 <= i < |rows| ==> rows[i].hash in c && c[rows[i].hash] == rows[i].Row(pack))
            && (forall h :: h in c && c[h].pack == pack ==>
                  0 <= c[h].ordinal < |rows| && rows[c[h].ordinal].hash == h)
  {
    if rows != [] {
      var front, last := rows[..|rows| - 1], rows[|rows| - 1];
      InsertChunksNew(known, chunks, pack, front);
      var b := InsertChunks(known, chunks, pack, front).value;
      assert last.ordinal == |front|;
      assert last.hash !in b;
      var c := InsertChunks(known, chunks, pack, rows).value;
      assert c == b[last.hash := last.Row(pack)];
      forall i | 0 <= i < |rows| ensures rows[i].hash in c && c[rows[i].hash] == rows[i].Row(pack) {
        if i < |front| {
          assert rows[i] == front[i];
        }
      }
      forall h | h in c && c[h].pack == pack
        ensures 0 <= c[h].ordinal < |rows| && rows[c[h].ordinal].hash == h
      {
        if h != last.hash {
          assert front[c[h].ordinal].hash == h;
        }
      }
    }
  }

  /** For a pack that already has rows, success means that the given rows are the stored ones
      as far as they go, and that nothing was inserted. */
  lemma {:induction false} InsertChunksAgain(known: set<Hash>, chunks: map<Hash, ChunkRow>, pack: Hash,
                                             payload: int, stored: seq<ChunkEntry>, rows: seq<ChunkEntry>, n: nat)
    requires Layout(chunks, pack, payload, stored) && Tiling(rows, payload) && n <= |rows|
    requires InsertChunks(known, chunks, pack, rows[..n]).Some?
    ensures InsertChunks(known, chunks, pack, rows[..n]) == Some(chunks)
    ensures n <= |stored| && rows[..n] == stored[..n]
    decreases n
  {
    if n > 0 {
      var i := n - 1;
      assert rows[..n][..i] == rows[..i];
      InsertChunksAgain(known, chunks, pack, payload, stored, rows, i);
      SameRowNext(known, chunks, pack, payload, stored, rows, i);
      assert rows[..n] == rows[..i] + [rows[i]] && stored[..n] == stored[..i] + [stored[i]];
    }
  }

  /** A tiling cannot be a proper prefix of a tiling of the same payload. */
  lemma PrefixTilingIsWhole(a: seq<ChunkEntry>, b: seq<ChunkEntry>, payload: int)
    requires Tiling(a, payload) && Tiling(b, payload) && a <= b
    ensures a == b
  {
    if |a| < |b| {
      ContiguousAt(b, |a|);
    }
    assert b[..|b|] == b;
  }

  lemma SameRowNext(known: set<Hash>, chunks: map<Hash, ChunkRow>, pack: Hash,
                    payload: int, stored: seq<ChunkEntry>, rows: seq<ChunkEntry>, i: nat)
    requires Layout(chunks, pack, payload, stored) && Tiling(rows, payload)
    requires i < |rows| && i <= |stored| && rows[..i] == stored[..i]
    requires InsertChunk(known, chunks, pack, rows[i]).Some?
    ensures i < |stored| && rows[i] == stored[i]
    ensures InsertChunk(known, chunks, pack, rows[i]) == Some(chunks)
  {
    hide Contiguous;
    var row := rows[i];
    ContiguousAt(rows, i);
    if row.hash in chunks {
      assert chunks[row.hash] == row.Row(pack);
      assert stored[i].hash == row.hash;
      assert chunks[stored[i].hash] == stored[i].Row(pack);
    } else if i < |stored| {
      ContiguousAt(stored, i);
      assert OrdinalTaken(chunks, pack, row.ordinal) by {
        assert stored[i].hash in chunks;
      }
    } else {
      PrefixTilingIsWhole(stored, rows, payload);
    }
  }

  lemma ReinsertChunks(known: set<Hash>, chunks: map<Hash, ChunkRow>, pack: Hash,
                       payload: int, stored: seq<ChunkEntry>, rows: seq<ChunkEntry>)
    requires Layout(chunks, pack, payload, stored) && Tiling(rows, payload)
    requires InsertChunks(known, chunks, pack, rows).Some?
    ensures InsertChunks(known, chunks, pack, rows) == Some(chunks) && rows == stored
  {
    assert rows[..|rows|] == rows;
    InsertChunksAgain(known, chunks, pack, payload, stored, rows, |rows|);
    PrefixTilingIsWhole(rows, stored, payload);
  }

  // ---------------------------------------------------------------- shard insertion

  lemma {:induction false} InsertShardsNew(shards: map<(Hash, int), ShardRow>, pack: Hash, rows: seq<ShardEntry>, state: ProtectionState)
    requires InsertShards(shards, pack, rows, state).Some?
    requires forall i :: 0 <= i < |rows| ==> rows[i].index == i
    requires forall k: (Hash, int) :: k in shards ==> k.0 != pack
    ensures var s := InsertShards(shards, pack, rows, state).value;
            && (forall k: (Hash, int) :: k.0 != pack ==> (k in s <==> k in shards) && (k in s ==> s[k] == shards[k]))
            && (forall i :: (pack, i) in s <==> 0 <= i < |rows|)
            && (forall i :: 0 <= i < |rows| ==> s[(pack, i)] == rows[i].Row(state))
  {
    if rows != [] {
      var front, last := rows[..|rows| - 1], rows[|rows| - 1];
      InsertShardsNew(shards, pack, front, state);
      assert forall i :: 0 <= i < |front| ==> rows[i] == front[i];
    }
  }

  /** All shards are there already: nothing can be inserted. */
  lemma {:induction false} InsertShardsAgain(shards: map<(Hash, int), ShardRow>, pack: Hash, rows: seq<ShardEntry>, state: ProtectionState)
    requires InsertShards(shards, pack, rows, state).Some?
    requires forall i :: 0 <= i < |rows| ==> (pack, rows[i].index) in shards
    ensures InsertShards(shards, pack, rows, state) == Some(shards)
  {
    if rows != [] {
      InsertShardsAgain(shards, pack, rows[..|rows| - 1], state);
    }
  }

  // ---------------------------------------------------------------- frame

  /** A pack whose rows and shards are untouched stays good. */
  lemma PackGoodFrame(t: Tables, u: Tables, p: Hash)
    requires p in t.packs && PackGood(t, p)
    requires p in u.packs && u.packs[p].header == t.packs[p].header
    requires forall h :: h in t.chunks ==> h in u.chunks && u.chunks[h] == t.chunks[h]
    requires forall h :: h in u.chunks && h !in t.chunks ==> u.chunks[h].pack != p
    requires forall i :: (p, i) in u.shards <==> (p, i) in t.shards
    requires forall i :: (p, i) in t.shards ==> u.shards[(p, i)].node == t.shards[(p, i)].node
    ensures PackGood(u, p)
  {
    hide Tiling;
    var payload := t.packs[p].header.payload;
    var rows: seq<ChunkEntry> :| Layout(t.chunks, p, payload, rows);
    assert Layout(u.chunks, p, payload, rows);
  }

  // ---------------------------------------------------------------- the transactions

  /** Registering a pack again, with whatever chunk and shard lists, changes nothing or aborts;
      and it is accepted only for the chunk list that is already stored. */
  lemma ReregisterChangesNothing(t: Tables, spec: PackSpec)
    requires Inv(t) && spec.pack in t.packs && Register(t, spec).Some?
    ensures Register(t, spec) == Some(t)
    ensures forall e :: e in spec.chunks ==> e.hash in t.chunks && t.chunks[e.hash] == e.Row(spec.pack)
  {
    hide Tiling, SortBy, InsertChunks, InsertShards;
    var p := spec.pack;
    assert PackGood(t, p);
    var payload := spec.header.payload;
    var stored: seq<ChunkEntry> :| Layout(t.chunks, p, payload, stored);
    var rows := NormalizeChunks(spec.chunks, payload).value;
    ChunkNormalizationExact(spec.chunks, payload, rows);
    ReinsertChunks(t.known, t.chunks, p, payload, stored, rows);
    var shardRows := NormalizeShards(spec.shards, spec.header.TotalShards()).value;
    InsertShardsAgain(t.shards, p, shardRows, spec.state);
    forall e | e in spec.chunks ensures e.hash in t.chunks && t.chunks[e.hash] == e.Row(p) {
      assert e in multiset(rows);
      var i :| 0 <= i < |rows| && rows[i] == e;
    }
  }

  /** What registering a pack for the first time writes. */
  lemma RegisterNewWrites(t: Tables, spec: PackSpec)
    requires References(t) && spec.pack !in t.packs && Register(t, spec).Some?
    ensures var p, u := spec.pack, Register(t, spec).value;
            && u.known == t.known
            && u.packs == t.packs[p := PackRow(spec.header, spec.state, spec.epoch, None)]
            && (forall h :: h in t.chunks ==> h in u.chunks && u.chunks[h] == t.chunks[h])
            && (forall h :: h in u.chunks && h !in t.chunks ==> u.chunks[h].pack == p && h in t.known)
            && (forall k: (Hash, int) :: k.0 != p ==> (k in u.shards <==> k in t.shards) && (k in u.shards ==> u.shards[k] == t.shards[k]))
            && PackGood(u, p)
  {
    hide SortBy, InsertChunks, InsertShards;
    var p, u := spec.pack, Register(t, spec).value;
    var rows := NormalizeChunks(spec.chunks, spec.header.payload).value;
    var shardRows := NormalizeShards(spec.shards, spec.header.TotalShards()).value;
    InsertChunksFrame(t.known, t.chunks, p, rows);
    InsertChunksNew(t.known, t.chunks, p, rows);
    InsertShardsNew(t.shards, p, shardRows, spec.state);
    assert Layout(u.chunks, p, spec.header.payload, rows);
  }

  lemma RegisterNewKeepsInv(t: Tables, spec: PackSpec)
    requires Inv(t) && spec.pack !in t.packs && Register(t, spec).Some?
    ensures Inv(Register(t, spec).value) && Preserves(t, Register(t, spec).value)
  {
    hide Register, PackGood;
    var p, u := spec.pack, Register(t, spec).value;
    RegisterNewWrites(t, spec);
    forall q | q in t.packs ensures PackGood(u, q) {
      PackGoodFrame(t, u, q);
    }
    NewPackReferences(t, u, p);
  }

  lemma NewPackReferences(t: Tables, u: Tables, p: Hash)
    requires References(t) && u.known == t.known && u.packs.Keys == t.packs.Keys + {p}
    requires forall h :: h in u.chunks ==>
               (h in t.chunks && u.chunks[h] == t.chunks[h]) || (u.chunks[h].pack == p && h in t.known)
    requires forall k: (Hash, int) :: k in u.shards && k.0 != p ==> k in t.shards
    ensures References(u)
  {
  }

  lemma {:induction false} UpsertShardsResult(shards: map<(Hash, int), ShardRow>, pack: Hash, rows: seq<ShardEntry>, state: ProtectionState)
    requires forall i :: 0 <= i < |rows| ==> rows[i].index == i
    ensures var s := UpsertShards(shards, pack, rows, state);
            && (forall k: (Hash, int) :: k.0 != pack ==> (k in s <==> k in shards) && (k in s ==> s[k] == shards[k]))
            && (forall i :: 0 <= i < |rows| ==> (pack, i) in s && s[(pack, i)] == rows[i].Row(state))
  {
    if rows != [] {
      UpsertShardsResult(shards, pack, rows[..|rows| - 1], state);
      assert forall i :: 0 <= i < |rows| - 1 ==> rows[..|rows| - 1][i] == rows[i];
    }
  }

  /** What a push outcome writes. */
  lemma PushUpdateWrites(t: Tables, spec: PackSpec)
    requires PushUpdate(t, spec).Some?
    ensures var p, u := spec.pack, PushUpdate(t, spec).value;
            && u.known == t.known && u.chunks == t.chunks
            && p in t.packs && t.packs[p].header == spec.header
            && u.packs == t.packs[p := PackRow(spec.header, spec.state, spec.epoch, None)]
            && (forall k: (Hash, int) :: k.0 != p ==> (k in u.shards <==> k in t.shards) && (k in u.shards ==> u.shards[k] == t.shards[k]))
            && ShardsPlaced(u.shards, p, spec.header.TotalShards())
  {
    hide SortBy, NormalizeChunks, UpsertShards, ChunksMatch;
    var rows := NormalizeShards(spec.shards, spec.header.TotalShards()).value;
    UpsertShardsResult(t.shards, spec.pack, rows, spec.state);
  }

  lemma PushUpdateKeepsInv(t: Tables, spec: PackSpec)
    requires Inv(t) && PushUpdate(t, spec).Some?
    ensures Inv(PushUpdate(t, spec).value) && Preserves(t, PushUpdate(t, spec).value)
  {
    hide PushUpdate, Layout;
    var p, u := spec.pack, PushUpdate(t, spec).value;
    PushUpdateWrites(t, spec);
    assert PackGood(t, p);
    assert PackGood(u, p);
    forall q | q in u.packs && q != p ensures PackGood(u, q) {
      PackGoodFrame(t, u, q);
    }
  }

  lemma StateChangeKeepsInv(t: Tables, u: Tables)
    requires Inv(t) && u.known == t.known && u.chunks == t.chunks
    requires u.packs.Keys == t.packs.Keys && forall p :: p in t.packs ==> u.packs[p].header == t.packs[p].header
    requires u.shards.Keys == t.shards.Keys && forall k :: k in t.shards ==> u.shards[k].node == t.shards[k].node
    ensures Inv(u) && Preserves(t, u)
  {
    hide PackGood;
    forall q | q in u.packs ensures PackGood(u, q) {
      PackGoodFrame(t, u, q);
    }
  }

  lemma ChangeKeepsInv(t: Tables, c: Change)
    requires Inv(t) && ApplyChange(t, c).Some?
    ensures Inv(ApplyChange(t, c).value) && Preserves(t, ApplyChange(t, c).value)
  {
    hide Inv, PackGood;
    match c
    case Pushed(spec) => PushUpdateKeepsInv(t, spec);
    case PushFailed(pack, error) => StateChangeKeepsInv(t, PushError(t, pack, error).value);
    case Verified(v) => StateChangeKeepsInv(t, Verify(t, v).value);
  }

  lemma {:induction false} BatchKeepsInv(t: Tables, batch: seq<Change>)
    requires Inv(t) && ApplyBatch(t, batch).Some?
    ensures Inv(ApplyBatch(t, batch).value) && Preserves(t, ApplyBatch(t, batch).value)
    decreases batch
  {
    hide Inv, ApplyChange;
    if batch != [] {
      var front := batch[..|batch| - 1];
      BatchKeepsInv(t, front);
      ChangeKeepsInv(ApplyBatch(t, front).value, batch[|batch| - 1]);
    }
  }

  lemma KnownGrows(t: Tables, hashes: set<Hash>)
    requires Inv(t)
    ensures Inv(t.(known := t.known + hashes))
  {
    hide PackGood;
    var u := t.(known := t.known + hashes);
    forall q | q in u.packs ensures PackGood(u, q) {
      PackGoodFrame(t, u, q);
    }
  }

  /** Every transaction, committed or rolled back, keeps the invariant and everything that was
      assigned before it. */
  lemma CommitKeepsInv(t: Tables, x: Transaction)
    requires Inv(t)
    ensures Inv(Commit(t, x)) && Preserves(t, Commit(t, x))
  {
    hide Inv, Register, ApplyBatch;
    if Attempt(t, x).Some? {
      match x
      case ChunksRegistered(hashes) => KnownGrows(t, hashes);
      case PackRegistered(spec) =>
        if spec.pack in t.packs {
          ReregisterChangesNothing(t, spec);
        } else {
          RegisterNewKeepsInv(t, spec);
        }
      case Batch(changes) => BatchKeepsInv(t, changes);
    }
  }

  // ---------------------------------------------------------------- main results

  /** The invariant holds after every sequence of transactions. */
  lemma {:induction false} RunKeepsInv(xs: seq<Transaction>)
    ensures Inv(Run(EMPTY, xs))
  {
    if xs != [] {
      RunKeepsInv(xs[..|xs| - 1]);
      CommitKeepsInv(Run(EMPTY, xs[..|xs| - 1]), xs[|xs| - 1]);
    }
  }

  /** Over every run: a chunk keeps the one location it was first given, and a pack its
      header, whatever transactions follow. */
  lemma {:induction false} LocationsNeverChange(xs: seq<Transaction>, ys: seq<Transaction>)
    ensures Preserves(Run(EMPTY, xs), Run(EMPTY, xs + ys))
  {
    if ys == [] {
      assert xs + ys == xs;
    } else {
      var n := |ys| - 1;
      var front := xs + ys[..n];
      assert (xs + ys)[..|xs + ys| - 1] == front;
      LocationsNeverChange(xs, ys[..n]);
      RunKeepsInv(front);
      CommitKeepsInv(Run(EMPTY, front), ys[n]);
      PreservesTransitive(Run(EMPTY, xs), Run(EMPTY, front), Run(EMPTY, xs + ys));
    }
  }

  lemma PreservesTransitive(t: Tables, u: Tables, v: Tables)
    requires Preserves(t, u) && Preserves(u, v)
    ensures Preserves(t, v)
  {
  }

  /** The chunk of a pack that holds byte x of its payload. */
  ghost predicate Holds(row: ChunkRow, pack: Hash, x: int)
  {
    row.pack == pack && row.offset <= x < row.offset + row.length
  }

  lemma {:induction false} RowAtByte(rows: seq<ChunkEntry>, x: int) returns (i: nat)
    requires Contiguous(rows) && 0 <= x < EndOf(rows)
    ensures i < |rows| && rows[i].offset <= x < rows[i].offset + rows[i].length
    ensures forall j :: 0 <= j < |rows| && rows[j].offset <= x < rows[j].offset + rows[j].length ==> j == i
    decreases |rows|
  {
    var n := |rows| - 1;
    if x >= rows[n].offset {
      i := n;
      forall j | 0 <= j < n ensures rows[j].offset + rows[j].length <= rows[n].offset {
        ContiguousAt(rows[..n], j);
      }
    } else {
      i := RowAtByte(rows[..n], x);
    }
  }

  lemma LayoutPartitions(chunks: map<Hash, ChunkRow>, pack: Hash, payload: int, rows: seq<ChunkEntry>, x: int) returns (h: Hash)
    requires Layout(chunks, pack, payload, rows) && 0 <= x < payload
    ensures h in chunks && Holds(chunks[h], pack, x)
    ensures forall g :: g in chunks && Holds(chunks[g], pack, x) ==> g == h
  {
    hide Contiguous;
    var i := RowAtByte(rows, x);
    h := rows[i].hash;
    forall g | g in chunks && Holds(chunks[g], pack, x) ensures g == h {
      var j := chunks[g].ordinal;
      assert rows[j].hash == g && chunks[g] == rows[j].Row(pack);
    }
  }

  /** In every reachable state, each byte of a pack's payload lies in exactly one stored chunk
      of that pack. */
  lemma PayloadPartitioned(xs: seq<Transaction>, pack: Hash, x: int) returns (h: Hash)
    requires var t := Run(EMPTY, xs);
             pack in t.packs && 0 <= x < t.packs[pack].header.payload
    ensures var t := Run(EMPTY, xs);
            && h in t.chunks && Holds(t.chunks[h], pack, x)
            && forall g :: g in t.chunks && Holds(t.chunks[g], pack, x) ==> g == h
  {
    hide Layout, Run, References, Holds;
    RunKeepsInv(xs);
    var t := Run(EMPTY, xs);
    assert PackGood(t, pack);
    var rows: seq<ChunkEntry> :| Layout(t.chunks, pack, t.packs[pack].header.payload, rows);
    h := LayoutPartitions(t.chunks, pack, t.packs[pack].header.payload, rows, x);
  }
}
