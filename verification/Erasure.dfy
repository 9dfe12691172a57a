/** The erasure-pack tables of the catalog: row normalisation, the three kinds of transaction
    over them, and the invariant every sequence of transactions keeps. */
module Erasure {
  import opened Prelude
  import opened ProtectionPolicy
  import opened Sorting

  // ---------------------------------------------------------------- rows

  datatype Header = Header(codec: string, dataShards: int, parityShards: int, payload: int, padded: int, shardSize: int)
  {
    predicate Valid()
    {
      && codec != "" && dataShards > 0 && parityShards >= 0
      && payload >= 0 && padded >= 0 && shardSize > 0
      && padded == shardSize * dataShards && payload <= padded
    }

    function TotalShards(): int { dataShards + parityShards }
  }

  datatype PackRow = PackRow(header: Header, state: ProtectionState, epoch: Option<Epoch>, error: Option<string>)

  /** Keyed by chunk hash: a chunk has at most one location. */
  datatype ChunkRow = ChunkRow(pack: Hash, offset: int, length: int, ordinal: int)

  /** Keyed by (pack, shard index). */
  datatype ShardRow = ShardRow(hash: Hash, node: string, size: int, state: ProtectionState)

  /** known is the key set of the chunks table, which chunk rows must reference. */
  datatype Tables = Tables(
    known: set<Hash>,
    packs: map<Hash, PackRow>,
    chunks: map<Hash, ChunkRow>,
    shards: map<(Hash, int), ShardRow>)

  // ---------------------------------------------------------------- normalisation

  /** A chunk as a caller lists it. */
  datatype ChunkEntry = ChunkEntry(hash: Hash, offset: int, length: int, ordinal: int)
  {
    function Row(pack: Hash): ChunkRow { ChunkRow(pack, offset, length, ordinal) }
  }

  datatype ShardEntry = ShardEntry(index: int, hash: Hash, node: string, size: int)
  {
    function Row(state: ProtectionState): ShardRow { ShardRow(hash, node, size, state) }
  }

  function EndOf(rows: seq<ChunkEntry>): int
  {
    if rows == [] then 0 else rows[|rows| - 1].offset + rows[|rows| - 1].length
  }

  /** Ordinals count from 0 and each row starts where the previous one ends. */
  predicate Contiguous(rows: seq<ChunkEntry>)
  {
    rows == [] ||
    var last := rows[|rows| - 1];
    Contiguous(rows[..|rows| - 1])
    && last.length > 0 && last.ordinal == |rows| - 1 && last.offset == EndOf(rows[..|rows| - 1])
  }

  /** Rows in ordinal order that tile [0, payload). */
  predicate Tiling(rows: seq<ChunkEntry>, payload: int)
  {
    rows != [] && Contiguous(rows) && EndOf(rows) == payload
  }

  /** Sort by ordinal, then accept only an exact tiling of the payload. */
  function NormalizeChunks(entries: seq<ChunkEntry>, payload: int): Option<seq<ChunkEntry>>
  {
    var rows := SortBy(entries, (e: ChunkEntry) => e.ordinal);
    if Tiling(rows, payload) then Some(rows) else None
  }

  lemma {:induction false} ContiguousAt(rows: seq<ChunkEntry>, i: nat)
    requires Contiguous(rows) && i < |rows|
    ensures rows[i].ordinal == i && rows[i].length > 0
    ensures rows[i].offset == EndOf(rows[..i]) && 0 <= rows[i].offset
    ensures rows[i].offset + rows[i].length <= EndOf(rows)
    ensures Contiguous(rows[..i])
    decreases |rows|
  {
    var n := |rows| - 1;
    var front := rows[..n];
    if i < n {
      ContiguousAt(front, i);
      assert front[..i] == rows[..i];
    } else if n > 0 {
      ContiguousAt(front, n - 1);
    }
  }

  /** Normalisation accepts a list exactly when some rearrangement of it tiles the payload,
      and then returns that rearrangement: the order of the input never matters. */
  lemma ChunkNormalizationExact(entries: seq<ChunkEntry>, payload: int, rows: seq<ChunkEntry>)
    ensures NormalizeChunks(entries, payload) == Some(rows)
            <==> multiset(rows) == multiset(entries) && Tiling(rows, payload)
  {
    var key := (e: ChunkEntry) => e.ordinal;
    SortPermutes(entries, key);
    if multiset(rows) == multiset(entries) && Tiling(rows, payload) {
      forall i | 0 <= i < |rows| ensures key(rows[i]) == i {
        ContiguousAt(rows, i);
      }
      SortFindsNumbering(entries, rows, key);
    }
  }

  /** Exactly the indexes 0..total-1, in order, on distinct nodes. */
  predicate ShardsComplete(rows: seq<ShardEntry>, total: int)
  {
    && |rows| == total
    && (forall i :: 0 <= i < |rows| ==> rows[i].index == i && rows[i].node != "" && rows[i].size > 0)
    && (forall i, j :: 0 <= i < j < |rows| ==> rows[i].node != rows[j].node)
  }

  function NormalizeShards(entries: seq<ShardEntry>, total: int): Option<seq<ShardEntry>>
  {
    var rows := SortBy(entries, (e: ShardEntry) => e.index);
    if ShardsComplete(rows, total) then Some(rows) else None
  }

  lemma ShardNormalizationExact(entries: seq<ShardEntry>, total: int, rows: seq<ShardEntry>)
    ensures NormalizeShards(entries, total) == Some(rows)
            <==> multiset(rows) == multiset(entries) && ShardsComplete(rows, total)
  {
    var key := (e: ShardEntry) => e.index;
    SortPermutes(entries, key);
    if multiset(rows) == multiset(entries) && ShardsComplete(rows, total) {
      SortFindsNumbering(entries, rows, key);
    }
  }

  // ---------------------------------------------------------------- registering a pack

  /** UNIQUE(pack_hash, chunk_ordinal) */
  predicate OrdinalTaken(chunks: map<Hash, ChunkRow>, pack: Hash, ordinal: int)
  {
    exists h :: h in chunks && chunks[h].pack == pack && chunks[h].ordinal == ordinal
  }

  /** None is an abort: the chunk has another location, is unknown, or its ordinal is taken. */
  function InsertChunk(known: set<Hash>, chunks: map<Hash, ChunkRow>, pack: Hash, row: ChunkEntry)
    : Option<map<Hash, ChunkRow>>
  {
    if row.hash in chunks then
      if chunks[row.hash] == row.Row(pack) then Some(chunks) else None
    else if row.hash !in known || OrdinalTaken(chunks, pack, row.ordinal) then None
    else Some(chunks[row.hash := row.Row(pack)])
  }

  function InsertChunks(known: set<Hash>, chunks: map<Hash, ChunkRow>, pack: Hash, rows: seq<ChunkEntry>)
    : Option<map<Hash, ChunkRow>>
  {
    if rows == [] then Some(chunks)
    else
      var before := InsertChunks(known, chunks, pack, rows[..|rows| - 1]);
      if before.None? then None else InsertChunk(known, before.value, pack, rows[|rows| - 1])
  }

  function InsertShard(shards: map<(Hash, int), ShardRow>, pack: Hash, row: ShardEntry, state: ProtectionState)
    : Option<map<(Hash, int), ShardRow>>
  {
    var key := (pack, row.index);
    if key in shards then
      if shards[key].(state := state) == row.Row(state) then Some(shards) else None
    else Some(shards[key := row.Row(state)])
  }

  function InsertShards(shards: map<(Hash, int), ShardRow>, pack: Hash, rows: seq<ShardEntry>, state: ProtectionState)
    : Option<map<(Hash, int), ShardRow>>
  {
    if rows == [] then Some(shards)
    else
      var before := InsertShards(shards, pack, rows[..|rows| - 1], state);
      if before.None? then None else InsertShard(before.value, pack, rows[|rows| - 1], state)
  }

  /** What a caller says about a pack. */
  datatype PackSpec = PackSpec(
    pack: Hash, header: Header, chunks: seq<ChunkEntry>, shards: seq<ShardEntry>,
    state: ProtectionState, epoch: Option<Epoch>)

  /** An already registered pack must have the same header and is then left as it is. */
  function InsertPack(packs: map<Hash, PackRow>, spec: PackSpec): Option<map<Hash, PackRow>>
  {
    if spec.pack in packs then
      if packs[spec.pack].header == spec.header then Some(packs) else None
    else Some(packs[spec.pack := PackRow(spec.header, spec.state, spec.epoch, None)])
  }

  /** The transaction; None means nothing was written. */
  function Register(t: Tables, spec: PackSpec): Option<Tables>
  {
    var chunkRows := NormalizeChunks(spec.chunks, spec.header.payload);
    var shardRows := NormalizeShards(spec.shards, spec.header.TotalShards());
    if !spec.header.Valid() || chunkRows.None? || shardRows.None? then None
    else
      var packs := InsertPack(t.packs, spec);
      var chunks := InsertChunks(t.known, t.chunks, spec.pack, chunkRows.value);
      var shards := InsertShards(t.shards, spec.pack, shardRows.value, spec.state);
      if packs.None? || chunks.None? || shards.None? then None
      else Some(Tables(t.known, packs.value, chunks.value, shards.value))
  }

  // ---------------------------------------------------------------- push and verification

  /** The stored rows of the pack, in ordinal order, are exactly these. */
  predicate ChunksMatch(chunks: map<Hash, ChunkRow>, pack: Hash, rows: seq<ChunkEntry>)
  {
    && (forall i :: 0 <= i < |rows| ==> rows[i].hash in chunks && chunks[rows[i].hash] == rows[i].Row(pack))
    && (forall h :: h in chunks && chunks[h].pack == pack ==> exists i :: 0 <= i < |rows| && rows[i].hash == h)
  }

  function UpsertShards(shards: map<(Hash, int), ShardRow>, pack: Hash, rows: seq<ShardEntry>, state: ProtectionState)
    : map<(Hash, int), ShardRow>
  {
    if rows == [] then shards
    else
      var row := rows[|rows| - 1];
      UpsertShards(shards, pack, rows[..|rows| - 1], state)[(pack, row.index) := row.Row(state)]
  }

  function DropUnseenShards(shards: map<(Hash, int), ShardRow>, pack: Hash, total: int): map<(Hash, int), ShardRow>
  {
    map k | k in shards && (k.0 != pack || 0 <= k.1 < total) :: shards[k]
  }

  /** Push outcome of a registered pack: state, epoch and the whole shard placement change. */
  function PushUpdate(t: Tables, spec: PackSpec): Option<Tables>
  {
    var chunkRows := NormalizeChunks(spec.chunks, spec.header.payload);
    var shardRows := NormalizeShards(spec.shards, spec.header.TotalShards());
    if spec.state.PENDING? || spec.state.VERIFIED? || !spec.header.Valid() then None
    else if chunkRows.None? || shardRows.None? || spec.pack !in t.packs then None
    else if t.packs[spec.pack].header != spec.header || !ChunksMatch(t.chunks, spec.pack, chunkRows.value) then None
    else
      Some(t.(packs := t.packs[spec.pack := PackRow(spec.header, spec.state, spec.epoch, None)],
              shards := DropUnseenShards(
                UpsertShards(t.shards, spec.pack, shardRows.value, spec.state), spec.pack, |shardRows.value|)))
  }

  /** A local push failure leaves the remote evidence alone. */
  function PushError(t: Tables, pack: Hash, error: string): Option<Tables>
  {
    if error == "" || pack !in t.packs then None
    else Some(t.(packs := t.packs[pack := t.packs[pack].(error := Some(error))]))
  }

  datatype Verification = Verification(pack: Hash, state: ProtectionState, verified: set<int>, error: Option<string>)

  function Verify(t: Tables, v: Verification): Option<Tables>
  {
    if v.state.PENDING? || v.state.PLACED? || v.pack !in t.packs || (exists i :: i in v.verified && i < 0) then None
    else
      var missing := if v.state.FAILED? then FAILED else DEGRADED;
      Some(t.(packs := t.packs[v.pack := t.packs[v.pack].(state := v.state, error := v.error)],
              shards := map k | k in t.shards ::
                if k.0 != v.pack then t.shards[k]
                else t.shards[k].(state := if k.1 in v.verified then VERIFIED else missing)))
  }

  // ---------------------------------------------------------------- batches and runs

  datatype Change =
    | Pushed(spec: PackSpec)
    | PushFailed(pack: Hash, error: string)
    | Verified(v: Verification)

  function ApplyChange(t: Tables, c: Change): Option<Tables>
  {
    match c
    case Pushed(spec) => PushUpdate(t, spec)
    case PushFailed(pack, error) => PushError(t, pack, error)
    case Verified(v) => Verify(t, v)
  }

  /** All changes of a batch, or none. */
  function ApplyBatch(t: Tables, batch: seq<Change>): Option<Tables>
  {
    if batch == [] then Some(t)
    else
      var before := ApplyBatch(t, batch[..|batch| - 1]);
      if before.None? then None else ApplyChange(before.value, batch[|batch| - 1])
  }

  /** Backups register chunks; the other two are the erasure transactions. */
  datatype Transaction = ChunksRegistered(hashes: set<Hash>) | PackRegistered(spec: PackSpec) | Batch(changes: seq<Change>)

  function Attempt(t: Tables, x: Transaction): Option<Tables>
  {
    match x
    case ChunksRegistered(hashes) => Some(t.(known := t.known + hashes))
    case PackRegistered(spec) => Register(t, spec)
    case Batch(changes) => ApplyBatch(t, changes)
  }

  /** Commit or roll back. */
  function Commit(t: Tables, x: Transaction): Tables
  {
    var r := Attempt(t, x);
    if r.Some? then r.value else t
  }

  function Run(t: Tables, xs: seq<Transaction>): Tables
  {
    if xs == [] then t else Commit(Run(t, xs[..|xs| - 1]), xs[|xs| - 1])
  }

  const EMPTY := Tables({}, map[], map[], map[])
}
