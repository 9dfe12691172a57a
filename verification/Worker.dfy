/** The loop a worker runs over the chunks of one file, with nobody interfering. */
module Worker {
  import opened Prelude
  import opened ProtectionPolicy
  import opened CatalogInvariant
  import opened ChunkCache
  import R = Recipes

  /** The chunk store as far as a worker sees it: a chunk is there or not. */
  class Store {
    var objects: map<Hash, Bytes>

    /** Stores a chunk unless it is there; tells whether it wrote. */
    method Put(h: Hasher, raw: Bytes) returns (written: bool)
      modifies this
      ensures written == (h(raw) !in old(objects))
      ensures objects == if written then old(objects)[h(raw) := raw] else old(objects)
    {
      written := h(raw) !in objects;
      if written {
        objects := objects[h(raw) := raw];
      }
    }
  }

  datatype Stats = Stats(total: nat, processed: nat, skippedLocal: nat, skippedRemote: nat, written: nat)
  {
    function Skipped(): nat { skippedLocal + skippedRemote }
  }

  /** The first n chunks are stored or were skipped on remote evidence. */
  ghost predicate Safe(h: Hasher, policy: Policy, rows: map<Hash, Record>, parts: seq<Bytes>, n: nat, objects: map<Hash, Bytes>)
  {
    n <= |parts| && forall k :: 0 <= k < n ==>
      h(parts[k]) in objects || (MaySkipRemote(policy) && Evidence(policy, rows, h(parts[k])))
  }

  /** Nothing but chunks of the file is added. */
  ghost predicate OnlyParts(h: Hasher, parts: seq<Bytes>, before: map<Hash, Bytes>, after: map<Hash, Bytes>)
  {
    && (forall x :: x in before ==> x in after && after[x] == before[x])
    && (forall x :: x in after && x !in before ==> exists k :: 0 <= k < |parts| && x == h(parts[k]) && after[x] == parts[k])
  }

  lemma SafeAfter(h: Hasher, policy: Policy, rows: map<Hash, Record>, parts: seq<Bytes>, n: nat, before: map<Hash, Bytes>, after: map<Hash, Bytes>)
    requires n < |parts| && Safe(h, policy, rows, parts, n, before) && before.Keys <= after.Keys
    requires h(parts[n]) in after || (MaySkipRemote(policy) && Evidence(policy, rows, h(parts[n])))
    ensures Safe(h, policy, rows, parts, n + 1, after)
  {
    hide Evidence;
  }

  /** Adding a chunk of the file adds nothing but chunks of the file. */
  lemma OnlyPartsAfter(h: Hasher, parts: seq<Bytes>, n: nat, start: map<Hash, Bytes>, before: map<Hash, Bytes>, after: map<Hash, Bytes>)
    requires n < |parts| && OnlyParts(h, parts, start, before)
    requires after == before || (h(parts[n]) !in before && after == before[h(parts[n]) := parts[n]])
    ensures OnlyParts(h, parts, start, after)
  {
    if after != before {
      assert after[h(parts[n])] == parts[n];
    }
  }

  lemma OneMoreObject(objects: map<Hash, Bytes>, x: Hash, raw: Bytes)
    requires x !in objects
    ensures |objects[x := raw]| == |objects| + 1 && objects[x := raw].Keys == objects.Keys + {x}
  {
    assert objects[x := raw].Keys == objects.Keys + {x};
    assert |objects[x := raw]| == |objects[x := raw].Keys| && |objects| == |objects.Keys|;
  }

  predicate MaySkipRemote(policy: Policy) { policy.fastPath && !policy.safeMode && policy.allowRemote }

  /** One chunk: decide, and store it if that was the decision. */
  method HandleChunk(h: Hasher, policy: Policy, rows: map<Hash, Record>, chunk: Bytes, store: Store, local: FastBoolCache, remote: FastBoolCache)
    returns (d: Decision, wrote: bool)
    requires local != remote && local.Bounded() && remote.Bounded()
    requires Agrees(local.data, Stored(store.objects.Keys)) && Agrees(remote.data, Protected(policy, rows))
    modifies store, local`data, local`writeOps, remote`data, remote`writeOps
    ensures d == Uncached(policy, old(store.objects).Keys, rows, h(chunk))
    ensures store.objects == if wrote then old(store.objects)[h(chunk) := chunk] else old(store.objects)
    ensures wrote <==> d.Process? && h(chunk) !in old(store.objects)
    ensures |store.objects| == |old(store.objects)| + if wrote then 1 else 0
    ensures local.Bounded() && remote.Bounded()
    ensures Agrees(local.data, Stored(store.objects.Keys)) && Agrees(remote.data, Protected(policy, rows))
  {
    hide Evidence, Agrees, Protected, Stored;
    wrote := false;
    d := Decide(policy, store.objects.Keys, rows, h(chunk), local, remote);
    if d.Process? {
      ghost var before := store.objects;
      wrote := store.Put(h, chunk);
      NotePut(before.Keys, h(chunk), local);
      if h(chunk) !in before {
        OneMoreObject(before, h(chunk), chunk);
      } else {
        assert before.Keys + {h(chunk)} == before.Keys;
      }
    }
  }

  function Counted(s: Stats, d: Decision, wrote: bool): Stats
  {
    match d
    case Process => s.(total := s.total + 1, processed := s.processed + 1, written := s.written + if wrote then 1 else 0)
    case SkipLocal => s.(total := s.total + 1, skippedLocal := s.skippedLocal + 1)
    case SkipSynced => s.(total := s.total + 1, skippedRemote := s.skippedRemote + 1)
  }

  /** Processes the chunks of one file. The recipe is that of the file, the counters add up, and
      every chunk ends up in the store unless remote evidence allowed skipping it. */
  method ProcessFile(h: Hasher, policy: Policy, rows: map<Hash, Record>, parts: seq<Bytes>, store: Store,
                     local: FastBoolCache, remote: FastBoolCache) returns (recipe: seq<R.Row>, fileSize: nat, stats: Stats)
    requires local != remote && local.Bounded() && remote.Bounded()
    requires Agrees(local.data, Stored(store.objects.Keys)) && Agrees(remote.data, Protected(policy, rows))
    modifies store, local`data, local`writeOps, remote`data, remote`writeOps
    ensures recipe == RowsOf(h, parts) && fileSize == |Flatten(parts)|
    ensures Safe(h, policy, rows, parts, |parts|, store.objects)
    ensures OnlyParts(h, parts, old(store.objects), store.objects)
    ensures stats.total == |parts| == stats.processed + stats.Skipped() && stats.written <= stats.processed
    ensures |store.objects| == |old(store.objects)| + stats.written
    ensures !MaySkipRemote(policy) ==>
              stats.skippedRemote == 0 && forall k :: 0 <= k < |parts| ==> h(parts[k]) in store.objects
    ensures Agrees(local.data, Stored(store.objects.Keys)) && local.Bounded()
  {
    hide *;
    recipe, fileSize, stats := [], 0, Stats(0, 0, 0, 0, 0);
    NothingYet(h, policy, rows, parts, store.objects);
    for n := 0 to |parts|
      invariant Progress(h, policy, rows, parts, n, old(store.objects), store.objects, recipe, fileSize, stats)
      invariant local.Bounded() && remote.Bounded()
      invariant Agrees(local.data, Stored(store.objects.Keys)) && Agrees(remote.data, Protected(policy, rows))
    {
      ghost var before := store.objects;
      var d, wrote := HandleChunk(h, policy, rows, parts[n], store, local, remote);
      ProgressNext(h, policy, rows, parts, n, old(store.objects), before, store.objects, recipe, fileSize, stats, d, wrote);
      stats := Counted(stats, d, wrote);
      recipe := recipe + [R.Row(n, h(parts[n]), |parts[n]|)];
      fileSize := fileSize + |parts[n]|;
    }
    ProgressDone(h, policy, rows, parts, old(store.objects), store.objects, recipe, fileSize, stats);
  }

  /** Where the loop stands after n chunks. */
  ghost predicate Progress(h: Hasher, policy: Policy, rows: map<Hash, Record>, parts: seq<Bytes>, n: nat,
                           start: map<Hash, Bytes>, objects: map<Hash, Bytes>, recipe: seq<R.Row>, fileSize: nat, stats: Stats)
  {
    && n <= |parts| && recipe == RowsOf(h, parts[..n]) && fileSize == |Flatten(parts[..n])|
    && Safe(h, policy, rows, parts, n, objects) && OnlyParts(h, parts, start, objects)
    && stats.total == n == stats.processed + stats.Skipped() && stats.written <= stats.processed
    && |objects| == |start| + stats.written
    && (!MaySkipRemote(policy) ==> stats.skippedRemote == 0)
  }

  lemma ProgressNext(h: Hasher, policy: Policy, rows: map<Hash, Record>, parts: seq<Bytes>, n: nat,
                     start: map<Hash, Bytes>, before: map<Hash, Bytes>, after: map<Hash, Bytes>,
                     recipe: seq<R.Row>, fileSize: nat, stats: Stats, d: Decision, wrote: bool)
    requires n < |parts| && Progress(h, policy, rows, parts, n, start, before, recipe, fileSize, stats)
    requires d == Uncached(policy, before.Keys, rows, h(parts[n])) && (wrote <==> d.Process? && h(parts[n]) !in before)
    requires after == (if wrote then before[h(parts[n]) := parts[n]] else before) && |after| == |before| + if wrote then 1 else 0
    ensures Progress(h, policy, rows, parts, n + 1, start, after, recipe + [R.Row(n, h(parts[n]), |parts[n]|)],
                     fileSize + |parts[n]|, Counted(stats, d, wrote))
  {
    hide OnlyParts, Safe, Evidence, RowsOf, Flatten;
    SafeAfter(h, policy, rows, parts, n, before, after);
    OnlyPartsAfter(h, parts, n, start, before, after);
    RowsOfNext(h, parts, n);
  }

  lemma ProgressDone(h: Hasher, policy: Policy, rows: map<Hash, Record>, parts: seq<Bytes>,
                     start: map<Hash, Bytes>, objects: map<Hash, Bytes>, recipe: seq<R.Row>, fileSize: nat, stats: Stats)
    requires Progress(h, policy, rows, parts, |parts|, start, objects, recipe, fileSize, stats)
    ensures recipe == RowsOf(h, parts) && fileSize == |Flatten(parts)|
    ensures Safe(h, policy, rows, parts, |parts|, objects) && OnlyParts(h, parts, start, objects)
    ensures stats.total == |parts| == stats.processed + stats.Skipped() && stats.written <= stats.processed
    ensures |objects| == |start| + stats.written
    ensures !MaySkipRemote(policy) ==> stats.skippedRemote == 0 && forall k :: 0 <= k < |parts| ==> h(parts[k]) in objects
  {
    hide OnlyParts, Safe, Evidence, RowsOf, Flatten;
    assert parts[..|parts|] == parts;
    SafeMeans(h, policy, rows, parts, objects);
  }

  lemma SafeMeans(h: Hasher, policy: Policy, rows: map<Hash, Record>, parts: seq<Bytes>, objects: map<Hash, Bytes>)
    requires Safe(h, policy, rows, parts, |parts|, objects)
    ensures !MaySkipRemote(policy) ==> forall k :: 0 <= k < |parts| ==> h(parts[k]) in objects
  {
    hide Evidence;
  }

  lemma RowsOfNext(h: Hasher, parts: seq<Bytes>, n: nat)
    requires n < |parts|
    ensures RowsOf(h, parts[..n + 1]) == RowsOf(h, parts[..n]) + [R.Row(n, h(parts[n]), |parts[n]|)]
    ensures |Flatten(parts[..n + 1])| == |Flatten(parts[..n])| + |parts[n]|
  {
    assert parts[..n + 1] == parts[..n] + [parts[n]];
    FlattenSnoc(parts[..n], parts[n]);
  }

  lemma NothingYet(h: Hasher, policy: Policy, rows: map<Hash, Record>, parts: seq<Bytes>, objects: map<Hash, Bytes>)
    ensures Progress(h, policy, rows, parts, 0, objects, objects, [], 0, Stats(0, 0, 0, 0, 0))
  {
  }
}
