/** Restoring a file through layered fetch and windowed prefetching. */
module Recovery {
  import opened Prelude
  import Fetch
  import Prefetch
  import Restore
  import RestoreRuns

  /** What one batched fetch returns in a fixed world. */
  ghost function FetchOf(w: Fetch.World): Prefetch.Fetch
  {
    (batch: seq<Hash>) => map h | h in batch :: w.Resolve(h)
  }

  /** Layered fetch answers by hash alone, so prefetching with any window hands on the same
      records. */
  lemma FetchIsDetermined(w: Fetch.World)
    ensures Prefetch.Determined(FetchOf(w), (h: Hash) => w.Resolve(h))
  {
  }

  /** The chunks of a recipe as they arrive in this world. */
  function SourceOf(w: Fetch.World, rows: seq<Restore.Entry>): Restore.Source
  {
    (k: nat) => if k < |rows| then w.Resolve(rows[k].hash) else None
  }

  lemma FetchDelivers(w: Fetch.World, rows: seq<Restore.Entry>)
    requires w.EcSound()
    ensures Restore.Delivers(w.hash, rows, SourceOf(w, rows))
  {
    forall k: nat | k < |rows| && SourceOf(w, rows)(k).Some?
      ensures w.hash(SourceOf(w, rows)(k).value) == rows[k].hash
    {
      Fetch.ResolvedBytesAreRight(w, rows[k].hash);
    }
  }

  /** When reading the recipe raises, restore goes as far as the prefetcher hands records on: to
      the end of the last full window or to the first chunk that cannot be had. */
  lemma ReachIsHandedOn(r: Restore.Recipe, v: nat, window: int, rows: seq<Prefetch.Row>, answer: Hash -> Option<Bytes>)
    requires r.broken && v <= |r.rows| && |rows| == |r.rows| - v
    ensures var n := |Prefetch.HandedOn(rows, answer, Max(window, 1))|;
            && v + n <= Restore.Reach(r, v, window)
            && (v + n < Restore.Reach(r, v, window) ==> answer(rows[n].hash).None?)
  {
    Prefetch.AvailableMeaning(rows[..|rows| - Prefetch.LeftOver(|rows|, Max(window, 1))], answer);
  }

  /** The strings that may be fetched for these rows are among those considered. */
  ghost predicate FetchedIn(u: Universe, w: Fetch.World, rows: seq<Restore.Entry>)
  {
    forall k: nat :: k < |rows| && w.Resolve(rows[k].hash).Some? ==> w.Resolve(rows[k].hash).value in u
  }

  /** A chunk that arrives is the chunk that was backed up. */
  lemma FetchedIsPart(u: Universe, w: Fetch.World, rows: seq<Restore.Entry>, parts: seq<Bytes>, k: nat)
    requires InjectiveOn(w.hash, u) && w.EcSound() && RestoreRuns.Describes(w.hash, rows, parts)
    requires PartsIn(u, parts) && FetchedIn(u, w, rows) && k < |rows| && w.Resolve(rows[k].hash).Some?
    ensures w.Resolve(rows[k].hash).value == parts[k] && |parts[k]| == rows[k].size
  {
    Fetch.ResolvedBytesAreRight(w, rows[k].hash);
  }

  /** One attempt at a file whose chunks come through all layers, from any partial file and with
      any prefetch window. It fails only for want of a chunk that no layer has, or because of the
      disk; and success means exactly the bytes that were backed up. */
  method RestoreThroughLayers(w: Fetch.World, r: Restore.Recipe, f: Restore.Handle, window: int, ghost u: Universe, ghost parts: seq<Bytes>)
    returns (outcome: Restore.Outcome)
    requires w.EcSound() && r.Consistent() && RestoreRuns.Describes(w.hash, r.rows, parts)
    requires InjectiveOn(w.hash, u) && PartsIn(u, parts) && FetchedIn(u, w, r.rows) && RestoreRuns.StretchesIn(u, f.content)
    modifies f
    ensures outcome.Restored? ==> f.content == Flatten(parts)
    ensures outcome.Restored? || outcome.WriteFailed? || outcome.ChunkMissing?
    ensures outcome.ChunkMissing? ==> outcome.k < |r.rows| && w.Resolve(r.rows[outcome.k].hash).None?
  {
    hide InjectiveOn, PartsIn, FetchedIn, RestoreRuns.StretchesIn, RestoreRuns.Describes, Flatten;
    FetchDelivers(w, r.rows);
    var source := SourceOf(w, r.rows);
    var result, reused, written := Restore.ResumeFile(w.hash, f, r, source, window);
    outcome := result;
    if outcome.Restored? {
      RestoreRuns.WholeIsLongest(w.hash, r.rows, f.content);
      SourceValuesIn(u, w, r.rows);
      RestoreRuns.FinishedInSight(w.hash, u, r.rows, parts, old(f.content), f.content, source, Restore.Longest(w.hash, r.rows, old(f.content)));
      RestoreRuns.WholeIsExact(w.hash, u, r.rows, parts, f.content);
    } else if outcome.ChunkSizeWrong? {
      FetchedIsPart(u, w, r.rows, parts, outcome.k);
      assert false;
    }
  }

  lemma SourceValuesIn(u: Universe, w: Fetch.World, rows: seq<Restore.Entry>)
    requires FetchedIn(u, w, rows)
    ensures forall k: nat :: k < |rows| && SourceOf(w, rows)(k).Some? ==> SourceOf(w, rows)(k).value in u
  {
  }
}
