/** From backup to restore: files of complete snapshots can be restored from the local store,
    byte for byte, after any sequence of backups, failures and collections. */
module EndToEnd {
  import opened Prelude
  import opened Catalog
  import opened CatalogInvariant
  import opened ChunkCache
  import opened Backup
  import opened BackupInvariant
  import opened BackupCoordinator
  import opened BackupReuse
  import opened BackupRuns
  import opened BackupHistory
  import P = Protection
  import R = Recipes
  import Restore
  import RestoreRuns

  // ---------------------------------------------------------------- without remote skipping

  /** No backup may skip chunks because of remote evidence. */
  ghost predicate LocalOnly(events: seq<Event>)
  {
    forall e :: e in events && e.Idle? && e.i.Begins? ==> !e.i.policy.allowRemote
  }

  ghost predicate NoTrust(s: Sys)
  {
    s.trusted == {} && (s.run.Some? ==> !s.run.value.policy.allowRemote)
  }

  lemma WorkerKeepsNoTrust(env: Env, s: Sys, run: Run, i: Id, breaks: bool)
    requires NoTrust(s) && s.run == Some(run)
    ensures NoTrust(Work(env, s, run, i, breaks))
  {
    hide Fits, Evidence, StoreNext, LocalNext, RemoteNext;
  }

  lemma CoordinatorKeepsNoTrust(env: Env, s: Sys, run: Run, e: CoordinatorEvent)
    requires NoTrust(s) && s.run == Some(run)
    ensures NoTrust(CoordinatorStep(env, s, run, e))
  {
    hide AddItems, Reuse, Consolidate, Finish, Fail, OriginAfter, Reused, ToRead, ReusedSize;
  }

  lemma StepKeepsNoTrust(env: Env, s: Sys, e: Event)
    requires NoTrust(s) && LocalOnly([e])
    ensures NoTrust(Step(env, s, e))
  {
    hide CoordinatorStep, Work, PreviousBelow, Swept, P.Commit;
    match e
    case Coordinator(c) => if s.run.Some? { CoordinatorKeepsNoTrust(env, s, s.run.value, c); }
    case WorkerActs(item, breaks) => if s.run.Some? { WorkerKeepsNoTrust(env, s, s.run.value, item, breaks); }
    case Idle(i) => assert e in [e];
    case Ambient(_) =>
  }

  lemma {:induction false} NothingTrusted(env: Env, events: seq<Event>)
    requires LocalOnly(events)
    ensures NoTrust(Execute(env, events))
  {
    if events != [] {
      hide NoTrust, Step;
      var n := |events| - 1;
      assert events[n] in events;
      NothingTrusted(env, events[..n]);
      StepKeepsNoTrust(env, Execute(env, events[..n]), events[n]);
    }
  }

  // ---------------------------------------------------------------- recipes as restore sees them

  function Entries(rows: seq<R.Row>): seq<Restore.Entry>
    requires Contiguous(rows)
  {
    seq(|rows|, k requires 0 <= k < |rows| => Restore.Entry(rows[k].hash, rows[k].size))
  }

  function ForRestore(r: Recipe): Restore.Recipe
    requires Contiguous(r.rows)
  {
    Restore.Recipe(Entries(r.rows), false, r.count, r.size)
  }

  lemma {:induction false} OffsetIsTotal(rows: seq<R.Row>, n: nat)
    requires Contiguous(rows) && n <= |rows|
    ensures Restore.Offset(Entries(rows), n) == TotalSize(rows[..n])
  {
    if n > 0 {
      OffsetIsTotal(rows, n - 1);
      assert rows[..n][..n - 1] == rows[..n - 1];
    }
  }

  /** A stored recipe is consistent and describes the chunks of the content it came from. */
  lemma StoredRecipe(env: Env, c: Catalog, origin: map<Id, Bytes>, r: Id)
    requires GoodEnv(env) && RecipeTables(env.hash, env.universe, env.split, c, origin) && r in c.recipes
    ensures r in origin && Contiguous(c.recipes[r].rows)
    ensures ForRestore(c.recipes[r]).Consistent()
    ensures RestoreRuns.Describes(env.hash, ForRestore(c.recipes[r]).rows, env.split(origin[r]))
    ensures c.recipes[r].size == |origin[r]| && PartsIn(env.universe, env.split(origin[r]))
  {
    hide IndexGood, SizesGenuine, Fits, RecipeName, PartsIn;
    FitsStored(env, c, origin, r);
    var rows := c.recipes[r].rows;
    assert RecipeGood(env.hash, env.universe, env.split, c.recipes[r], c.chunks, origin[r]);
    RowsContiguous(env.hash, env.split, origin[r]);
    OffsetIsTotal(rows, |rows|);
    assert rows[..|rows|] == rows;
    var parts := env.split(origin[r]);
    RestoreRuns.FlattenIsWhole(env.hash, Entries(rows), parts, |parts|);
    assert parts[..|parts|] == parts;
  }

  lemma FitsStored(env: Env, c: Catalog, origin: map<Id, Bytes>, r: Id)
    requires RecipeTables(env.hash, env.universe, env.split, c, origin) && r in c.recipes
    ensures r in origin && PartsIn(env.universe, env.split(origin[r]))
  {
    assert RecipeGood(env.hash, env.universe, env.split, c.recipes[r], c.chunks, origin[r]);
  }

  // ---------------------------------------------------------------- the theorem

  /** The file belongs to a complete snapshot. */
  predicate InCompleteSnapshot(c: Catalog, i: Id)
  {
    i in c.items && c.items[i].isFile && c.items[i].snapshot in c.snapshots && c.snapshots[c.items[i].snapshot].status == COMPLETE
  }

  /** The bytes a file's recipe was computed from. */
  ghost function ContentOf(s: Sys, i: Id): Bytes
    requires i in s.cat.items && s.cat.items[i].recipe.Some? && s.cat.items[i].recipe.value in s.origin
  {
    s.origin[s.cat.items[i].recipe.value]
  }

  lemma CompleteItem(env: Env, s: Sys, i: Id)
    requires SysInv(env, s) && InCompleteSnapshot(s.cat, i)
    ensures Live(s.cat, i) && s.cat.items[i].recipe.value in s.origin && RowsKept(RowsOfItem(s.cat, i), s.cas.Keys + s.trusted)
  {
    hide CasGood, RunInv, RowsKept, FileItems, RecipeGood, IndexGood, SizesGenuine;
    assert ItemGood(s.cat, i) && SnapshotGood(s.cat, s.cat.items[i].snapshot);
    FileItemIsFile(s.cat.items, s.cat.items[i].snapshot, i);
  }

  /** In every reachable state, every chunk of every file of a complete snapshot is in the
      local store, under its own hash and with the size the recipe records. */
  lemma CompleteFilesAreStored(env: Env, events: seq<Event>, i: Id)
    requires GoodEnv(env) && AllExpected(env, events) && LocalOnly(events) && InCompleteSnapshot(Execute(env, events).cat, i)
    ensures var s := Execute(env, events);
            && Live(s.cat, i) && s.cat.items[i].recipe.value in s.origin
            && Contiguous(RowsOfItem(s.cat, i))
            && forall k :: 0 <= k < |RowsOfItem(s.cat, i)| ==>
                 var row := RowsOfItem(s.cat, i)[k];
                 row.hash in s.cas && env.hash(s.cas[row.hash]) == row.hash && |s.cas[row.hash]| == row.size && s.cas[row.hash] in env.universe
  {
    hide Execute, RunInv, RecipeTables, ItemTables, LiveKept, Live;
    ExecuteKeepsInv(env, events);
    NothingTrusted(env, events);
    var s := Execute(env, events);
    CompleteItem(env, s, i);
    LiveHasRecipe(s.cat, i);
    StoredRecipe(env, s.cat, s.origin, s.cat.items[i].recipe.value);
    forall k | 0 <= k < |RowsOfItem(s.cat, i)|
      ensures var row := RowsOfItem(s.cat, i)[k];
              row.hash in s.cas && env.hash(s.cas[row.hash]) == row.hash && |s.cas[row.hash]| == row.size && s.cas[row.hash] in env.universe
    {
      var row := RowsOfItem(s.cat, i)[k];
      assert row.hash in s.cas.Keys + s.trusted;
      RowSize(env, s, i, k);
    }
  }

  /** The stored object has the size its recipe row says. */
  lemma RowSize(env: Env, s: Sys, i: Id, k: nat)
    requires GoodEnv(env) && RecipeTables(env.hash, env.universe, env.split, s.cat, s.origin) && CasGood(env, s.cas)
    requires Live(s.cat, i) && s.cat.items[i].recipe.value in s.origin && k < |RowsOfItem(s.cat, i)| && RowsOfItem(s.cat, i)[k].hash in s.cas
    ensures |s.cas[RowsOfItem(s.cat, i)[k].hash]| == RowsOfItem(s.cat, i)[k].size
  {
    hide RecipeTables;
    var r := s.cat.items[i].recipe.value;
    RecipeRowsKnown(env.hash, env.universe, env.split, s.cat, s.origin, r);
    FitsStored(env, s.cat, s.origin, r);
    var part := env.split(s.origin[r])[k];
    assert env.hash(s.cas[env.hash(part)]) == env.hash(part);
  }

  /** Chunks straight from the local store. */
  function FromStore(cas: map<Hash, Bytes>, rows: seq<R.Row>): Restore.Source
  {
    (k: nat) => if k < |rows| && rows[k].hash in cas then Some(cas[rows[k].hash]) else None
  }

  /** Restoring any file of any complete snapshot from the local store, in any reachable state
      and from any partial file. It is refused exactly when the size recorded for the item is
      not that of the content its recipe was computed from; otherwise only the disk being
      written to can fail, and success means exactly that content. */
  method RestoreFile(ghost env: Env, ghost events: seq<Event>, hash: Hasher, c: Catalog, cas: map<Hash, Bytes>, i: Id, f: Restore.Handle,
                     window: int)
    returns (outcome: Option<Restore.Outcome>)
    requires GoodEnv(env) && AllExpected(env, events) && LocalOnly(events) && hash == env.hash
    requires c == Execute(env, events).cat && cas == Execute(env, events).cas && InCompleteSnapshot(c, i)
    requires RestoreRuns.StretchesIn(env.universe, f.content)
    modifies f
    ensures var s := Execute(env, events);
            && c.items[i].recipe.Some? && c.items[i].recipe.value in s.origin
            && (outcome.None? <==> c.items[i].stat.size != |ContentOf(s, i)|)
            && (outcome.None? ==> f.content == old(f.content))
            && (outcome.Some? ==> outcome.value.Restored? || outcome.value.WriteFailed?)
            && (outcome == Some(Restore.Restored) ==> f.content == ContentOf(s, i))
  {
    hide Execute, GoodEnv, LocalOnly, Live;
    CompleteFilesAreStored(env, events, i);
    ExecuteKeepsInv(env, events);
    LiveHasRecipe(c, i);
    ghost var s := Execute(env, events);
    var id := c.items[i].recipe.value;
    RecipeFacts(env, s, id);
    var r := ForRestore(c.recipes[id]);
    if c.items[i].stat.size != r.size {
      return None;
    }
    var source := FromStore(cas, c.recipes[id].rows);
    SourceDelivers(env.hash, env.universe, cas, c.recipes[id].rows);
    var result, reused, written := Restore.ResumeFile(hash, f, r, source, window);
    if result.Restored? {
      ghost var parts := env.split(s.origin[id]);
      RestoreRuns.WholeIsLongest(env.hash, r.rows, f.content);
      RestoreRuns.FinishedInSight(env.hash, env.universe, r.rows, parts, old(f.content), f.content, source, Restore.Longest(env.hash, r.rows, old(f.content)));
      RestoreRuns.WholeIsExact(env.hash, env.universe, r.rows, parts, f.content);
    }
    return Some(result);
  }

  lemma RecipeFacts(env: Env, s: Sys, id: Id)
    requires GoodEnv(env) && SysInv(env, s) && id in s.cat.recipes
    ensures id in s.origin && Contiguous(s.cat.recipes[id].rows)
    ensures InjectiveOn(env.hash, env.universe) && PartsIn(env.universe, env.split(s.origin[id]))
    ensures ForRestore(s.cat.recipes[id]).Consistent() && s.cat.recipes[id].size == |s.origin[id]|
    ensures RestoreRuns.Describes(env.hash, ForRestore(s.cat.recipes[id]).rows, env.split(s.origin[id]))
    ensures Flatten(env.split(s.origin[id])) == s.origin[id]
  {
    hide RecipeTables, ItemTables, CasGood, LiveKept, RunInv;
    StoredRecipe(env, s.cat, s.origin, id);
  }

  lemma SourceDelivers(h: Hasher, u: Universe, cas: map<Hash, Bytes>, rows: seq<R.Row>)
    requires Contiguous(rows)
    requires forall k :: 0 <= k < |rows| ==> rows[k].hash in cas && h(cas[rows[k].hash]) == rows[k].hash
                                             && |cas[rows[k].hash]| == rows[k].size && cas[rows[k].hash] in u
    ensures Restore.Delivers(h, Entries(rows), FromStore(cas, rows))
    ensures forall k: nat :: k < |rows| ==>
              FromStore(cas, rows)(k).Some? && |FromStore(cas, rows)(k).value| == Entries(rows)[k].size && FromStore(cas, rows)(k).value in u
  {
  }

  /** What a complete snapshot holds, it holds for good: after any further events the same
      files are there and stand for the same bytes. */
  lemma CompleteForever(env: Env, xs: seq<Event>, ys: seq<Event>, i: Id)
    requires GoodEnv(env) && AllExpected(env, xs + ys) && InCompleteSnapshot(Execute(env, xs).cat, i)
    ensures var s, t := Execute(env, xs), Execute(env, xs + ys);
            && InCompleteSnapshot(t.cat, i) && t.cat.items[i] == s.cat.items[i]
            && s.cat.items[i].recipe.Some? && s.cat.items[i].recipe.value in s.origin && s.cat.items[i].recipe.value in t.origin
            && ContentOf(t, i) == ContentOf(s, i)
  {
    hide Execute, SysInv, GoodEnv, RecipesKept;
    var s := Execute(env, xs);
    ExecuteKeepsInv(env, xs);
    CompleteItem(env, s, i);
    RunsEvolve(env, xs, ys);
  }
}
