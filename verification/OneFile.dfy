/** What can happen: from every idle state, any one file can be backed up, whatever its bytes and
    whatever was recorded about it before it was read. */
module OneFile {
  import opened Prelude
  import opened Catalog
  import opened CatalogInvariant
  import opened ChunkCache
  import opened Backup
  import opened BackupInvariant
  import opened BackupSteps
  import opened BackupCoordinator
  import opened BackupRuns
  import opened EndToEnd
  import R = Recipes
  import FastCdc
  import NativeSplitter

  /** Read every chunk, skip nothing. */
  const SAFE := Policy(false, true, false, 0, None)

  // ---------------------------------------------------------------- event lists

  /** zs goes on after xs with events that are allowed. */
  ghost predicate Continues(env: Env, xs: seq<Event>, zs: seq<Event>)
  {
    xs <= zs && AllExpected(env, zs) && (LocalOnly(xs) ==> LocalOnly(zs))
  }

  lemma OneMoreEvent(env: Env, start: seq<Event>, xs: seq<Event>, e: Event)
    requires Continues(env, start, xs) && Expected(env, e) && (e.Idle? && e.i.Begins? ==> !e.i.policy.allowRemote)
    ensures Continues(env, start, xs + [e]) && Execute(env, xs + [e]) == Step(env, Execute(env, xs), e)
  {
    hide Step, Expected;
    assert (xs + [e])[..|xs|] == xs;
  }

  // ---------------------------------------------------------------- the states on the way

  /** A run in safe mode for snapshot n, in this phase and with these workers. */
  ghost predicate Running(s: Sys, n: Id, phase: Phase, workers: map<Id, Worker>)
  {
    s.run.Some? &&
    var run := s.run.value;
    run.snapshot == n && run.policy == SAFE && run.width == 1 && run.phase == phase && run.workers == workers && run.failed == {}
  }

  predicate Recorded(c: Catalog, n: Id, i: Id, e: Entry)
  {
    i in c.items && c.items[i] == NewItem(n, e)
  }

  lemma Begun(env: Env, s: Sys, root: string)
    requires SysInv(env, s) && s.run.None?
    ensures var t := Step(env, s, Idle(Begins(root, SAFE, 1)));
            && Running(t, s.cat.nextSnapshot, Submitting([]), map[])
            && t.cat == CreateSnapshot(s.cat, root)
            && forall i :: i in t.cat.items ==> t.cat.items[i].snapshot != s.cat.nextSnapshot
  {
    hide RecipeTables, ItemTables, CasGood, LiveKept, PreviousBelow;
    NewSnapshotIsEmpty(s.cat);
  }

  lemma BatchAdded(env: Env, s: Sys, n: Id, e: Entry)
    requires Running(s, n, Submitting([]), map[]) && n in s.cat.snapshots
    requires forall i :: i in s.cat.items ==> s.cat.items[i].snapshot != n
    ensures var t := Step(env, s, Coordinator(Batch([e])));
            Running(t, n, Reusing(s.cat.nextItem, [e]), map[]) && Recorded(t.cat, n, s.cat.nextItem, e)
  {
    assert [e][..0] == [];
    assert AddItems(s.cat, n, []) == Some(s.cat);
    assert AddItems(s.cat, n, [e]) == AddItem(s.cat, n, e);
  }

  lemma NothingReused(env: Env, s: Sys, n: Id, i: Id, e: Entry)
    requires Running(s, n, Reusing(i, [e]), map[]) && Recorded(s.cat, n, i, e) && e.isFile
    ensures var t := Step(env, s, Coordinator(ReuseRecipes));
            Running(t, n, Submitting([i]), map[]) && Recorded(t.cat, n, i, e)
  {
    var run := s.run.value;
    assert [e][..0] == [];
    assert ReusableRecipe(s.cat, run, e) == None;
    hide ReusableRecipe;
    assert Reused(s.cat, run, i, []) == [] && ToRead(s.cat, run, i, []) == [];
    assert Reused(s.cat, run, i, [e]) == [];
    assert ToRead(s.cat, run, i, [e]) == [i];
    assert Reuse(s.cat, [], run.policy.rf) == Some(s.cat);
  }

  lemma Submitted(env: Env, s: Sys, n: Id, i: Id, e: Entry, content: Bytes)
    requires Running(s, n, Submitting([i]), map[]) && Recorded(s.cat, n, i, e)
    ensures var t := Step(env, s, Coordinator(SubmitNext(content)));
            Running(t, n, Submitting([]), map[i := Busy(content, 0, Ready)]) && Recorded(t.cat, n, i, e)
  {
    var none: map<Id, Worker> := map[];
    OneMore(none, i, Busy(content, 0, Ready));
  }

  // ---------------------------------------------------------------- the worker

  /** How many actions a safe worker is away from its result. */
  function ActionsLeft(n: nat, w: Worker): nat
    requires w.Busy? && w.done <= n
  {
    4 * (n - w.done) + (if w.pc.Ready? then 3 else if w.pc.Putting? then 2 else 1)
  }

  predicate SafeWorker(env: Env, w: Worker)
  {
    w.Busy? &&
    var n := |env.split(w.content)|;
    w.done <= n && (w.pc.Ready? || (w.done < n && (w.pc.Putting? || w.pc.Stored?)))
  }

  lemma WorkerActed(env: Env, s: Sys, n: Id, i: Id, e: Entry, w: Worker)
    requires Running(s, n, Submitting([]), map[i := w]) && Recorded(s.cat, n, i, e)
    requires SafeWorker(env, w) && InFormat(env.hash, env.split, w.content)
    ensures var t := Step(env, s, WorkerActs(i, false));
            var w' := WorkerNext(env, s, s.run.value, w);
            && Running(t, n, Submitting([]), map[i := w']) && Recorded(t.cat, n, i, e)
            && (w' == Succeeded(w.content)
                || (SafeWorker(env, w') && w'.content == w.content
                    && ActionsLeft(|env.split(w.content)|, w') < ActionsLeft(|env.split(w.content)|, w)))
  {
    hide InFormat, StoreNext, TrustedNext, LocalNext, RemoteNext;
  }

  lemma {:induction false} WorkerFinishes(env: Env, start: seq<Event>, xs: seq<Event>, n: Id, i: Id, e: Entry, w: Worker) returns (zs: seq<Event>)
    requires Continues(env, start, xs) && Running(Execute(env, xs), n, Submitting([]), map[i := w]) && Recorded(Execute(env, xs).cat, n, i, e)
    requires SafeWorker(env, w) && InFormat(env.hash, env.split, w.content)
    ensures Continues(env, start, zs)
    ensures Running(Execute(env, zs), n, Submitting([]), map[i := Succeeded(w.content)]) && Recorded(Execute(env, zs).cat, n, i, e)
    decreases ActionsLeft(|env.split(w.content)|, w)
  {
    hide Continues, Running, Recorded, Step, WorkerNext, Execute, InFormat;
    var s := Execute(env, xs);
    RunningRuns(s, n, Submitting([]), map[i := w]);
    OneMoreEvent(env, start, xs, WorkerActs(i, false));
    WorkerActed(env, s, n, i, e, w);
    var w' := WorkerNext(env, s, s.run.value, w);
    if w' == Succeeded(w.content) {
      zs := xs + [WorkerActs(i, false)];
    } else {
      zs := WorkerFinishes(env, start, xs + [WorkerActs(i, false)], n, i, e, w');
    }
  }

  lemma RunningRuns(s: Sys, n: Id, phase: Phase, workers: map<Id, Worker>)
    requires Running(s, n, phase, workers)
    ensures s.run.Some?
  {
  }

  // ---------------------------------------------------------------- the end

  lemma WalkEnded(env: Env, s: Sys, n: Id, i: Id, e: Entry, workers: map<Id, Worker>)
    requires Running(s, n, Submitting([]), workers) && Recorded(s.cat, n, i, e)
    ensures var t := Step(env, s, Coordinator(WalkEnds));
            Running(t, n, Closing, workers) && Recorded(t.cat, n, i, e)
  {
  }

  /** The item has the recipe of this content. */
  ghost predicate Given(s: Sys, n: Id, i: Id, e: Entry, content: Bytes)
  {
    && i in s.cat.items && s.cat.items[i].recipe.Some? && s.cat.items[i] == NewItem(n, e).(recipe := s.cat.items[i].recipe)
    && s.cat.items[i].recipe.value in s.origin && s.origin[s.cat.items[i].recipe.value] == content
  }

  /** The recipe whose rows are those of some content was computed from it. */
  lemma RowsTellContent(env: Env, c: Catalog, origin: map<Id, Bytes>, r: Id, content: Bytes)
    requires GoodEnv(env) && RecipeTables(env.hash, env.universe, env.split, c, origin) && Fits(env.hash, env.universe, env.split, content)
    requires r in c.recipes && c.recipes[r].rows == RowsOf(env.hash, env.split(content))
    ensures r in origin && origin[r] == content
  {
    hide Fits, RowsOf, IndexGood, SizesGenuine, InjectiveOn, Splits;
    assert RecipeGood(env.hash, env.universe, env.split, c.recipes[r], c.chunks, origin[r]);
    SameRowsSameContent(env.hash, env.universe, env.split, origin[r], content);
  }

  lemma ResultTaken(env: Env, s: Sys, n: Id, i: Id, e: Entry, content: Bytes)
    requires GoodEnv(env) && SysInv(env, s) && Running(s, n, Closing, map[i := Succeeded(content)]) && Recorded(s.cat, n, i, e) && e.isFile
    requires Fits(env.hash, env.universe, env.split, content)
    ensures var t := Step(env, s, Coordinator(Collects(i)));
            Running(t, n, Closing, map[]) && Given(t, n, i, e, content)
  {
    hide RecipeTables, ItemTables, CasGood, LiveKept, RunInv, GoodEnv, Fits, Consolidate, RowsOf, RecipeName, OriginAfter, RecipesKept;
    var rows := RowsOf(env.hash, env.split(content));
    ConsolidateSucceeds(env, s, i, content, s.run.value.policy.rf);
    var d := Consolidate(s.cat, i, RecipeName(env.hash, rows), rows, s.run.value.policy.rf).value;
    RowsTellContent(env, d, OriginAfter(env.hash, env.split, s.cat, s.origin, content), RecipeIdFor(s.cat, RecipeName(env.hash, rows)), content);
    assert map[i := Succeeded(content)] - {i} == map[];
  }

  lemma Finished(env: Env, s: Sys, n: Id, i: Id, e: Entry, content: Bytes)
    requires SysInv(env, s) && Running(s, n, Closing, map[]) && Given(s, n, i, e, content) && e.isFile
    ensures var t := Step(env, s, Coordinator(Finishes));
            t.run.None? && InCompleteSnapshot(t.cat, i) && Given(t, n, i, e, content)
  {
    hide Inv, CasGood, LiveKept, CachesTrue, WorkersGood, PhaseGood, Placed, HasOpenFile;
    NothingOpen(s.cat, s.run.value);
  }

  // ---------------------------------------------------------------- the theorem

  /** From any idle reachable state the coordinator can get as far as handing a new file out. */
  lemma FileHandedOut(env: Env, xs: seq<Event>, root: string, e: Entry, content: Bytes) returns (zs: seq<Event>, n: Id, i: Id)
    requires GoodEnv(env) && AllExpected(env, xs) && Execute(env, xs).run.None? && e.isFile
    requires Foreseen(env.hash, env.universe, env.split, content)
    ensures Continues(env, xs, zs)
    ensures Running(Execute(env, zs), n, Submitting([]), map[i := Busy(content, 0, Ready)]) && Recorded(Execute(env, zs).cat, n, i, e)
  {
    var s0 := Execute(env, xs);
    assert Continues(env, xs, xs);
    ExecuteKeepsInv(env, xs);
    n, i := s0.cat.nextSnapshot, s0.cat.nextItem;
    hide Continues, Running, Recorded, Step, SysInv, Execute, GoodEnv, Foreseen;
    Begun(env, s0, root);
    OneMoreEvent(env, xs, xs, Idle(Begins(root, SAFE, 1)));
    zs := xs + [Idle(Begins(root, SAFE, 1))];
    BatchAdded(env, Execute(env, zs), n, e);
    OneMoreEvent(env, xs, zs, Coordinator(Batch([e])));
    zs := zs + [Coordinator(Batch([e]))];
    NothingReused(env, Execute(env, zs), n, i, e);
    OneMoreEvent(env, xs, zs, Coordinator(ReuseRecipes));
    zs := zs + [Coordinator(ReuseRecipes)];
    Submitted(env, Execute(env, zs), n, i, e, content);
    OneMoreEvent(env, xs, zs, Coordinator(SubmitNext(content)));
    zs := zs + [Coordinator(SubmitNext(content))];
  }

  /** From any idle reachable state, for any file content that fits the format and anything stat may
      have said about the file, there is a run that ends with the file in a complete snapshot,
      with that record and with the recipe of that content. */
  lemma CanBackUp(env: Env, xs: seq<Event>, root: string, e: Entry, content: Bytes) returns (zs: seq<Event>, i: Id)
    requires GoodEnv(env) && AllExpected(env, xs) && Execute(env, xs).run.None? && e.isFile
    requires Fits(env.hash, env.universe, env.split, content)
    ensures Continues(env, xs, zs)
    ensures var s := Execute(env, zs);
            && s.run.None? && InCompleteSnapshot(s.cat, i)
            && s.cat.items[i].path == e.path && s.cat.items[i].stat == e.stat
            && s.cat.items[i].recipe.Some? && s.cat.items[i].recipe.value in s.origin && ContentOf(s, i) == content
  {
    FitsMeans(env, content);
    hide Continues, Running, Recorded, Step, SysInv, Execute, GoodEnv, Fits, Foreseen, InFormat, InCompleteSnapshot;
    var n: Id;
    zs, n, i := FileHandedOut(env, xs, root, e, content);
    zs := WorkerFinishes(env, xs, zs, n, i, e, Busy(content, 0, Ready));
    WalkEnded(env, Execute(env, zs), n, i, e, map[i := Succeeded(content)]);
    OneMoreEvent(env, xs, zs, Coordinator(WalkEnds));
    zs := zs + [Coordinator(WalkEnds)];
    StillSound(env, xs, zs);
    ResultTaken(env, Execute(env, zs), n, i, e, content);
    OneMoreEvent(env, xs, zs, Coordinator(Collects(i)));
    zs := zs + [Coordinator(Collects(i))];
    StillSound(env, xs, zs);
    Finished(env, Execute(env, zs), n, i, e, content);
    OneMoreEvent(env, xs, zs, Coordinator(Finishes));
    zs := zs + [Coordinator(Finishes)];
  }

  lemma FitsMeans(env: Env, content: Bytes)
    requires Fits(env.hash, env.universe, env.split, content)
    ensures Foreseen(env.hash, env.universe, env.split, content) && InFormat(env.hash, env.split, content)
  {
  }

  lemma StillSound(env: Env, xs: seq<Event>, zs: seq<Event>)
    requires GoodEnv(env) && Continues(env, xs, zs)
    ensures SysInv(env, Execute(env, zs))
  {
    ExecuteKeepsInv(env, zs);
  }

  // ---------------------------------------------------------------- FastCDC

  /** Files cut by FastCDC, hashed by h, with these strings considered. */
  ghost function FastCdcEnv(h: Hasher, p: FastCdc.Params, u: Universe): Env
    requires p.Valid()
  {
    Env(h, NativeSplitter.Native(p), u)
  }

  lemma FastCdcIsGood(h: Hasher, p: FastCdc.Params, u: Universe)
    requires p.Valid() && InjectiveOn(h, u)
    ensures GoodEnv(FastCdcEnv(h, p, u))
  {
    NativeSplitter.FastCdcSplits(p);
  }

  /** After any backups, failures and collections without remote skipping, the store holds for every
      file of a complete snapshot exactly its FastCDC chunks, in the order of the recipe. */
  lemma FastCdcChunksAreStored(h: Hasher, p: FastCdc.Params, u: Universe, events: seq<Event>, i: Id)
    requires p.Valid() && InjectiveOn(h, u) && AllExpected(FastCdcEnv(h, p, u), events) && LocalOnly(events)
    requires InCompleteSnapshot(Execute(FastCdcEnv(h, p, u), events).cat, i)
    ensures var s := Execute(FastCdcEnv(h, p, u), events);
            && Live(s.cat, i) && s.cat.items[i].recipe.value in s.origin
            && var rows, chunks := RowsOfItem(s.cat, i), FastCdc.ChunksFrom(ContentOf(s, i), 0, p);
            && |rows| == |chunks|
            && forall k :: 0 <= k < |rows| ==> rows[k].hash in s.cas && s.cas[rows[k].hash] == chunks[k]
  {
    var env := FastCdcEnv(h, p, u);
    FastCdcIsGood(h, p, u);
    hide Execute, LocalOnly, AllExpected, RunInv, ItemTables, LiveKept, CasGood, RecipeGood, IndexGood, SizesGenuine, FastCdc.ChunksFrom;
    CompleteFilesAreStored(env, events, i);
    ExecuteKeepsInv(env, events);
    var s := Execute(env, events);
    var r := s.cat.items[i].recipe.value;
    RecipeRowsKnown(h, u, env.split, s.cat, s.origin, r);
    FitsStored(env, s.cat, s.origin, r);
    var chunks := FastCdc.ChunksFrom(ContentOf(s, i), 0, p);
    assert env.split(s.origin[r]) == chunks;
    forall k | 0 <= k < |chunks| ensures RowsOfItem(s.cat, i)[k].hash in s.cas && s.cas[RowsOfItem(s.cat, i)[k].hash] == chunks[k] {
      assert RowsOfItem(s.cat, i)[k].hash == h(chunks[k]);
    }
  }

  // ---------------------------------------------------------------- a size that differs

  lemma NoRows(h: Hasher, p: FastCdc.Params)
    requires p.Valid()
    ensures RowsOf(h, NativeSplitter.Native(p)([])) == [] && NativeSplitter.Native(p)([]) == []
  {
  }

  /** The recorded size can really differ from the content, whatever the hash and the chunking: the
      file had one byte when it was listed and none when it was read. */
  lemma RecordedSizeCanDiffer(h: Hasher, p: FastCdc.Params) returns (env: Env, events: seq<Event>, i: Id)
    requires p.Valid()
    ensures env == FastCdcEnv(h, p, iset{R.Preimage([])}) && GoodEnv(env) && AllExpected(env, events) && LocalOnly(events)
    ensures var s := Execute(env, events);
            && InCompleteSnapshot(s.cat, i) && s.cat.items[i].recipe.Some? && s.cat.items[i].recipe.value in s.origin
            && s.cat.items[i].stat.size == 1 && |ContentOf(s, i)| == 0
  {
    env := FastCdcEnv(h, p, iset{R.Preimage([])});
    FastCdcIsGood(h, p, iset{R.Preimage([])});
    NoRows(h, p);
    assert Fits(env.hash, env.universe, env.split, []);
    assert LocalOnly([]) && AllExpected(env, []) && Execute(env, []).run.None?;
    hide GoodEnv, Fits, Execute;
    events, i := CanBackUp(env, [], "/", Entry("file", true, Stat(1, 0, None, None, 0, None)), []);
  }
}
