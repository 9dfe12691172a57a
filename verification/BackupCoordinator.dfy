/** The coordinator's steps keep the invariant of the backup system. */
module BackupCoordinator {
  import opened Prelude
  import opened Catalog
  import opened CatalogInvariant
  import opened Backup
  import opened BackupInvariant
  import opened BackupSteps

  lemma RecipeTablesFrame(env: Env, c: Catalog, d: Catalog, origin: map<Id, Bytes>)
    requires RecipeTables(env.hash, env.universe, env.split, c, origin)
    requires d.recipes == c.recipes && d.recipeIds == c.recipeIds && d.nextRecipe == c.nextRecipe
    requires d.chunks == c.chunks && d.protection == c.protection
    ensures RecipeTables(env.hash, env.universe, env.split, d, origin)
  {
    hide RecipeGood, IndexGood, SizesGenuine;
  }

  // ---------------------------------------------------------------- files changing places

  lemma MoveToWorker(all: set<Id>, q: set<Id>, w: set<Id>, f: set<Id>, g: set<Id>, i: Id)
    requires Partition(all, q + {i}, w, f, g) && i !in q
    ensures Partition(all, q, w + {i}, f, g) && i !in w
  {
  }

  lemma MoveToFailed(all: set<Id>, q: set<Id>, w: set<Id>, f: set<Id>, g: set<Id>, i: Id)
    requires Partition(all, q, w, f, g) && i in w
    ensures Partition(all, q, w - {i}, f + {i}, g)
  {
  }

  lemma MoveToGiven(all: set<Id>, q: set<Id>, w: set<Id>, f: set<Id>, g: set<Id>, i: Id)
    requires Partition(all, q, w, f, g) && i in w
    ensures Partition(all, q, w - {i}, f, g + {i}) && i in all && i !in g && i !in q
  {
  }

  lemma NewFilesQueued(all: set<Id>, w: set<Id>, f: set<Id>, g: set<Id>, q: set<Id>)
    requires Partition(all, {}, w, f, g) && q !! all
    ensures Partition(all + q, q, w, f, g)
  {
  }

  lemma SomeGiven(all: set<Id>, q: set<Id>, w: set<Id>, f: set<Id>, g: set<Id>, reused: set<Id>)
    requires Partition(all, q, w, f, g) && reused <= q
    ensures reused <= all && reused !! g && Partition(all, q - reused, w, f, g + reused)
  {
  }

  lemma PlacedIs(items: map<Id, Item>, snapshot: Id, phase: Phase, working: set<Id>, failed: set<Id>, files: nat)
    ensures Placed(items, snapshot, phase, working, failed, files) <==>
            Partition(FileItems(items, snapshot), Queued(phase), working, failed, Assigned(items, snapshot))
            && files == |Assigned(items, snapshot)|
  {
  }

  // ---------------------------------------------------------------- giving up

  lemma FailKeepsLive(c: Catalog, snapshot: Id)
    requires Fail(c, snapshot).Some?
    ensures forall i :: Live(Fail(c, snapshot).value, i) ==> Live(c, i) && RowsOfItem(Fail(c, snapshot).value, i) == RowsOfItem(c, i)
  {
  }

  lemma AbandonKeepsInv(env: Env, s: Sys, run: Run, recorded: bool)
    requires SysInv(env, s)
    ensures SysInv(env, Abandon(s, run, recorded))
  {
    hide CasGood, RecipeTables, ItemTables, LiveKept, RunInv, Live;
    if recorded && Fail(s.cat, run.snapshot).Some? {
      var d := Fail(s.cat, run.snapshot).value;
      FailKeeps(s.cat, run.snapshot);
      FailKeepsLive(s.cat, run.snapshot);
      LiveFrame(s.cat, d, s.cas.Keys + s.trusted);
      RecipeTablesFrame(env, s.cat, d, s.origin);
    }
  }

  // ---------------------------------------------------------------- adding a batch

  lemma AddedFiles(c: Catalog, d: Catalog, snapshot: Id, batch: seq<Entry>)
    requires ItemTables(c) && Added(c, d, snapshot, batch)
    ensures var q := Queued(Reusing(c.nextItem, batch));
            && FileItems(d.items, snapshot) == FileItems(c.items, snapshot) + q
            && q !! FileItems(c.items, snapshot)
            && Assigned(d.items, snapshot) == Assigned(c.items, snapshot)
  {
    var q := Queued(Reusing(c.nextItem, batch));
    forall i | i in c.items ensures i < c.nextItem {
      assert ItemGood(c, i);
    }
    forall i: Id ensures i in q <==> c.nextItem <= i < c.nextItem + |batch| && batch[i - c.nextItem].isFile {
      QueuedBatch(c.nextItem, batch, i);
    }
    hide Queued, ItemTables;
  }

  lemma QueuedBatch(first: Id, batch: seq<Entry>, i: Id)
    ensures i in Queued(Reusing(first, batch)) <==> first <= i < first + |batch| && batch[i - first].isFile
  {
    if first <= i < first + |batch| && batch[i - first].isFile {
      assert first + (i - first) == i;
    }
  }

  lemma AddedKeepsLive(c: Catalog, d: Catalog, snapshot: Id, batch: seq<Entry>)
    requires Added(c, d, snapshot, batch)
    ensures forall i :: Live(d, i) ==> Live(c, i) && RowsOfItem(d, i) == RowsOfItem(c, i)
  {
    forall i: Id | i in d.items && i !in c.items ensures d.items[i].recipe.None? {
      assert d.items[i] == NewItem(snapshot, batch[i - c.nextItem]);
    }
  }

  lemma BatchPlaced(c: Catalog, d: Catalog, run: Run, batch: seq<Entry>)
    requires ItemTables(c) && Added(c, d, run.snapshot, batch) && run.phase == Submitting([])
    requires Placed(c.items, run.snapshot, run.phase, run.workers.Keys, run.failed, run.files)
    ensures Placed(d.items, run.snapshot, Reusing(c.nextItem, batch), run.workers.Keys, run.failed, run.files)
  {
    hide ItemTables, FileItems, Assigned, Partition, Queued, Added;
    AddedFiles(c, d, run.snapshot, batch);
    EmptyQueue();
    NewFilesQueued(FileItems(c.items, run.snapshot), run.workers.Keys, run.failed, Assigned(c.items, run.snapshot),
                   Queued(Reusing(c.nextItem, batch)));
  }

  lemma BatchPhaseGood(c: Catalog, d: Catalog, snapshot: Id, batch: seq<Entry>)
    requires Added(c, d, snapshot, batch)
    ensures PhaseGood(d.items, snapshot, Reusing(c.nextItem, batch))
  {
  }

  lemma AddBatchKeepsInv(env: Env, s: Sys, run: Run, batch: seq<Entry>)
    requires SysInv(env, s) && s.run == Some(run) && run.phase == Submitting([])
    ensures SysInv(env, AddBatch(s, run, batch))
  {
    hide CasGood, RecipeTables, ItemTables, LiveKept, Live, AddItems, CachesTrue, WorkersGood, Placed, PhaseGood, Added, Abandon;
    if AddItems(s.cat, run.snapshot, batch).None? {
      AbandonKeepsInv(env, s, run, true);
    } else {
      var c, d := s.cat, AddItems(s.cat, run.snapshot, batch).value;
      AddItemsKeep(c, run.snapshot, batch);
      AddedFrame(c, d, run.snapshot, batch);
      RecipeTablesFrame(env, c, d, s.origin);
      AddedKeepsLive(c, d, run.snapshot, batch);
      LiveFrame(c, d, s.cas.Keys + s.trusted);
      BatchPlaced(c, d, run, batch);
      BatchPhaseGood(c, d, run.snapshot, batch);
    }
  }

  lemma AddedFrame(c: Catalog, d: Catalog, snapshot: Id, batch: seq<Entry>)
    requires Added(c, d, snapshot, batch)
    ensures d == c.(items := d.items, nextItem := d.nextItem)
  {
  }

  lemma EmptyQueue()
    ensures Queued(Submitting([])) == {} && Queued(Closing) == {}
  {
  }

  // ---------------------------------------------------------------- handing out work

  lemma SubmitPlaced(items: map<Id, Item>, run: Run, w: Worker, rest: Phase)
    requires run.phase.Submitting? && run.phase.todo != [] && PhaseGood(items, run.snapshot, run.phase)
    requires Placed(items, run.snapshot, run.phase, run.workers.Keys, run.failed, run.files)
    requires rest == Submitting(run.phase.todo[1..]) || rest == Waiting(run.phase.todo[1..])
    ensures var i := run.phase.todo[0];
            && Placed(items, run.snapshot, rest, run.workers[i := w].Keys, run.failed, run.files)
            && PhaseGood(items, run.snapshot, rest) && |run.workers[i := w]| == |run.workers| + 1
  {
    hide FileItems, Assigned, Partition, Queued, Distinct, PhaseGood, Placed;
    var i := run.phase.todo[0];
    TodoIsPhaseGood(items, run.snapshot, run.phase);
    TodoSplit(run.phase.todo);
    TodoIsPhaseGood(items, run.snapshot, rest);
    SameQueue(run.phase.todo[1..], {});
    assert Queued(run.phase) == Queued(rest) + {i} && i !in Queued(rest);
    PlacedIs(items, run.snapshot, run.phase, run.workers.Keys, run.failed, run.files);
    MoveToWorker(FileItems(items, run.snapshot), Queued(rest), run.workers.Keys, run.failed, Assigned(items, run.snapshot), i);
    OneMore(run.workers, i, w);
    PlacedIs(items, run.snapshot, rest, run.workers[i := w].Keys, run.failed, run.files);
  }

  lemma TodoIsPhaseGood(items: map<Id, Item>, snapshot: Id, phase: Phase)
    requires phase.Submitting? || phase.Waiting? || phase.Taking?
    ensures PhaseGood(items, snapshot, phase) <==> Distinct(phase.todo)
  {
  }

  lemma WorkersWith(env: Env, workers: map<Id, Worker>, i: Id, w: Worker, p: set<Hash>, t: set<Hash>)
    requires WorkersGood(env, workers, p, t) && WorkerGood(env, w, p, t)
    ensures WorkersGood(env, workers[i := w], p, t)
  {
    hide WorkerGood;
  }

  lemma WorkersWithout(env: Env, workers: map<Id, Worker>, i: Id, p: set<Hash>, t: set<Hash>)
    requires WorkersGood(env, workers, p, t)
    ensures WorkersGood(env, workers - {i}, p, t)
  {
    hide WorkerGood;
  }

  lemma SubmitKeepsInv(env: Env, s: Sys, run: Run, content: Bytes)
    requires SysInv(env, s) && s.run == Some(run) && Foreseen(env.hash, env.universe, env.split, content)
    requires run.phase.Submitting? && run.phase.todo != []
    ensures SysInv(env, Submit(s, run, content))
  {
    hide CasGood, Inv, LiveKept, CachesTrue, WorkersGood, Placed, PhaseGood, WorkerGood;
    NewWorkerGood(env, content, s.cas.Keys, s.trusted);
    WorkersWith(env, run.workers, run.phase.todo[0], Busy(content, 0, Ready), s.cas.Keys, s.trusted);
    SubmitPlaced(s.cat.items, run, Busy(content, 0, Ready), Submit(s, run, content).run.value.phase);
  }

  lemma NewWorkerGood(env: Env, content: Bytes, p: set<Hash>, t: set<Hash>)
    requires Foreseen(env.hash, env.universe, env.split, content)
    ensures WorkerGood(env, Busy(content, 0, Ready), p, t)
  {
  }

  lemma TodoSplit(todo: seq<Id>)
    requires todo != [] && Distinct(todo)
    ensures Queued(Submitting(todo)) == Queued(Submitting(todo[1..])) + {todo[0]}
    ensures todo[0] !in Queued(Submitting(todo[1..])) && Distinct(todo[1..])
  {
    assert todo == [todo[0]] + todo[1..];
  }

  /** Waiting for results and taking them leaves the queue alone. */
  lemma SameQueue(todo: seq<Id>, done: set<Id>)
    ensures Queued(Waiting(todo)) == Queued(Submitting(todo)) && Queued(Taking(todo, done)) == Queued(Submitting(todo))
  {
  }

  lemma WakeKeepsInv(env: Env, s: Sys, run: Run, done: set<Id>)
    requires SysInv(env, s) && s.run == Some(run) && run.phase.Waiting? && done != {} && AllFinished(run, done)
    ensures SysInv(env, Wake(s, run, done))
  {
    hide CasGood, Inv, LiveKept, CachesTrue, FileItems, Assigned, WorkersGood, Partition, Queued, Distinct;
    SameQueue(run.phase.todo, done);
  }

  lemma OneMore<K, V>(m: map<K, V>, k: K, v: V)
    requires k !in m
    ensures m[k := v].Keys == m.Keys + {k} && |m[k := v]| == |m| + 1
  {
    assert m[k := v].Keys == m.Keys + {k};
    assert |m[k := v]| == |m[k := v].Keys| && |m| == |m.Keys|;
  }

  lemma OneLess<K, V>(m: map<K, V>, k: K)
    requires k in m
    ensures (m - {k}).Keys == m.Keys - {k} && |m - {k}| == |m| - 1
  {
    assert (m - {k}).Keys == m.Keys - {k};
    assert |m - {k}| == |(m - {k}).Keys| && |m| == |m.Keys|;
  }

  lemma WalkEndsKeepsInv(env: Env, s: Sys, run: Run)
    requires SysInv(env, s) && s.run == Some(run) && run.phase == Submitting([])
    ensures SysInv(env, s.(run := Some(run.(phase := Closing))))
  {
    hide CasGood, Inv, LiveKept, CachesTrue, FileItems, Assigned, WorkersGood, Partition, Queued;
    EmptyQueue();
  }

  // ---------------------------------------------------------------- taking results

  /** Taking a result makes room. */
  lemma TakingMakesRoom(run: Run, run': Run, i: Id)
    requires Room(run) && MayCollect(run, i)
    requires run'.width == run.width && run'.phase == AfterTaking(run.phase, i) && run'.workers == run.workers - {i}
    ensures Room(run')
  {
    OneLess(run.workers, i);
  }

  lemma AfterTakingQueue(items: map<Id, Item>, snapshot: Id, phase: Phase, i: Id)
    ensures Queued(AfterTaking(phase, i)) == Queued(phase)
    ensures PhaseGood(items, snapshot, AfterTaking(phase, i)) <==> PhaseGood(items, snapshot, phase)
  {
    hide Distinct;
  }

  lemma BrokenPlaced(items: map<Id, Item>, run: Run, i: Id)
    requires i in run.workers && Placed(items, run.snapshot, run.phase, run.workers.Keys, run.failed, run.files)
    ensures Placed(items, run.snapshot, AfterTaking(run.phase, i), (run.workers - {i}).Keys, run.failed + {i}, run.files)
  {
    hide FileItems, Assigned, Partition, Queued, AfterTaking;
    OneLess(run.workers, i);
    AfterTakingQueue(items, run.snapshot, run.phase, i);
    MoveToFailed(FileItems(items, run.snapshot), Queued(run.phase), run.workers.Keys, run.failed, Assigned(items, run.snapshot), i);
  }

  lemma CollectBrokenKeepsInv(env: Env, s: Sys, run: Run, i: Id)
    requires SysInv(env, s) && s.run == Some(run) && MayCollect(run, i) && run.workers[i].Broken?
    ensures SysInv(env, Collect(env, s, run, i))
  {
    hide CasGood, Inv, LiveKept, CachesTrue, WorkersGood, Placed, PhaseGood, Consolidate, Abandon, Room, AfterTaking, AllFinished;
    TakingMakesRoom(run, Collect(env, s, run, i).run.value, i);
    AfterTakingQueue(s.cat.items, run.snapshot, run.phase, i);
    WorkersWithout(env, run.workers, i, s.cas.Keys, s.trusted);
    BrokenPlaced(s.cat.items, run, i);
  }

  lemma FileItemIsFile(items: map<Id, Item>, snapshot: Id, i: Id)
    ensures i in FileItems(items, snapshot) <==> i in items && items[i].snapshot == snapshot && items[i].isFile
  {
  }

  /** A file given its recipe joins the assigned ones. */
  lemma AssignedGrows(c: Catalog, i: Id, recipe: Id, snapshot: Id)
    requires i in FileItems(c.items, snapshot) && i !in Assigned(c.items, snapshot)
    ensures var items := c.items[i := c.items[i].(recipe := Some(recipe))];
            Assigned(items, snapshot) == Assigned(c.items, snapshot) + {i} && FileItems(items, snapshot) == FileItems(c.items, snapshot)
  {
  }

  lemma CoveredRowsKept(env: Env, content: Bytes, kept: set<Hash>)
    requires Covered(env, content, |env.split(content)|, kept)
    ensures RowsKept(RowsOf(env.hash, env.split(content)), kept)
  {
  }

  /** After consolidation the live files are those of before and the new one. */
  lemma ConsolidatedLiveKept(c: Catalog, d: Catalog, i: Id, recipe: Id, kept: set<Hash>)
    requires LiveKept(c, kept) && RecipesKept(c, d) && d.snapshots == c.snapshots
    requires ItemTables(c) && i in c.items && recipe in d.recipes && RowsKept(d.recipes[recipe].rows, kept)
    requires d.items == c.items[i := c.items[i].(recipe := Some(recipe))]
    ensures LiveKept(d, kept)
  {
    forall j | Live(d, j) ensures RowsKept(RowsOfItem(d, j), kept) {
      if j != i {
        assert ItemGood(c, j);
        assert Live(c, j);
      }
    }
  }

  /** The abort inside consolidation cannot happen for what workers deliver. */
  lemma ConsolidateSucceeds(env: Env, s: Sys, i: Id, content: Bytes, rf: nat)
    requires GoodEnv(env) && Inv(env.hash, env.universe, env.split, s.cat, s.origin) && Fits(env.hash, env.universe, env.split, content)
    requires i in s.cat.items && s.cat.items[i].isFile
    ensures var rows := RowsOf(env.hash, env.split(content));
            var name := RecipeName(env.hash, rows);
            var c := Consolidate(s.cat, i, name, rows, rf);
            && c.Some?
            && Inv(env.hash, env.universe, env.split, c.value, OriginAfter(env.hash, env.split, s.cat, s.origin, content))
            && RecipesKept(s.cat, c.value) && c.value.snapshots == s.cat.snapshots
            && RecipeIdFor(s.cat, name) in c.value.recipes && c.value.recipes[RecipeIdFor(s.cat, name)].rows == rows
            && c.value.items == s.cat.items[i := s.cat.items[i].(recipe := Some(RecipeIdFor(s.cat, name)))]
  {
    hide RecipeTables, ItemTables, GetOrCreateRecipe, RowsOf, RecipeName, SetItemRecipe, Fits;
    var rows := RowsOf(env.hash, env.split(content));
    var name := RecipeName(env.hash, rows);
    var id := RecipeIdFor(s.cat, name);
    RecipeStep(env.hash, env.universe, env.split, s.cat, s.origin, content, rf);
    var d := GetOrCreateRecipe(s.cat, name, rows, rf).value;
    ItemTablesFrame(s.cat, d);
    SetItemRecipeKeeps(d, i, id);
    var e := SetItemRecipe(d, i, id).value;
    var origin := OriginAfter(env.hash, env.split, s.cat, s.origin, content);
    RecipeTablesFrame(env, d, e, origin);
    RecipeRowsKnown(env.hash, env.universe, env.split, d, origin, id);
  }

  lemma ConsolidatedPlaced(c: Catalog, d: Catalog, run: Run, i: Id, recipe: Id)
    requires i in run.workers && Placed(c.items, run.snapshot, run.phase, run.workers.Keys, run.failed, run.files)
    requires PhaseGood(c.items, run.snapshot, run.phase)
    requires i in c.items && d.items == c.items[i := c.items[i].(recipe := Some(recipe))]
    ensures Placed(d.items, run.snapshot, AfterTaking(run.phase, i), (run.workers - {i}).Keys, run.failed, run.files + 1)
    ensures PhaseGood(d.items, run.snapshot, AfterTaking(run.phase, i))
  {
    hide FileItems, Assigned, Partition, Queued, PhaseGood, AfterTaking;
    OneLess(run.workers, i);
    AfterTakingQueue(d.items, run.snapshot, run.phase, i);
    MoveToGiven(FileItems(c.items, run.snapshot), Queued(run.phase), run.workers.Keys, run.failed, Assigned(c.items, run.snapshot), i);
    FileItemIsFile(c.items, run.snapshot, i);
    AssignedGrows(c, i, recipe, run.snapshot);
    PhaseStaysGood(c.items, d.items, run.snapshot, run.phase, i);
  }

  /** A file a worker holds is a file of the snapshot. */
  lemma WorkerHoldsFile(items: map<Id, Item>, run: Run, i: Id)
    requires i in run.workers && Placed(items, run.snapshot, run.phase, run.workers.Keys, run.failed, run.files)
    ensures i in items && items[i].isFile && items[i].snapshot == run.snapshot
  {
    hide Assigned, Queued;
    assert i in FileItems(items, run.snapshot);
  }

  lemma CollectSucceededKeepsInv(env: Env, s: Sys, run: Run, i: Id)
    requires GoodEnv(env) && SysInv(env, s) && s.run == Some(run) && MayCollect(run, i) && run.workers[i].Succeeded?
    ensures SysInv(env, Collect(env, s, run, i))
    ensures Collect(env, s, run, i).run.Some?
  {
    hide CasGood, Inv, LiveKept, CachesTrue, WorkersGood, Placed, PhaseGood, Consolidate, RowsOf, RecipeName, Fits, Covered,
         ItemTables, OriginAfter, RecipesKept, WorkerGood, GoodEnv, RowsKept, Room, AfterTaking, AllFinished;
    var content := run.workers[i].content;
    var rows := RowsOf(env.hash, env.split(content));
    var id := RecipeIdFor(s.cat, RecipeName(env.hash, rows));
    WorkersHave(env, run.workers, i, s.cas.Keys, s.trusted);
    SucceededWorker(env, run.workers[i], s.cas.Keys, s.trusted);
    WorkerHoldsFile(s.cat.items, run, i);
    ConsolidateSucceeds(env, s, i, content, run.policy.rf);
    var d := Consolidate(s.cat, i, RecipeName(env.hash, rows), rows, run.policy.rf).value;
    CoveredRowsKept(env, content, s.cas.Keys + s.trusted);
    InvHasItems(env, s);
    ConsolidatedLiveKept(s.cat, d, i, id, s.cas.Keys + s.trusted);
    TakingMakesRoom(run, Collect(env, s, run, i).run.value, i);
    WorkersWithout(env, run.workers, i, s.cas.Keys, s.trusted);
    ConsolidatedPlaced(s.cat, d, run, i, id);
  }

  lemma WorkersHave(env: Env, workers: map<Id, Worker>, i: Id, p: set<Hash>, t: set<Hash>)
    requires i in workers && WorkersGood(env, workers, p, t)
    ensures WorkerGood(env, workers[i], p, t)
  {
  }

  lemma SucceededWorker(env: Env, w: Worker, p: set<Hash>, t: set<Hash>)
    requires w.Succeeded? && WorkerGood(env, w, p, t)
    ensures Fits(env.hash, env.universe, env.split, w.content) && Covered(env, w.content, |env.split(w.content)|, p + t)
  {
  }

  lemma InvHasItems(env: Env, s: Sys)
    requires Inv(env.hash, env.universe, env.split, s.cat, s.origin)
    ensures ItemTables(s.cat)
  {
  }

  lemma PhaseStaysGood(items: map<Id, Item>, items': map<Id, Item>, snapshot: Id, phase: Phase, i: Id)
    requires PhaseGood(items, snapshot, phase) && i in items && i !in Queued(phase) && items[i].isFile
    requires i in items' && items' == items[i := items'[i]]
    ensures PhaseGood(items', snapshot, phase)
  {
    if phase.Reusing? {
      QueuedBatch(phase.first, phase.batch, i);
    }
  }

  // ---------------------------------------------------------------- the end

  lemma FinishedLive(c: Catalog, snapshot: Id, size: int, files: int)
    requires Finish(c, snapshot, size, files).Some?
    ensures var d := Finish(c, snapshot, size, files).value;
            forall i :: Live(d, i) ==> Live(c, i) && RowsOfItem(d, i) == RowsOfItem(c, i)
  {
  }

  /** With nothing queued, running or failed, every file has a recipe, so closing succeeds. */
  lemma NothingOpen(c: Catalog, run: Run)
    requires run.snapshot in c.snapshots && c.snapshots[run.snapshot].status == CREATING
    requires Placed(c.items, run.snapshot, run.phase, run.workers.Keys, run.failed, run.files)
    requires run.phase.Closing? && run.workers == map[] && run.failed == {}
    ensures Finish(c, run.snapshot, run.size, run.files).Some? && run.files == |FileItems(c.items, run.snapshot)|
  {
    assert FileItems(c.items, run.snapshot) == Assigned(c.items, run.snapshot);
    if HasOpenFile(c, run.snapshot) {
      var i :| i in c.items && c.items[i].snapshot == run.snapshot && c.items[i].isFile && c.items[i].recipe.None?;
      assert i in FileItems(c.items, run.snapshot);
    }
  }

  lemma FinishKeepsInv(env: Env, s: Sys, run: Run)
    requires SysInv(env, s) && s.run == Some(run) && run.phase.Closing? && run.workers == map[]
    ensures SysInv(env, FinishRun(s, run))
  {
    hide CasGood, RecipeTables, ItemTables, LiveKept, Live, Finish, CachesTrue, WorkersGood, Placed;
    if run.failed != {} {
      AbandonKeepsInv(env, s, run, true);
    } else {
      NothingOpen(s.cat, run);
      var d := Finish(s.cat, run.snapshot, run.size, run.files).value;
      FinishKeeps(s.cat, run.snapshot, run.size, run.files);
      FinishedLive(s.cat, run.snapshot, run.size, run.files);
      LiveFrame(s.cat, d, s.cas.Keys + s.trusted);
      FinishFrame(env, s, run);
    }
  }

  lemma FinishFrame(env: Env, s: Sys, run: Run)
    requires RecipeTables(env.hash, env.universe, env.split, s.cat, s.origin) && Finish(s.cat, run.snapshot, run.size, run.files).Some?
    ensures RecipeTables(env.hash, env.universe, env.split, Finish(s.cat, run.snapshot, run.size, run.files).value, s.origin)
  {
    hide RecipeTables, HasOpenFile;
    RecipeTablesFrame(env, s.cat, Finish(s.cat, run.snapshot, run.size, run.files).value, s.origin);
  }
}
