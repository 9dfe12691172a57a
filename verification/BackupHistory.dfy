/** What no later event can undo: complete snapshots, their items, their recipes and the bytes
    those recipes stand for. */
module BackupHistory {
  import opened Prelude
  import opened Catalog
  import opened CatalogInvariant
  import opened Backup
  import opened BackupInvariant
  import opened BackupCoordinator
  import opened BackupReuse
  import opened BackupRuns
  import P = Protection

  /** Nothing outside one snapshot changes, and recipes only become more. */
  ghost predicate Confined(c: Catalog, d: Catalog, snapshot: Id)
  {
    && (forall n :: n in c.snapshots ==>
          n in d.snapshots && d.snapshots[n].root == c.snapshots[n].root && (n != snapshot ==> d.snapshots[n] == c.snapshots[n]))
    && (forall i :: i in c.items ==>
          i in d.items && d.items[i].snapshot == c.items[i].snapshot && (c.items[i].snapshot != snapshot ==> d.items[i] == c.items[i]))
    && (forall i :: i in d.items && i !in c.items ==> d.items[i].snapshot == snapshot)
    && RecipesKept(c, d)
  }

  ghost predicate OriginKept(a: map<Id, Bytes>, b: map<Id, Bytes>)
  {
    forall r :: r in a ==> r in b && b[r] == a[r]
  }

  /** Statuses leave CREATING at most once, and what belongs to other snapshots is final. */
  ghost predicate Evolves(s: Sys, t: Sys)
  {
    && (forall n :: n in s.cat.snapshots ==>
          n in t.cat.snapshots && t.cat.snapshots[n].root == s.cat.snapshots[n].root
          && (t.cat.snapshots[n] == s.cat.snapshots[n] || s.cat.snapshots[n].status == CREATING))
    && (forall i :: i in s.cat.items ==> i in t.cat.items && t.cat.items[i].snapshot == s.cat.items[i].snapshot)
    && (forall i :: i in s.cat.items && Closed(s.cat, s.cat.items[i].snapshot) ==> t.cat.items[i] == s.cat.items[i])
    && (forall i :: i in t.cat.items && i !in s.cat.items ==> !Closed(s.cat, t.cat.items[i].snapshot))
    && RecipesKept(s.cat, t.cat) && OriginKept(s.origin, t.origin)
  }

  predicate Closed(c: Catalog, snapshot: Id)
  {
    snapshot in c.snapshots && c.snapshots[snapshot].status != CREATING
  }

  lemma ConfinedEvolves(s: Sys, t: Sys, snapshot: Id)
    requires Confined(s.cat, t.cat, snapshot) && OriginKept(s.origin, t.origin)
    requires snapshot in s.cat.snapshots ==> s.cat.snapshots[snapshot].status == CREATING
    ensures Evolves(s, t)
  {
    hide RecipesKept, OriginKept;
  }

  lemma EvolvesTransitive(s: Sys, t: Sys, u: Sys)
    requires Evolves(s, t) && Evolves(t, u)
    ensures Evolves(s, u)
  {
  }

  lemma EvolvesReflexive(s: Sys)
    ensures Evolves(s, s)
  {
  }

  // ---------------------------------------------------------------- coordinator

  lemma SameCatalogConfined(c: Catalog, snapshot: Id)
    ensures Confined(c, c, snapshot)
  {
  }

  lemma AbandonConfined(s: Sys, run: Run, recorded: bool)
    ensures Confined(s.cat, Abandon(s, run, recorded).cat, run.snapshot)
  {
  }

  lemma AddBatchConfined(env: Env, s: Sys, run: Run, batch: seq<Entry>)
    requires SysInv(env, s) && s.run == Some(run)
    ensures Confined(s.cat, AddBatch(s, run, batch).cat, run.snapshot) && AddBatch(s, run, batch).origin == s.origin
  {
    hide RecipeTables, ItemTables, CasGood, LiveKept, WorkersGood, PhaseGood, CachesTrue, Placed, AddItems, Confined, Abandon;
    if AddItems(s.cat, run.snapshot, batch).None? {
      AbandonConfined(s, run, true);
      AbandonOrigin(s, run, true);
    } else {
      AddItemsKeep(s.cat, run.snapshot, batch);
      AddedConfined(s.cat, AddItems(s.cat, run.snapshot, batch).value, run.snapshot, batch);
    }
  }

  lemma AbandonOrigin(s: Sys, run: Run, recorded: bool)
    ensures Abandon(s, run, recorded).origin == s.origin
  {
  }

  lemma AddedConfined(c: Catalog, d: Catalog, snapshot: Id, batch: seq<Entry>)
    requires Added(c, d, snapshot, batch)
    ensures Confined(c, d, snapshot)
  {
    forall i: Id | i in d.items && i !in c.items ensures d.items[i].snapshot == snapshot {
      assert d.items[i] == NewItem(snapshot, batch[i - c.nextItem]);
    }
  }

  lemma ReuseConfined(env: Env, s: Sys, run: Run)
    requires SysInv(env, s) && s.run == Some(run) && run.phase.Reusing?
    ensures Confined(s.cat, ReuseBatch(s, run).cat, run.snapshot) && ReuseBatch(s, run).origin == s.origin
  {
    hide Inv, CasGood, LiveKept, WorkersGood, CachesTrue, Placed, Reuse, Reused, ToRead, Taken, Confined, FileItems;
    ReuseResult(env, s, run);
    var d := Reuse(s.cat, Reused(s.cat, run, run.phase.first, run.phase.batch), run.policy.rf).value;
    TakenConfined(s.cat, d, run);
  }

  lemma TakenConfined(c: Catalog, d: Catalog, run: Run)
    requires run.phase.Reusing? && PhaseGood(c.items, run.snapshot, run.phase) && Taken(c, d, run)
    requires d.recipes == c.recipes && d.snapshots == c.snapshots
    ensures Confined(c, d, run.snapshot)
  {
    hide Reused, RecipeGiven, ReusableRecipe;
    forall i: Id | i in c.items
      ensures d.items[i].snapshot == c.items[i].snapshot && (c.items[i].snapshot != run.snapshot ==> d.items[i] == c.items[i])
    {
      ReusedGiven(c, run, run.phase.first, run.phase.batch, i);
    }
  }

  lemma CollectConfined(env: Env, s: Sys, run: Run, i: Id)
    requires GoodEnv(env) && SysInv(env, s) && s.run == Some(run)
    ensures Confined(s.cat, Collect(env, s, run, i).cat, run.snapshot) && OriginKept(s.origin, Collect(env, s, run, i).origin)
  {
    hide SysInv, Confined, Consolidate, OriginAfter, Abandon;
    if i in run.workers && run.workers[i].Succeeded? {
      CollectSucceededConfined(env, s, run, i);
    } else {
      SameCatalogConfined(s.cat, run.snapshot);
    }
  }

  lemma CollectSucceededConfined(env: Env, s: Sys, run: Run, i: Id)
    requires GoodEnv(env) && SysInv(env, s) && s.run == Some(run) && i in run.workers && run.workers[i].Succeeded?
    ensures Confined(s.cat, Collect(env, s, run, i).cat, run.snapshot) && OriginKept(s.origin, Collect(env, s, run, i).origin)
  {
    hide CasGood, Inv, LiveKept, CachesTrue, WorkersGood, Placed, PhaseGood, Consolidate, RowsOf, RecipeName, Fits, Covered,
         ItemTables, OriginAfter, RecipesKept, WorkerGood, GoodEnv, Confined, OriginKept, Abandon;
    var content := run.workers[i].content;
    WorkersHave(env, run.workers, i, s.cas.Keys, s.trusted);
    SucceededWorker(env, run.workers[i], s.cas.Keys, s.trusted);
    WorkerHoldsFile(s.cat.items, run, i);
    ConsolidateSucceeds(env, s, i, content, run.policy.rf);
    var rows := RowsOf(env.hash, env.split(content));
    var name := RecipeName(env.hash, rows);
    OneItemConfined(s.cat, Consolidate(s.cat, i, name, rows, run.policy.rf).value, i, Some(RecipeIdFor(s.cat, name)));
    OriginOnlyGrows(env, s, content);
  }

  lemma OneItemConfined(c: Catalog, d: Catalog, i: Id, recipe: Option<Id>)
    requires i in c.items && d.snapshots == c.snapshots && RecipesKept(c, d)
    requires d.items == c.items[i := c.items[i].(recipe := recipe)]
    ensures Confined(c, d, c.items[i].snapshot)
  {
  }

  lemma OriginOnlyGrows(env: Env, s: Sys, content: Bytes)
    requires GoodEnv(env) && Inv(env.hash, env.universe, env.split, s.cat, s.origin) && Fits(env.hash, env.universe, env.split, content)
    ensures OriginKept(s.origin, OriginAfter(env.hash, env.split, s.cat, s.origin, content))
  {
    hide RecipeTables, ItemTables, GetOrCreateRecipe, RowsOf, RecipeName, Fits;
    RecipeStep(env.hash, env.universe, env.split, s.cat, s.origin, content, 0);
  }

  lemma FinishConfined(s: Sys, run: Run)
    ensures Confined(s.cat, FinishRun(s, run).cat, run.snapshot) && FinishRun(s, run).origin == s.origin
  {
    hide HasOpenFile;
  }

  lemma CoordinatorConfined(env: Env, s: Sys, run: Run, e: CoordinatorEvent)
    requires GoodEnv(env) && SysInv(env, s) && s.run == Some(run)
    ensures Confined(s.cat, CoordinatorStep(env, s, run, e).cat, run.snapshot)
    ensures OriginKept(s.origin, CoordinatorStep(env, s, run, e).origin)
  {
    hide SysInv, AddBatch, ReuseBatch, Collect, FinishRun, Abandon, Confined;
    SameCatalogConfined(s.cat, run.snapshot);
    match e
    case Batch(batch) => AddBatchConfined(env, s, run, batch);
    case ReuseRecipes => if run.phase.Reusing? { ReuseConfined(env, s, run); }
    case SubmitNext(content) =>
    case Wakes(done) =>
    case WalkEnds =>
    case Collects(i) => CollectConfined(env, s, run, i);
    case Finishes => FinishConfined(s, run);
    case Aborts(recorded) => AbandonConfined(s, run, recorded); AbandonOrigin(s, run, recorded);
  }

  // ---------------------------------------------------------------- all steps

  lemma IdleConfined(env: Env, s: Sys, e: IdleEvent)
    requires SysInv(env, s)
    ensures Confined(s.cat, IdleStep(s, e).cat, s.cat.nextSnapshot) && IdleStep(s, e).origin == s.origin
  {
    hide SysInv, Swept, PreviousBelow;
    FreshSnapshotId(env, s);
  }

  lemma StepEvolves(env: Env, s: Sys, e: Event)
    requires GoodEnv(env) && SysInv(env, s)
    ensures Evolves(s, Step(env, s, e))
  {
    hide CoordinatorStep, Work, IdleStep, AmbientStep, Confined, Evolves, Inv, CasGood, LiveKept, WorkersGood, PhaseGood, CachesTrue, Placed;
    EvolvesReflexive(s);
    match e
    case Coordinator(c) =>
      if s.run.Some? {
        CoordinatorConfined(env, s, s.run.value, c);
        ConfinedEvolves(s, Step(env, s, e), s.run.value.snapshot);
      }
    case WorkerActs(item, breaks) =>
      if s.run.Some? {
        WorkKeepsCatalog(env, s, s.run.value, item, breaks);
        SameCatalogConfined(s.cat, s.run.value.snapshot);
        ConfinedEvolves(s, Step(env, s, e), s.run.value.snapshot);
      }
    case Idle(i) =>
      if s.run.None? {
        IdleConfined(env, s, i);
        FreshSnapshotId(env, s);
        ConfinedEvolves(s, Step(env, s, e), s.cat.nextSnapshot);
      }
    case Ambient(a) => AmbientEvolves(env, s, a);
  }

  lemma AmbientEvolves(env: Env, s: Sys, e: AmbientEvent)
    ensures Evolves(s, AmbientStep(env, s, e))
  {
    hide P.Commit;
  }

  /** Over every run: from any reachable state on, statuses only move out of CREATING, closed
      snapshots keep their items, and recipes keep their content. */
  lemma {:induction false} RunsEvolve(env: Env, xs: seq<Event>, ys: seq<Event>)
    requires GoodEnv(env) && AllExpected(env, xs + ys)
    ensures Evolves(Execute(env, xs), Execute(env, xs + ys))
    decreases |ys|
  {
    hide Evolves, Step, SysInv, GoodEnv, Expected;
    if ys == [] {
      assert xs + ys == xs;
      EvolvesReflexive(Execute(env, xs));
    } else {
      var n := |ys| - 1;
      var mid := xs + ys[..n];
      assert (xs + ys)[..|xs + ys| - 1] == mid;
      RunsEvolve(env, xs, ys[..n]);
      ExecuteKeepsInv(env, mid);
      StepEvolves(env, Execute(env, mid), ys[n]);
      EvolvesTransitive(Execute(env, xs), Execute(env, mid), Execute(env, xs + ys));
    }
  }
}
