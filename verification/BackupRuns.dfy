/** What holds in every state the backup system can reach, and what never changes again. */
module BackupRuns {
  import opened Prelude
  import opened Catalog
  import opened CatalogInvariant
  import opened ChunkCache
  import opened Backup
  import opened BackupInvariant
  import opened BackupSteps
  import opened BackupCoordinator
  import opened BackupReuse
  import P = Protection

  // ---------------------------------------------------------------- the invariant over runs

  lemma CollectKeepsInv(env: Env, s: Sys, run: Run, i: Id)
    requires GoodEnv(env) && SysInv(env, s) && s.run == Some(run) && MayCollect(run, i)
    ensures SysInv(env, Collect(env, s, run, i))
    ensures Collect(env, s, run, i).run.Some?
  {
    hide SysInv;
    match run.workers[i]
    case Busy(_, _, _) =>
    case Broken => CollectBrokenKeepsInv(env, s, run, i);
    case Succeeded(_) => CollectSucceededKeepsInv(env, s, run, i);
  }

  /** File contents and fetched chunks come from the strings considered. */
  ghost predicate Expected(env: Env, e: Event)
  {
    match e
    case Coordinator(SubmitNext(content)) => Foreseen(env.hash, env.universe, env.split, content)
    case Ambient(ChunkFetched(raw)) => raw in env.universe
    case _ => true
  }

  ghost predicate AllExpected(env: Env, events: seq<Event>)
  {
    forall e :: e in events ==> Expected(env, e)
  }

  lemma CoordinatorKeepsInv(env: Env, s: Sys, run: Run, e: CoordinatorEvent)
    requires GoodEnv(env) && SysInv(env, s) && s.run == Some(run) && Expected(env, Coordinator(e))
    ensures SysInv(env, CoordinatorStep(env, s, run, e))
  {
    hide SysInv, AddBatch, ReuseBatch, Submit, Wake, Collect, FinishRun, Abandon, AllFinished, MayCollect;
    match e
    case Batch(batch) => if run.phase == Submitting([]) { AddBatchKeepsInv(env, s, run, batch); }
    case ReuseRecipes => if run.phase.Reusing? { ReuseKeepsInv(env, s, run); }
    case SubmitNext(content) => if run.phase.Submitting? && run.phase.todo != [] { SubmitKeepsInv(env, s, run, content); }
    case Wakes(done) => if run.phase.Waiting? && done != {} && AllFinished(run, done) { WakeKeepsInv(env, s, run, done); }
    case Collects(i) => if MayCollect(run, i) { CollectKeepsInv(env, s, run, i); }
    case WalkEnds => if run.phase == Submitting([]) { WalkEndsKeepsInv(env, s, run); }
    case Finishes => if run.phase.Closing? && run.workers == map[] { FinishKeepsInv(env, s, run); }
    case Aborts(recorded) => AbandonKeepsInv(env, s, run, recorded);
  }

  lemma StepKeepsInv(env: Env, s: Sys, e: Event)
    requires GoodEnv(env) && SysInv(env, s) && Expected(env, e)
    ensures SysInv(env, Step(env, s, e))
  {
    hide SysInv, CoordinatorStep, Work, IdleStep, AmbientStep;
    match e
    case Coordinator(c) => if s.run.Some? { CoordinatorKeepsInv(env, s, s.run.value, c); }
    case WorkerActs(item, breaks) => if s.run.Some? { WorkKeepsInv(env, s, item, breaks); }
    case Idle(i) => if s.run.None? { IdleKeepsInv(env, s, i); }
    case Ambient(a) => AmbientKeepsInv(env, s, a);
  }

  /** Every reachable state satisfies the invariant. */
  lemma {:induction false} ExecuteKeepsInv(env: Env, events: seq<Event>)
    requires GoodEnv(env) && AllExpected(env, events)
    ensures SysInv(env, Execute(env, events))
  {
    hide SysInv, Step, Expected;
    if events == [] {
      InitialInv(env);
    } else {
      assert events[|events| - 1] in events;
      ExecuteKeepsInv(env, events[..|events| - 1]);
      StepKeepsInv(env, Execute(env, events[..|events| - 1]), events[|events| - 1]);
    }
  }

  // ---------------------------------------------------------------- scheduler and catalog

  /** In every reachable state of a backup no more files are in flight than three per worker, and
      fewer whenever the coordinator is about to submit one; what it takes are results; every
      file of its snapshot is queued, in flight, failed or provided with a recipe, and only one
      of these; a cached yes is true. */
  lemma SchedulerIsSound(env: Env, events: seq<Event>)
    requires GoodEnv(env) && AllExpected(env, events) && Execute(env, events).run.Some?
    ensures var s := Execute(env, events);
            var run := s.run.value;
            && |run.workers| <= Limit(run)
            && (run.phase.Submitting? ==> |run.workers| < Limit(run))
            && (run.phase.Waiting? ==> run.workers != map[])
            && (run.phase.Taking? ==> run.phase.done != {} && AllFinished(run, run.phase.done))
            && Partition(FileItems(s.cat.items, run.snapshot), Queued(run.phase), run.workers.Keys, run.failed,
                         Assigned(s.cat.items, run.snapshot))
            && (forall x :: x in run.local && run.local[x] ==> x in s.cas)
            && (forall x :: x in run.remote && run.remote[x] ==> x in s.trusted)
  {
    hide Execute, Inv, CasGood, LiveKept, WorkersGood, PhaseGood, Partition;
    ExecuteKeepsInv(env, events);
  }

  /** With any number of workers interleaved, the recipe of a worker that succeeded names only
      chunks that are stored or were skipped on remote evidence. */
  lemma WorkerOutputIsCovered(env: Env, events: seq<Event>, i: Id)
    requires GoodEnv(env) && AllExpected(env, events) && Execute(env, events).run.Some?
    requires i in Execute(env, events).run.value.workers && Execute(env, events).run.value.workers[i].Succeeded?
    ensures var s := Execute(env, events);
            var content := s.run.value.workers[i].content;
            forall k :: 0 <= k < |env.split(content)| ==> env.hash(env.split(content)[k]) in s.cas.Keys + s.trusted
  {
    hide Execute, Inv, CasGood, LiveKept, PhaseGood, Placed, CachesTrue;
    ExecuteKeepsInv(env, events);
    var s := Execute(env, events);
    WorkersHave(env, s.run.value.workers, i, s.cas.Keys, s.trusted);
  }

  /** A chunk comes to be trusted only in a step that finds sufficient evidence for it under a
      policy that allows relying on that. */
  lemma TrustNeedsEvidence(env: Env, s: Sys, e: Event, x: Hash)
    requires x in Step(env, s, e).trusted && x !in s.trusted
    ensures s.run.Some? && s.run.value.policy.allowRemote && Evidence(s.run.value.policy, s.cat.protection, x)
  {
    hide CoordinatorStep, Evidence, Swept, PreviousBelow, P.Commit, Fits;
    match e
    case Coordinator(c) => if s.run.Some? { CoordinatorKeepsTrust(env, s, s.run.value, c); }
    case _ =>
  }

  lemma CoordinatorKeepsTrust(env: Env, s: Sys, run: Run, e: CoordinatorEvent)
    ensures CoordinatorStep(env, s, run, e).trusted == s.trusted
  {
    hide AddItems, Reuse, Consolidate, Finish, Fail, OriginAfter, Reused, ToRead, ReusedSize;
  }

  /** A snapshot becomes complete only when none of its files failed or is still open. */
  lemma CompletionMeansAllFiles(env: Env, s: Sys, e: Event, t: Id)
    requires GoodEnv(env) && SysInv(env, s) && t in s.cat.snapshots && s.cat.snapshots[t].status != COMPLETE
    requires t in Step(env, s, e).cat.snapshots && Step(env, s, e).cat.snapshots[t].status == COMPLETE
    ensures s.run.Some? && s.run.value.snapshot == t && s.run.value.failed == {} && s.run.value.workers == map[]
    ensures Assigned(s.cat.items, t) == FileItems(s.cat.items, t)
  {
    hide Inv, CasGood, LiveKept, WorkersGood, PhaseGood, CachesTrue, FileItems, Assigned, WorkerNext, AddItems, Reuse, Consolidate, HasOpenFile;
    OnlyFinishCompletes(env, s, e, t);
    assert Queued(Closing) == {};
  }

  lemma OnlyFinishCompletes(env: Env, s: Sys, e: Event, t: Id)
    requires GoodEnv(env) && SysInv(env, s) && t in s.cat.snapshots && s.cat.snapshots[t].status != COMPLETE
    requires t in Step(env, s, e).cat.snapshots && Step(env, s, e).cat.snapshots[t].status == COMPLETE
    ensures e == Coordinator(Finishes) && s.run.Some? && s.run.value.phase.Closing? && s.run.value.workers == map[]
    ensures s.run.value.failed == {} && s.run.value.snapshot == t
  {
    hide SysInv, CoordinatorStep, Work, AmbientStep, HasOpenFile, PreviousBelow, Swept;
    match e
    case Coordinator(c) => if s.run.Some? { SnapshotsAfterCoordinator(env, s, s.run.value, c); }
    case WorkerActs(item, breaks) => if s.run.Some? { WorkKeepsCatalog(env, s, s.run.value, item, breaks); }
    case Idle(i) => FreshSnapshotId(env, s);
    case Ambient(a) => AmbientKeepsSnapshots(env, s, a);
  }

  lemma WorkKeepsCatalog(env: Env, s: Sys, run: Run, i: Id, breaks: bool)
    ensures Work(env, s, run, i, breaks).cat == s.cat && Work(env, s, run, i, breaks).origin == s.origin
  {
  }

  lemma AmbientKeepsSnapshots(env: Env, s: Sys, e: AmbientEvent)
    ensures AmbientStep(env, s, e).cat.snapshots == s.cat.snapshots
  {
    hide P.Commit;
  }

  lemma FreshSnapshotId(env: Env, s: Sys)
    requires SysInv(env, s)
    ensures s.cat.nextSnapshot !in s.cat.snapshots
  {
    hide RecipeTables, CasGood, LiveKept, RunInv;
    NewSnapshotIsEmpty(s.cat);
  }

  /** The snapshot table is as before, or the snapshot was given up. */
  ghost predicate KeptOrFailed(c: Catalog, d: Catalog, snapshot: Id)
  {
    d.snapshots == c.snapshots || Fail(c, snapshot) == Some(d)
  }

  lemma AbandonKeepsOrFails(s: Sys, run: Run, recorded: bool)
    ensures KeptOrFailed(s.cat, Abandon(s, run, recorded).cat, run.snapshot)
  {
  }

  lemma AddBatchKeepsOrFails(s: Sys, run: Run, batch: seq<Entry>)
    ensures KeptOrFailed(s.cat, AddBatch(s, run, batch).cat, run.snapshot)
  {
    hide Abandon, Fail;
    AbandonKeepsOrFails(s, run, true);
    if AddItems(s.cat, run.snapshot, batch).Some? {
      AddItemsSnapshots(s.cat, run.snapshot, batch);
    }
  }

  lemma ReuseKeepsOrFails(env: Env, s: Sys, run: Run)
    requires SysInv(env, s) && s.run == Some(run) && run.phase.Reusing?
    ensures KeptOrFailed(s.cat, ReuseBatch(s, run).cat, run.snapshot)
  {
    hide Inv, CasGood, LiveKept, WorkersGood, PhaseGood, CachesTrue, Placed, Reuse, Reused, Fail, Taken, FileItems;
    ReuseResult(env, s, run);
  }

  lemma CollectKeepsOrFails(env: Env, s: Sys, run: Run, i: Id)
    requires GoodEnv(env) && SysInv(env, s) && s.run == Some(run)
    ensures KeptOrFailed(s.cat, Collect(env, s, run, i).cat, run.snapshot)
  {
    hide SysInv, GoodEnv, Consolidate, OriginAfter, Fail, Abandon;
    if i in run.workers && run.workers[i].Succeeded? {
      ConsolidateSnapshots(env, s, run, i);
    }
  }

  /** Only closing and giving up touch the snapshot table, and only the run's own row. */
  lemma SnapshotsAfterCoordinator(env: Env, s: Sys, run: Run, e: CoordinatorEvent)
    requires GoodEnv(env) && SysInv(env, s) && s.run == Some(run)
    ensures var d := CoordinatorStep(env, s, run, e).cat;
            || KeptOrFailed(s.cat, d, run.snapshot)
            || (e == Finishes && run.phase.Closing? && run.workers == map[] && run.failed == {}
                && Finish(s.cat, run.snapshot, run.size, run.files) == Some(d))
  {
    hide SysInv, AddBatch, ReuseBatch, Collect, Abandon, Fail, Finish;
    AbandonKeepsOrFails(s, run, true);
    match e
    case Batch(batch) => AddBatchKeepsOrFails(s, run, batch);
    case ReuseRecipes => if run.phase.Reusing? { ReuseKeepsOrFails(env, s, run); }
    case Collects(i) => CollectKeepsOrFails(env, s, run, i);
    case Aborts(recorded) => AbandonKeepsOrFails(s, run, recorded);
    case _ =>
  }

  lemma {:induction false} AddItemsSnapshots(c: Catalog, snapshot: Id, batch: seq<Entry>)
    requires AddItems(c, snapshot, batch).Some?
    ensures AddItems(c, snapshot, batch).value.snapshots == c.snapshots
  {
    if batch != [] {
      AddItemsSnapshots(c, snapshot, batch[..|batch| - 1]);
    }
  }

  lemma ConsolidateSnapshots(env: Env, s: Sys, run: Run, i: Id)
    requires GoodEnv(env) && SysInv(env, s) && s.run == Some(run) && i in run.workers && run.workers[i].Succeeded?
    ensures Collect(env, s, run, i).cat.snapshots == s.cat.snapshots
  {
    hide CasGood, Inv, LiveKept, CachesTrue, WorkersGood, Placed, PhaseGood, Consolidate, RowsOf, RecipeName, Fits, Covered,
         ItemTables, OriginAfter, RecipesKept, WorkerGood, GoodEnv;
    var content := run.workers[i].content;
    WorkersHave(env, run.workers, i, s.cas.Keys, s.trusted);
    SucceededWorker(env, run.workers[i], s.cas.Keys, s.trusted);
    WorkerHoldsFile(s.cat.items, run, i);
    ConsolidateSucceeds(env, s, i, content, run.policy.rf);
  }
}
