/** Replication evidence in the whole system: whatever backups, failures, collections, pushes and
    verifications have happened, the push queue, the scopes and the planner agree on which chunks
    are protected. */
module SystemEvidence {
  import opened Prelude
  import opened ProtectionPolicy
  import opened Catalog
  import opened CatalogInvariant
  import opened ChunkCache
  import opened Backup
  import opened BackupInvariant
  import opened BackupRuns
  import opened Scope
  import P = Protection
  import R = Recipes

  // ---------------------------------------------------------------- evidence behind every row

  /** Every row that counts as protected has the copies it asks for. */
  ghost predicate Supported(rows: P.Rows)
  {
    forall h :: h in rows ==> P.HasEvidence(rows[h])
  }

  /** Pushes and verifications record what they found. */
  ghost predicate HonestEvents(events: seq<Event>)
  {
    forall e :: e in events ==> HonestEvent(e)
  }

  predicate HonestEvent(e: Event)
  {
    e.Ambient? && e.a.EvidenceChanges? ==> P.HonestTransaction(e.a.x)
  }

  lemma EnsureKeepsSupport(rows: P.Rows, hashes: set<Hash>, rf: int)
    requires Supported(rows)
    ensures Supported(P.Ensure(rows, hashes, rf))
  {
  }

  lemma UpsertKeepsSupport(rows: P.Rows, updates: seq<P.Update>)
    requires Supported(rows) && forall u :: u in updates ==> u.Honest()
    ensures Supported(P.Upsert(rows, updates))
  {
    hide P.Upsert, P.LastFor;
    forall h | h in P.Upsert(rows, updates) ensures P.HasEvidence(P.Upsert(rows, updates)[h]) {
      P.UpsertMeaning(rows, updates, h);
    }
  }

  lemma CommitKeepsSupport(t: P.Table, x: P.Transaction)
    requires Supported(t.rows) && P.HonestTransaction(x)
    ensures Supported(P.Commit(t, x).rows)
  {
    hide P.Upsert, P.Ensure;
    match x
    case ChunksRegistered(_) =>
    case Ensured(hashes, rf) => EnsureKeepsSupport(t.rows, hashes, rf);
    case PushRecorded(us) => UpsertKeepsSupport(t.rows, us);
    case VerificationRecorded(us) => UpsertKeepsSupport(t.rows, us);
    case StaleMarked(_, _) =>
  }

  // ---------------------------------------------------------------- the catalog's transactions

  lemma {:induction false} AddItemsProtection(c: Catalog, snapshot: Id, batch: seq<Entry>)
    requires AddItems(c, snapshot, batch).Some?
    ensures AddItems(c, snapshot, batch).value.protection == c.protection
  {
    if batch != [] {
      hide PathTaken;
      AddItemsProtection(c, snapshot, batch[..|batch| - 1]);
    }
  }

  lemma {:induction false} AssignAllProtection(c: Catalog, assignments: seq<Assignment>)
    requires AssignAll(c, assignments).Some?
    ensures AssignAll(c, assignments).value.protection == c.protection
  {
    if assignments != [] {
      AssignAllProtection(c, assignments[..|assignments| - 1]);
    }
  }

  lemma {:induction false} EnsureAllKeepsSupport(c: Catalog, assignments: seq<Assignment>, rf: nat)
    requires Supported(c.protection)
    ensures Supported(EnsureAll(c, assignments, rf).protection)
  {
    if assignments != [] {
      hide Supported, P.Ensure, HashesOf;
      var a := assignments[|assignments| - 1];
      var before := EnsureAll(c, assignments[..|assignments| - 1], rf);
      EnsureAllKeepsSupport(c, assignments[..|assignments| - 1], rf);
      if a.recipe in before.recipes {
        EnsureKeepsSupport(before.protection, HashesOf(before.recipes[a.recipe].rows), rf);
      }
    }
  }

  lemma ReuseKeepsSupport(c: Catalog, assignments: seq<Assignment>, rf: nat)
    requires Supported(c.protection) && Reuse(c, assignments, rf).Some?
    ensures Supported(Reuse(c, assignments, rf).value.protection)
  {
    hide Supported, AssignAll, EnsureAll;
    AssignAllProtection(c, assignments);
    EnsureAllKeepsSupport(AssignAll(c, assignments).value, assignments, rf);
  }

  lemma ConsolidateKeepsSupport(c: Catalog, item: Id, hash: Hash, rows: seq<R.Row>, rf: nat)
    requires Supported(c.protection) && Consolidate(c, item, hash, rows, rf).Some?
    ensures Supported(Consolidate(c, item, hash, rows, rf).value.protection)
  {
    hide Supported, P.Ensure, HashesOf, RegisterChunks, RowsRegistered, Contiguous, TotalSize;
    EnsureKeepsSupport(c.protection, HashesOf(rows), rf);
  }

  // ---------------------------------------------------------------- the system's steps

  lemma AbandonProtection(s: Sys, run: Run, recorded: bool)
    ensures Abandon(s, run, recorded).cat.protection == s.cat.protection
  {
  }

  lemma CollectKeepsSupport(env: Env, s: Sys, run: Run, i: Id)
    requires Supported(s.cat.protection)
    ensures Supported(Collect(env, s, run, i).cat.protection)
  {
    hide Supported, Consolidate, OriginAfter, RowsOf, RecipeName, Abandon;
    AbandonProtection(s, run, true);
    if i in run.workers && run.workers[i].Succeeded? {
      var rows := RowsOf(env.hash, env.split(run.workers[i].content));
      if Consolidate(s.cat, i, RecipeName(env.hash, rows), rows, run.policy.rf).Some? {
        ConsolidateKeepsSupport(s.cat, i, RecipeName(env.hash, rows), rows, run.policy.rf);
      }
    }
  }

  lemma ReuseBatchKeepsSupport(s: Sys, run: Run)
    requires Supported(s.cat.protection) && run.phase.Reusing?
    ensures Supported(ReuseBatch(s, run).cat.protection)
  {
    hide Supported, Reuse, Reused, ToRead, ReusedSize, Abandon;
    AbandonProtection(s, run, true);
    var reused := Reused(s.cat, run, run.phase.first, run.phase.batch);
    if Reuse(s.cat, reused, run.policy.rf).Some? {
      ReuseKeepsSupport(s.cat, reused, run.policy.rf);
    }
  }

  lemma AddBatchProtection(s: Sys, run: Run, batch: seq<Entry>)
    ensures AddBatch(s, run, batch).cat.protection == s.cat.protection
  {
    hide AddItems, Abandon;
    AbandonProtection(s, run, true);
    if AddItems(s.cat, run.snapshot, batch).Some? {
      AddItemsProtection(s.cat, run.snapshot, batch);
    }
  }

  lemma CoordinatorKeepsSupport(env: Env, s: Sys, run: Run, e: CoordinatorEvent)
    requires Supported(s.cat.protection)
    ensures Supported(CoordinatorStep(env, s, run, e).cat.protection)
  {
    hide Supported, AddBatch, ReuseBatch, Collect, Abandon, HasOpenFile, MayCollect, AllFinished;
    match e
    case Batch(batch) => AddBatchProtection(s, run, batch);
    case ReuseRecipes => if run.phase.Reusing? { ReuseBatchKeepsSupport(s, run); }
    case SubmitNext(_) =>
    case Wakes(_) =>
    case Collects(i) => CollectKeepsSupport(env, s, run, i);
    case WalkEnds =>
    case Finishes => AbandonProtection(s, run, true);
    case Aborts(recorded) => AbandonProtection(s, run, recorded);
  }

  lemma StepKeepsSupport(env: Env, s: Sys, e: Event)
    requires Supported(s.cat.protection) && HonestEvent(e)
    ensures Supported(Step(env, s, e).cat.protection)
  {
    hide Supported, CoordinatorStep, Work, PreviousBelow, Swept, P.Commit, P.HonestTransaction;
    match e
    case Coordinator(c) => if s.run.Some? { CoordinatorKeepsSupport(env, s, s.run.value, c); }
    case WorkerActs(item, breaks) => if s.run.Some? { WorkKeepsCatalog(env, s, s.run.value, item, breaks); }
    case Idle(_) =>
    case Ambient(a) =>
      if a.EvidenceChanges? {
        CommitKeepsSupport(P.Table(s.cat.chunks.Keys, s.cat.protection), a.x);
      }
  }

  lemma {:induction false} ExecuteKeepsSupport(env: Env, events: seq<Event>)
    requires HonestEvents(events)
    ensures Supported(Execute(env, events).cat.protection)
  {
    if events != [] {
      hide Supported, Step, HonestEvent;
      var n := |events| - 1;
      assert events[n] in events;
      ExecuteKeepsSupport(env, events[..n]);
      StepKeepsSupport(env, Execute(env, events[..n]), events[n]);
    }
  }

  // ---------------------------------------------------------------- one fact for everybody

  /** In every reachable state of the whole system, for every factor of at least one and every
      optional epoch, the push queue is exactly the rows whose evidence is not sufficient. */
  lemma QueueIsInsufficient(env: Env, events: seq<Event>, rf: nat, epoch: Option<Epoch>)
    requires HonestEvents(events) && rf >= 1
    ensures var rows := Execute(env, events).cat.protection;
            P.Selected(rows, rf, epoch) == set h | h in rows && !Sufficient(Some(rows[h]), rf, epoch)
  {
    hide Execute, HonestEvents;
    ExecuteKeepsSupport(env, events);
  }

  /** Every scope that can be resolved selects exactly its chunks with insufficient evidence. */
  lemma ScopeIsInsufficient(env: Env, events: seq<Event>, scope: Scope, rf: nat, epoch: Option<Epoch>)
    requires HonestEvents(events) && rf >= 1 && HashesFor(Execute(env, events).cat, scope).Ok?
    ensures var c := Execute(env, events).cat;
            PushChunks(c, scope, rf, epoch)
            == Ok(set h | h in HashesFor(c, scope).value && h in c.protection && !Sufficient(Some(c.protection[h]), rf, epoch))
  {
    hide Execute, HonestEvents, ReachableHashes, SnapshotHashes, P.Pending, Sufficient;
    QueueIsInsufficient(env, events, rf, epoch);
    var c := Execute(env, events).cat;
    var hashes := HashesFor(c, scope).value;
    P.ScopedIsRestriction(c.protection, hashes, rf, epoch);
    assert P.SelectedIn(c.protection, hashes, rf, epoch)
        == set h | h in hashes && h in c.protection && !Sufficient(Some(c.protection[h]), rf, epoch);
  }

  /** The planner may skip a chunk the catalog knows, under a policy that asks for copies, exactly
      when a push for the same factor and epoch would not select it. */
  lemma PlannerAgreesWithQueue(env: Env, events: seq<Event>, policy: Policy, x: Hash)
    requires GoodEnv(env) && AllExpected(env, events) && HonestEvents(events)
    requires policy.rf >= 1 && x in Execute(env, events).cat.chunks
    ensures var rows := Execute(env, events).cat.protection;
            Evidence(policy, rows, x) <==> x !in P.Selected(rows, policy.rf, policy.epoch)
  {
    hide Execute, HonestEvents, AllExpected, GoodEnv, Sufficient, P.Pending, SysInv;
    ExecuteKeepsInv(env, events);
    KnownHasRow(env, Execute(env, events));
    QueueIsInsufficient(env, events, policy.rf, policy.epoch);
  }

  lemma KnownHasRow(env: Env, s: Sys)
    requires SysInv(env, s)
    ensures s.cat.protection.Keys == s.cat.chunks.Keys
  {
    hide CasGood, LiveKept, RunInv, ItemTables, IndexGood, SizesGenuine, RecipeGood;
  }

  /** A chunk that a worker comes to trust has, at that moment, at least the copies the policy asks
      for, and is in no push queue for that factor and epoch. */
  lemma TrustedHasCopies(env: Env, events: seq<Event>, e: Event, x: Hash)
    requires HonestEvents(events) && x in Step(env, Execute(env, events), e).trusted && x !in Execute(env, events).trusted
    requires Execute(env, events).run.Some? && Execute(env, events).run.value.policy.rf >= 1
    ensures var s := Execute(env, events);
            var policy := s.run.value.policy;
            && x in s.cat.protection && s.cat.protection[x].copies >= policy.rf
            && x !in P.Selected(s.cat.protection, policy.rf, policy.epoch)
  {
    hide Execute, HonestEvents, Step;
    TrustNeedsEvidence(env, Execute(env, events), e, x);
    QueueIsInsufficient(env, events, Execute(env, events).run.value.policy.rf, Execute(env, events).run.value.policy.epoch);
  }
}
