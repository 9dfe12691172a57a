/** Every event keeps the invariant of the backup system. */
module BackupSteps {
  import opened Prelude
  import opened Catalog
  import opened CatalogInvariant
  import opened ChunkCache
  import opened Backup
  import opened BackupInvariant
  import G = Gc
  import P = Protection

  // ---------------------------------------------------------------- frames

  /** What is live later was live before, with the same rows. */
  lemma LiveFrame(c: Catalog, d: Catalog, kept: set<Hash>)
    requires LiveKept(c, kept) && forall i :: Live(d, i) ==> Live(c, i) && RowsOfItem(d, i) == RowsOfItem(c, i)
    ensures LiveKept(d, kept)
  {
  }

  lemma {:induction false} UpsertKeys(rows: P.Rows, updates: seq<P.Update>, known: set<Hash>)
    requires rows.Keys == known && forall u :: u in updates ==> u.hash in known
    ensures P.Upsert(rows, updates).Keys == known
  {
    if updates != [] {
      UpsertKeys(rows, updates[..|updates| - 1], known);
      assert updates[|updates| - 1] in updates;
    }
  }

  lemma EvidenceKeepsKeys(known: set<Hash>, rows: P.Rows, x: P.Transaction)
    requires rows.Keys == known
    ensures P.Commit(P.Table(known, rows), x).rows.Keys == known
  {
    hide P.Upsert;
    match x
    case PushRecorded(us) => if P.PushAccepts(known, us) { UpsertKeys(rows, us, known); }
    case VerificationRecorded(us) => if P.VerifyAccepts(known, us) { UpsertKeys(rows, us, known); }
    case _ =>
  }

  // ---------------------------------------------------------------- ambient events

  lemma AmbientKeepsInv(env: Env, s: Sys, e: AmbientEvent)
    requires SysInv(env, s) && (e.ChunkFetched? ==> e.raw in env.universe)
    ensures SysInv(env, AmbientStep(env, s, e))
  {
    match e
    case Forgets(local, remote) => ForgettingKeepsInv(env, s, local, remote);
    case ChunkFetched(raw) => FetchKeepsInv(env, s, raw);
    case EvidenceChanges(x) => EvidenceKeepsInv(env, s, x);
  }

  lemma ForgettingKeepsInv(env: Env, s: Sys, local: set<Hash>, remote: set<Hash>)
    requires SysInv(env, s)
    ensures SysInv(env, AmbientStep(env, s, Forgets(local, remote)))
  {
    hide Inv, LiveKept, WorkersGood, PhaseGood, Placed, CasGood, Room;
    if s.run.Some? {
      var run := s.run.value;
      RoomStays(run, run.workers, run.local - local, run.remote - remote);
    }
  }

  lemma FetchKeepsInv(env: Env, s: Sys, raw: Bytes)
    requires SysInv(env, s) && raw in env.universe
    ensures SysInv(env, AmbientStep(env, s, ChunkFetched(raw)))
  {
    hide Inv, LiveKept, WorkersGood, PhaseGood, Placed, CasGood, CachesTrue;
    var t := AmbientStep(env, s, ChunkFetched(raw));
    assert s.cas.Keys <= t.cas.Keys;
    CasGrows(env, s.cas, raw);
    LiveStaysKept(s.cat, s.cas.Keys + s.trusted, t.cas.Keys + t.trusted);
    if s.run.Some? {
      WorkersStayGood(env, s.run.value.workers, s.cas.Keys, s.trusted, t.cas.Keys, t.trusted);
      CachesStayTrue(s.run.value.local, s.run.value.remote, s.cas.Keys, s.trusted, t.cas.Keys, t.trusted);
    }
  }

  lemma CasGrows(env: Env, cas: map<Hash, Bytes>, raw: Bytes)
    requires CasGood(env, cas) && raw in env.universe
    ensures CasGood(env, cas[env.hash(raw) := raw])
  {
  }

  lemma CachesStayTrue(local: map<Hash, bool>, remote: map<Hash, bool>, p: set<Hash>, t: set<Hash>, p': set<Hash>, t': set<Hash>)
    requires CachesTrue(local, remote, p, t) && p <= p' && t <= t'
    ensures CachesTrue(local, remote, p', t')
  {
  }

  lemma EvidenceKeepsInv(env: Env, s: Sys, x: P.Transaction)
    requires SysInv(env, s)
    ensures SysInv(env, AmbientStep(env, s, EvidenceChanges(x)))
  {
    hide P.Commit, WorkersGood, PhaseGood, Placed, CasGood, RecipeGood, IndexGood, SizesGenuine, CachesTrue;
    var t := AmbientStep(env, s, EvidenceChanges(x));
    EvidenceKeepsKeys(s.cat.chunks.Keys, s.cat.protection, x);
    ItemTablesFrame(s.cat, t.cat);
    LiveFrame(s.cat, t.cat, s.cas.Keys + s.trusted);
  }

  // ---------------------------------------------------------------- between backups

  lemma IdleKeepsInv(env: Env, s: Sys, e: IdleEvent)
    requires SysInv(env, s) && s.run.None?
    ensures SysInv(env, IdleStep(s, e))
  {
    match e
    case Begins(root, policy, workers) => BeginKeepsInv(env, s, root, policy, workers);
    case Collection(settings, files) => CollectionKeepsInv(env, s, settings, files);
  }

  /** The previous snapshot a backup builds on is complete. */
  lemma {:induction false} PreviousIsComplete(c: Catalog, root: string, k: Id)
    ensures var p := PreviousBelow(c, root, k);
            p.Some? ==> p.value < k && p.value in c.snapshots && c.snapshots[p.value].status == COMPLETE && c.snapshots[p.value].root == root
    ensures forall j :: (j in c.snapshots && j < k && c.snapshots[j].root == root && c.snapshots[j].status == COMPLETE) ==>
              PreviousBelow(c, root, k).Some? && j <= PreviousBelow(c, root, k).value
  {
    if k > 0 {
      PreviousIsComplete(c, root, k - 1);
    }
  }

  lemma BeginKeepsInv(env: Env, s: Sys, root: string, policy: Policy, workers: nat)
    requires SysInv(env, s) && s.run.None?
    ensures SysInv(env, Begin(s, root, policy, workers))
  {
    hide CasGood, RecipeTables, ItemTables, LiveKept, RunInv, PreviousBelow, Live;
    var c := CreateSnapshot(s.cat, root);
    CreateSnapshotKeeps(s.cat, root);
    CreateKeepsRecipes(env, s, root);
    CreateKeepsLive(s.cat, root);
    LiveFrame(s.cat, c, s.cas.Keys + s.trusted);
    NewRunGood(env, s, root, policy, workers);
  }

  lemma CreateKeepsLive(c: Catalog, root: string)
    requires ItemTables(c)
    ensures forall i :: Live(CreateSnapshot(c, root), i) ==> Live(c, i) && RowsOfItem(CreateSnapshot(c, root), i) == RowsOfItem(c, i)
  {
    NewSnapshotIsEmpty(c);
  }

  lemma NewRunGood(env: Env, s: Sys, root: string, policy: Policy, workers: nat)
    requires ItemTables(s.cat)
    ensures RunInv(env, Begin(s, root, policy, workers), Begin(s, root, policy, workers).run.value)
  {
    hide PreviousBelow, ItemTables, FileItems, Assigned;
    PreviousIsComplete(CreateSnapshot(s.cat, root), root, s.cat.nextSnapshot);
    NewSnapshotIsEmpty(s.cat);
  }

  lemma CreateKeepsRecipes(env: Env, s: Sys, root: string)
    requires RecipeTables(env.hash, env.universe, env.split, s.cat, s.origin)
    ensures RecipeTables(env.hash, env.universe, env.split, CreateSnapshot(s.cat, root), s.origin)
  {
    hide RecipeGood, IndexGood, SizesGenuine;
  }

  lemma NewSnapshotIsEmpty(c: Catalog)
    requires ItemTables(c)
    ensures c.nextSnapshot !in c.snapshots && FileItems(c.items, c.nextSnapshot) == {} && Assigned(c.items, c.nextSnapshot) == {}
    ensures forall i :: i in c.items ==> c.items[i].snapshot != c.nextSnapshot
  {
    assert forall s :: s in c.snapshots ==> SnapshotGood(c, s);
    forall i | i in c.items ensures c.items[i].snapshot != c.nextSnapshot {
      assert ItemGood(c, i);
    }
  }

  /** Collection deletes nothing that a live file needs. */
  lemma SweptIsGarbage(s: Sys, settings: G.Settings, files: seq<G.Candidate>, i: Id, k: nat)
    requires Live(s.cat, i) && k < |RowsOfItem(s.cat, i)|
    ensures RowsOfItem(s.cat, i)[k].hash !in Swept(s, settings, files)
  {
    hide G.DeletedNames;
    var x := RowsOfItem(s.cat, i)[k].hash;
    assert x in ProtectedHashes(s.cat);
    if x in Swept(s, settings, files) {
      G.DeletesOnlyGarbage(settings.(retain := Some(ProtectedHashes(s.cat))), files, x);
    }
  }

  lemma CollectionKeepsInv(env: Env, s: Sys, settings: G.Settings, files: seq<G.Candidate>)
    requires SysInv(env, s) && s.run.None?
    ensures SysInv(env, IdleStep(s, Collection(settings, files)))
  {
    hide Inv, Swept, Live, RowsOfItem;
    var t := IdleStep(s, Collection(settings, files));
    forall i | Live(t.cat, i) ensures RowsKept(RowsOfItem(t.cat, i), t.cas.Keys + t.trusted) {
      assert RowsKept(RowsOfItem(s.cat, i), s.cas.Keys + s.trusted);
      forall k | 0 <= k < |RowsOfItem(t.cat, i)| ensures RowsOfItem(t.cat, i)[k].hash in t.cas.Keys + t.trusted {
        SweptIsGarbage(s, settings, files, i, k);
      }
    }
  }
}
