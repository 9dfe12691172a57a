/** Which chunks a push run works on: the whole queue, or the queue cut down to a scope. */
module Scope {
  import opened Prelude
  import opened ProtectionPolicy
  import opened Catalog
  import opened CatalogInvariant
  import opened Backup
  import opened BackupInvariant
  import opened BackupRuns
  import opened EndToEnd
  import P = Protection
  import R = Recipes

  datatype Scope = PendingQueue | OneSnapshot(id: Id) | AllReachable | AllKnown

  datatype Error = BadCombination | NotSupported | SnapshotIdMissing | NoSuchSnapshot | NotComplete

  /** A snapshot id selects the snapshot scope and tolerates no other. */
  function Normalize(name: Option<string>, snapshot: Option<Id>): Result<Scope, Error>
  {
    var value := if name.None? || name.value == "" then "pending" else name.value;
    if snapshot.Some? then
      if value == "pending" || value == "snapshot" then Ok(OneSnapshot(snapshot.value)) else Err(BadCombination)
    else if value == "pending" then Ok(PendingQueue)
    else if value == "all-reachable" then Ok(AllReachable)
    else if value == "all-known-chunks" then Ok(AllKnown)
    else if value == "snapshot" then Err(SnapshotIdMissing)
    else Err(NotSupported)
  }

  function ItemRows(c: Catalog, i: Id): seq<R.Row>
  {
    if i in c.items && c.items[i].isFile && c.items[i].recipe.Some? && c.items[i].recipe.value in c.recipes
    then c.recipes[c.items[i].recipe.value].rows else []
  }

  function SnapshotHashes(c: Catalog, s: Id): set<Hash>
  {
    set i, k | i in c.items && c.items[i].snapshot == s && 0 <= k < |ItemRows(c, i)| :: ItemRows(c, i)[k].hash
  }

  predicate Complete(c: Catalog, s: Id)
  {
    s in c.snapshots && c.snapshots[s].status == COMPLETE
  }

  function ReachableHashes(c: Catalog): set<Hash>
  {
    set i, k | i in c.items && Complete(c, c.items[i].snapshot) && 0 <= k < |ItemRows(c, i)| :: ItemRows(c, i)[k].hash
  }

  /** The chunks of a scope; the pending queue is not resolved this way. */
  function HashesFor(c: Catalog, scope: Scope): Result<set<Hash>, Error>
  {
    match scope
    case PendingQueue => Err(NotSupported)
    case OneSnapshot(id) =>
      if id !in c.snapshots then Err(NoSuchSnapshot)
      else if c.snapshots[id].status != COMPLETE then Err(NotComplete)
      else Ok(SnapshotHashes(c, id))
    case AllReachable => Ok(ReachableHashes(c))
    case AllKnown => Ok(c.chunks.Keys)
  }

  function PushChunks(c: Catalog, scope: Scope, rf: int, epoch: Option<Epoch>): Result<set<Hash>, Error>
  {
    if scope.PendingQueue? then Ok(P.Selected(c.protection, rf, epoch))
    else
      var hashes := HashesFor(c, scope);
      if hashes.Err? then Err(hashes.error) else Ok(P.SelectedIn(c.protection, hashes.value, rf, epoch))
  }

  /** Chunks of complete snapshots are chunks the collector keeps. */
  lemma ReachableIsProtected(c: Catalog)
    ensures ReachableHashes(c) <= ProtectedHashes(c)
  {
    forall x | x in ReachableHashes(c) ensures x in ProtectedHashes(c) {
      var i, k :| i in c.items && Complete(c, c.items[i].snapshot) && 0 <= k < |ItemRows(c, i)| && ItemRows(c, i)[k].hash == x;
      assert Live(c, i) && RowsOfItem(c, i) == ItemRows(c, i);
    }
  }

  lemma SnapshotIsReachable(c: Catalog, s: Id)
    requires Complete(c, s)
    ensures SnapshotHashes(c, s) <= ReachableHashes(c)
  {
  }

  /** Every chunk a recipe names is registered and has a protection row. */
  lemma ReachableIsKnown(env: Env, s: Sys)
    requires SysInv(env, s)
    ensures ReachableHashes(s.cat) <= s.cat.chunks.Keys == s.cat.protection.Keys
  {
    hide CasGood, LiveKept, RunInv, IndexGood, SizesGenuine, ItemTables;
    var c := s.cat;
    forall x | x in ReachableHashes(c) ensures x in c.chunks {
      var i, k :| i in c.items && Complete(c, c.items[i].snapshot) && 0 <= k < |ItemRows(c, i)| && ItemRows(c, i)[k].hash == x;
      var r := c.items[i].recipe.value;
      assert RecipeGood(env.hash, env.universe, env.split, c.recipes[r], c.chunks, s.origin[r]);
    }
  }

  /** In every reachable state the scopes are nested, each selects its part of the queue, and
      the scope of all known chunks selects the whole queue. */
  lemma ScopesAreNested(env: Env, events: seq<Event>, id: Id, rf: int, epoch: Option<Epoch>)
    requires GoodEnv(env) && AllExpected(env, events) && Complete(Execute(env, events).cat, id)
    ensures var c := Execute(env, events).cat;
            var queue := P.Selected(c.protection, rf, epoch);
            && PushChunks(c, PendingQueue, rf, epoch) == PushChunks(c, AllKnown, rf, epoch) == Ok(queue)
            && PushChunks(c, AllReachable, rf, epoch) == Ok(queue * ReachableHashes(c))
            && PushChunks(c, OneSnapshot(id), rf, epoch) == Ok(queue * SnapshotHashes(c, id))
            && SnapshotHashes(c, id) <= ReachableHashes(c) <= c.chunks.Keys
  {
    hide Execute, SysInv, P.Pending, ReachableHashes, SnapshotHashes;
    ExecuteKeepsInv(env, events);
    var s := Execute(env, events);
    ReachableIsKnown(env, s);
    SnapshotIsReachable(s.cat, id);
    P.ScopedIsRestriction(s.cat.protection, ReachableHashes(s.cat), rf, epoch);
    P.ScopedIsRestriction(s.cat.protection, SnapshotHashes(s.cat, id), rf, epoch);
    P.ScopedIsRestriction(s.cat.protection, s.cat.chunks.Keys, rf, epoch);
    var queue := P.Selected(s.cat.protection, rf, epoch);
    assert queue <= s.cat.protection.Keys;
    assert queue * s.cat.chunks.Keys == queue;
  }

  /** Whatever a push over reachable chunks selects can be read from the local store, after any
      backups, failures and collections. */
  lemma SelectedChunksAreStored(env: Env, events: seq<Event>, rf: int, epoch: Option<Epoch>)
    requires GoodEnv(env) && AllExpected(env, events) && LocalOnly(events)
    ensures var s := Execute(env, events);
            PushChunks(s.cat, AllReachable, rf, epoch).value <= s.cas.Keys
  {
    hide Execute, P.Pending, Inv, CasGood, RunInv;
    ExecuteKeepsInv(env, events);
    NothingTrusted(env, events);
    var s := Execute(env, events);
    forall x | x in ReachableHashes(s.cat) ensures x in s.cas {
      var i, k :| i in s.cat.items && Complete(s.cat, s.cat.items[i].snapshot) && 0 <= k < |ItemRows(s.cat, i)| && ItemRows(s.cat, i)[k].hash == x;
      assert Live(s.cat, i) && RowsOfItem(s.cat, i) == ItemRows(s.cat, i);
      assert RowsKept(RowsOfItem(s.cat, i), s.cas.Keys + s.trusted);
    }
  }

  /** The command's view: a scope name and a snapshot id, either of them optional. */
  function ScopedPush(c: Catalog, name: Option<string>, snapshot: Option<Id>, rf: int, epoch: Option<Epoch>): Result<set<Hash>, Error>
  {
    var scope := Normalize(name, snapshot);
    if scope.Err? then Err(scope.error) else PushChunks(c, scope.value, rf, epoch)
  }

  /** With a snapshot id the request is accepted exactly for a complete snapshot and no other
      scope name, and never selects more than the queue; a snapshot that is still being made, or
      has failed, is no scope. */
  lemma OnlyCompleteSnapshots(c: Catalog, name: Option<string>, id: Id, rf: int, epoch: Option<Epoch>)
    ensures ScopedPush(c, name, Some(id), rf, epoch).Ok? <==>
            Complete(c, id) && (name.None? || name.value in {"", "pending", "snapshot"})
    ensures ScopedPush(c, name, Some(id), rf, epoch).Ok? ==>
              ScopedPush(c, name, Some(id), rf, epoch).value == P.Selected(c.protection, rf, epoch) * SnapshotHashes(c, id)
  {
    hide SnapshotHashes, P.Pending;
    P.ScopedIsRestriction(c.protection, SnapshotHashes(c, id), rf, epoch);
  }
}
