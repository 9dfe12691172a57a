/** The invariant of the backup system and its preservation by every step. */
module BackupInvariant {
  import opened Prelude
  import opened Catalog
  import opened CatalogInvariant
  import opened ChunkCache
  import opened Backup
  import R = Recipes

  // ---------------------------------------------------------------- the invariant

  /** The first n chunks of the content are among the kept ones. */
  ghost predicate Covered(env: Env, content: Bytes, n: nat, kept: set<Hash>)
  {
    n <= |env.split(content)| && forall k :: 0 <= k < n ==> env.hash(env.split(content)[k]) in kept
  }

  ghost predicate WorkerGood(env: Env, w: Worker, present: set<Hash>, trusted: set<Hash>)
  {
    match w
    case Busy(content, done, pc) =>
      && Foreseen(env.hash, env.universe, env.split, content)
      && Covered(env, content, done, present + trusted)
      && (done < |env.split(content)| ==>
            var x := CurrentHash(env, content, done);
            && (pc == SawLocal(true) || pc == Stored ==> x in present)
            && (pc == SawRemote(true) ==> x in trusted))
    case Succeeded(content) =>
      Fits(env.hash, env.universe, env.split, content) && Covered(env, content, |env.split(content)|, present + trusted)
    case Broken => true
  }

  /** A cached yes is true; a cached no may be out of date. */
  ghost predicate CachesTrue(local: map<Hash, bool>, remote: map<Hash, bool>, present: set<Hash>, trusted: set<Hash>)
  {
    && (forall x :: x in local && local[x] ==> x in present)
    && (forall x :: x in remote && remote[x] ==> x in trusted)
  }

  ghost predicate WorkersGood(env: Env, workers: map<Id, Worker>, present: set<Hash>, trusted: set<Hash>)
  {
    forall i :: i in workers ==> WorkerGood(env, workers[i], present, trusted)
  }

  /** Files that still have to be handed to a worker. */
  ghost function Queued(phase: Phase): set<Id>
  {
    match phase
    case Reusing(first, batch) => set k | 0 <= k < |batch| && batch[k].isFile :: first + k
    case Closing => {}
    case _ => set i | i in phase.todo
  }

  ghost function Assigned(items: map<Id, Item>, snapshot: Id): set<Id>
  {
    set i | i in FileItems(items, snapshot) && items[i].recipe.Some?
  }

  ghost predicate Distinct(todo: seq<Id>)
  {
    forall i, j :: 0 <= i < j < |todo| ==> todo[i] != todo[j]
  }

  ghost predicate PhaseGood(items: map<Id, Item>, snapshot: Id, phase: Phase)
  {
    match phase
    case Reusing(first, batch) => forall i :: first <= i < first + |batch| ==> i in items && items[i] == NewItem(snapshot, batch[i - first])
    case Closing => true
    case _ => Distinct(phase.todo)
  }

  /** There is room for one more file except while the coordinator waits for results or takes
      them; and what it takes are results. */
  ghost predicate Room(run: Run)
  {
    match run.phase
    case Waiting(_) => |run.workers| == Limit(run)
    case Taking(_, done) => |run.workers| <= Limit(run) && done != {} && AllFinished(run, done)
    case _ => |run.workers| < Limit(run)
  }

  /** Every file of the snapshot is in exactly one place: queued, with a worker, failed, or
      provided with a recipe; and the file counter counts the last kind. */
  ghost predicate Placed(items: map<Id, Item>, snapshot: Id, phase: Phase, working: set<Id>, failed: set<Id>, files: nat)
  {
    && Partition(FileItems(items, snapshot), Queued(phase), working, failed, Assigned(items, snapshot))
    && files == |Assigned(items, snapshot)|
  }

  ghost predicate Partition(all: set<Id>, queued: set<Id>, working: set<Id>, failed: set<Id>, given: set<Id>)
  {
    && all == queued + working + failed + given
    && queued !! working && queued !! failed && queued !! given
    && working !! failed && working !! given && failed !! given
  }

  ghost predicate RunInv(env: Env, s: Sys, run: Run)
  {
    && run.snapshot in s.cat.snapshots && s.cat.snapshots[run.snapshot].status == CREATING
    && (run.previous.Some? ==> run.previous.value in s.cat.snapshots && s.cat.snapshots[run.previous.value].status == COMPLETE)
    && Room(run)
    && CachesTrue(run.local, run.remote, s.cas.Keys, s.trusted)
    && WorkersGood(env, run.workers, s.cas.Keys, s.trusted)
    && PhaseGood(s.cat.items, run.snapshot, run.phase)
    && Placed(s.cat.items, run.snapshot, run.phase, run.workers.Keys, run.failed, run.files)
  }

  ghost predicate CasGood(env: Env, cas: map<Hash, Bytes>)
  {
    forall x :: x in cas ==> cas[x] in env.universe && env.hash(cas[x]) == x
  }

  ghost predicate RowsKept(rows: seq<R.Row>, kept: set<Hash>)
  {
    forall k :: 0 <= k < |rows| ==> rows[k].hash in kept
  }

  /** Every chunk of a live file is in the store or was trusted to be elsewhere. */
  ghost predicate LiveKept(c: Catalog, kept: set<Hash>)
  {
    forall i :: Live(c, i) ==> RowsKept(RowsOfItem(c, i), kept)
  }

  ghost predicate SysInv(env: Env, s: Sys)
  {
    && Inv(env.hash, env.universe, env.split, s.cat, s.origin)
    && CasGood(env, s.cas)
    && LiveKept(s.cat, s.cas.Keys + s.trusted)
    && (s.run.Some? ==> RunInv(env, s, s.run.value))
  }

  ghost predicate GoodEnv(env: Env)
  {
    InjectiveOn(env.hash, env.universe) && Splits(env.split)
  }

  lemma InitialInv(env: Env)
    ensures SysInv(env, INITIAL)
  {
    EmptyInv(env.hash, env.universe, env.split);
  }

  // ---------------------------------------------------------------- a growing store

  lemma WorkerStaysGood(env: Env, w: Worker, p: set<Hash>, t: set<Hash>, p': set<Hash>, t': set<Hash>)
    requires WorkerGood(env, w, p, t) && p <= p' && t <= t'
    ensures WorkerGood(env, w, p', t')
  {
  }

  lemma WorkersStayGood(env: Env, ws: map<Id, Worker>, p: set<Hash>, t: set<Hash>, p': set<Hash>, t': set<Hash>)
    requires WorkersGood(env, ws, p, t) && p <= p' && t <= t'
    ensures WorkersGood(env, ws, p', t')
  {
    hide WorkerGood;
    forall i | i in ws ensures WorkerGood(env, ws[i], p', t') {
      WorkerStaysGood(env, ws[i], p, t, p', t');
    }
  }

  lemma LiveStaysKept(c: Catalog, kept: set<Hash>, kept': set<Hash>)
    requires LiveKept(c, kept) && kept <= kept'
    ensures LiveKept(c, kept')
  {
    forall i | Live(c, i) ensures RowsKept(RowsOfItem(c, i), kept') {
      assert RowsKept(RowsOfItem(c, i), kept);
    }
  }

  // ---------------------------------------------------------------- workers

  lemma CoveredNext(env: Env, content: Bytes, done: nat, kept: set<Hash>)
    requires Covered(env, content, done, kept) && done < |env.split(content)| && CurrentHash(env, content, done) in kept
    ensures Covered(env, content, done + 1, kept)
  {
  }

  /** The worker that moved is good for the store and the trust it leaves behind. */
  lemma MovedWorkerGood(env: Env, s: Sys, run: Run, w: Worker)
    requires w.Busy? && WorkerGood(env, w, s.cas.Keys, s.trusted) && CachesTrue(run.local, run.remote, s.cas.Keys, s.trusted)
    ensures WorkerGood(env, WorkerNext(env, s, run, w), StoreNext(env, s, w).Keys, TrustedNext(env, s, run, w))
  {
    hide Evidence, InFormat, Foreseen, Covered;
    var p, t := s.cas.Keys, s.trusted;
    var p', t' := StoreNext(env, s, w).Keys, TrustedNext(env, s, run, w);
    WorkerStaysGood(env, w, p, t, p', t');
    var n := |env.split(w.content)|;
    if w.done < n {
      var x := CurrentHash(env, w.content, w.done);
      if x in p' + t' {
        CoveredNext(env, w.content, w.done, p' + t');
      }
    } else {
      CoveredIsBounded(env, w.content, w.done, p' + t');
    }
  }

  lemma CoveredIsBounded(env: Env, content: Bytes, n: nat, kept: set<Hash>)
    requires Covered(env, content, n, kept)
    ensures n <= |env.split(content)|
  {
  }

  lemma MovedCachesTrue(env: Env, s: Sys, run: Run, w: Worker)
    requires w.Busy? && WorkerGood(env, w, s.cas.Keys, s.trusted) && CachesTrue(run.local, run.remote, s.cas.Keys, s.trusted)
    ensures CachesTrue(LocalNext(env, run, w), RemoteNext(env, run, w), StoreNext(env, s, w).Keys, TrustedNext(env, s, run, w))
  {
    hide Evidence, InFormat, Foreseen, Covered;
  }

  lemma WorkKeepsInv(env: Env, s: Sys, i: Id, breaks: bool)
    requires SysInv(env, s) && s.run.Some?
    ensures SysInv(env, Work(env, s, s.run.value, i, breaks))
  {
    hide Inv, LiveKept, WorkerGood, WorkerNext, StoreNext, TrustedNext, LocalNext, RemoteNext, CachesTrue, PhaseGood, Placed, CasGood, Room;
    var run := s.run.value;
    if i in run.workers && run.workers[i].Busy? {
      var w := run.workers[i];
      if breaks {
        BrokenIsGood(env, s.cas.Keys, s.trusted);
        assert run.workers[i := Broken].Keys == run.workers.Keys;
        RoomStays(run, run.workers[i := Broken], run.local, run.remote);
      } else {
        var p', t' := StoreNext(env, s, w).Keys, TrustedNext(env, s, run, w);
        var w' := WorkerNext(env, s, run, w);
        StoreGrows(env, s, run, w);
        MovedWorkerGood(env, s, run, w);
        MovedCachesTrue(env, s, run, w);
        WorkersStayGood(env, run.workers, s.cas.Keys, s.trusted, p', t');
        LiveStaysKept(s.cat, s.cas.Keys + s.trusted, p' + t');
        assert run.workers[i := w'].Keys == run.workers.Keys;
        RoomStays(run, run.workers[i := w'], LocalNext(env, run, w), RemoteNext(env, run, w));
      }
    }
  }

  lemma BrokenIsGood(env: Env, p: set<Hash>, t: set<Hash>)
    ensures WorkerGood(env, Broken, p, t)
  {
  }

  /** Workers that move, the finished ones staying finished, leave the room as it is. */
  lemma RoomStays(run: Run, workers: map<Id, Worker>, local: map<Hash, bool>, remote: map<Hash, bool>)
    requires Room(run) && workers.Keys == run.workers.Keys
    requires forall i :: i in workers && !run.workers[i].Busy? ==> workers[i] == run.workers[i]
    ensures Room(run.(workers := workers, local := local, remote := remote))
  {
    assert |workers| == |workers.Keys| && |run.workers| == |run.workers.Keys|;
  }

  /** The store only grows, and only by objects that carry their own hash. */
  lemma StoreGrows(env: Env, s: Sys, run: Run, w: Worker)
    requires w.Busy? && CasGood(env, s.cas) && WorkerGood(env, w, s.cas.Keys, s.trusted)
    ensures s.cas.Keys <= StoreNext(env, s, w).Keys && s.trusted <= TrustedNext(env, s, run, w)
    ensures CasGood(env, StoreNext(env, s, w))
  {
    hide WorkerNext;
  }
}
