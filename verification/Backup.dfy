/** Backups as interleaved steps: a coordinator that owns the catalog, workers that share the
    chunk store and two caches, and between backups the garbage collector. */
module Backup {
  import opened Prelude
  import opened Catalog
  import opened CatalogInvariant
  import opened ChunkCache
  import G = Gc
  import P = Protection

  // ---------------------------------------------------------------- state

  /** Where a worker stands with its current chunk. */
  datatype Pc =
    | Ready
    | SawLocal(present: bool)
    | AskRemote
    | SawRemote(protected: bool)
    | Putting
    | Stored

  datatype Worker =
    | Busy(content: Bytes, done: nat, pc: Pc)
    | Succeeded(content: Bytes)
    | Broken

  /** The coordinator: about to reuse recipes for a batch it has just added, submitting the files
      of a batch, blocked until a worker finishes, taking the results of the workers it found
      finished, or at the end of the walk, where it waits for all workers. */
  datatype Phase =
    | Reusing(first: Id, batch: seq<Entry>)
    | Submitting(todo: seq<Id>)
    | Waiting(todo: seq<Id>)
    | Taking(todo: seq<Id>, done: set<Id>)
    | Closing

  datatype Run = Run(
    snapshot: Id,
    previous: Option<Id>,
    policy: Policy,
    width: nat,
    phase: Phase,
    local: map<Hash, bool>,
    remote: map<Hash, bool>,
    workers: map<Id, Worker>,
    failed: set<Id>,
    files: nat,
    size: int)

  /** The number of files with workers at which the coordinator stops to collect: three for each
      worker. */
  function Limit(run: Run): nat { Max(1, 3 * run.width) }

  /** origin and trusted are history: the bytes each recipe was computed from, and the chunks
      ever skipped because of remote evidence. */
  datatype Sys = Sys(
    cat: Catalog,
    cas: map<Hash, Bytes>,
    run: Option<Run>,
    origin: map<Id, Bytes>,
    trusted: set<Hash>)

  const INITIAL := Sys(EMPTY, map[], None, map[], {})

  // ---------------------------------------------------------------- one worker step

  /** The parameters of the model: hashing, chunking, and the byte strings among which no
      collisions are expected. */
  datatype Env = Env(hash: Hasher, split: Splitter, universe: Universe)

  function CurrentHash(env: Env, content: Bytes, done: nat): Hash
    requires done < |env.split(content)|
  {
    env.hash(env.split(content)[done])
  }

  /** The worker's own next state. A chunk is finished by moving on to Ready for the next one. */
  ghost function WorkerNext(env: Env, s: Sys, run: Run, w: Worker): Worker
    requires w.Busy?
  {
    if w.done >= |env.split(w.content)| then
      if InFormat(env.hash, env.split, w.content) then Succeeded(w.content) else Broken
    else
      var x := CurrentHash(env, w.content, w.done);
      match w.pc
      case Ready =>
        if run.policy.safeMode || !run.policy.fastPath then w.(pc := Putting)
        else if x !in run.local then w.(pc := SawLocal(x in s.cas))
        else if run.local[x] then w.(done := w.done + 1)
        else w.(pc := AskRemote)
      case SawLocal(present) => if present then w.(done := w.done + 1, pc := Ready) else w.(pc := AskRemote)
      case AskRemote =>
        if !run.policy.allowRemote then w.(pc := Putting)
        else if x !in run.remote then w.(pc := SawRemote(Evidence(run.policy, s.cat.protection, x)))
        else if run.remote[x] then w.(done := w.done + 1, pc := Ready)
        else w.(pc := Putting)
      case SawRemote(protected) => if protected then w.(done := w.done + 1, pc := Ready) else w.(pc := Putting)
      case Putting => w.(pc := Stored)
      case Stored => w.(done := w.done + 1, pc := Ready)
  }

  /** What the step does to the store, the caches and the history. */
  ghost function StoreNext(env: Env, s: Sys, w: Worker): map<Hash, Bytes>
    requires w.Busy?
  {
    if w.pc.Putting? && w.done < |env.split(w.content)| && CurrentHash(env, w.content, w.done) !in s.cas
    then s.cas[CurrentHash(env, w.content, w.done) := env.split(w.content)[w.done]]
    else s.cas
  }

  ghost function LocalNext(env: Env, run: Run, w: Worker): map<Hash, bool>
    requires w.Busy?
  {
    if w.done >= |env.split(w.content)| then run.local
    else if w.pc.SawLocal? then run.local[CurrentHash(env, w.content, w.done) := w.pc.present]
    else if w.pc.Stored? then run.local[CurrentHash(env, w.content, w.done) := true]
    else run.local
  }

  ghost function RemoteNext(env: Env, run: Run, w: Worker): map<Hash, bool>
    requires w.Busy?
  {
    if w.done < |env.split(w.content)| && w.pc.SawRemote?
    then run.remote[CurrentHash(env, w.content, w.done) := w.pc.protected]
    else run.remote
  }

  ghost function TrustedNext(env: Env, s: Sys, run: Run, w: Worker): set<Hash>
    requires w.Busy?
  {
    var next := WorkerNext(env, s, run, w);
    if w.done < |env.split(w.content)| && w.pc.AskRemote? && next.Busy? && next.pc == SawRemote(true)
    then s.trusted + {CurrentHash(env, w.content, w.done)}
    else s.trusted
  }

  /** One atomic action of the worker on item i; it may also break off here. */
  ghost function Work(env: Env, s: Sys, run: Run, i: Id, breaks: bool): Sys
  {
    if i !in run.workers || !run.workers[i].Busy? then s
    else
      var w := run.workers[i];
      if breaks then s.(run := Some(run.(workers := run.workers[i := Broken])))
      else
        s.(cas := StoreNext(env, s, w),
           trusted := TrustedNext(env, s, run, w),
           run := Some(run.(workers := run.workers[i := WorkerNext(env, s, run, w)],
                            local := LocalNext(env, run, w),
                            remote := RemoteNext(env, run, w))))
  }

  // ---------------------------------------------------------------- the coordinator

  /** An exception or interruption: the snapshot is recorded as failed, unless that does not
      work either, in which case it stays as it is. */
  function Abandon(s: Sys, run: Run, recorded: bool): Sys
  {
    var failed := Fail(s.cat, run.snapshot);
    s.(run := None, cat := if recorded && failed.Some? then failed.value else s.cat)
  }

  function Begin(s: Sys, root: string, policy: Policy, workers: nat): Sys
  {
    var c := CreateSnapshot(s.cat, root);
    s.(cat := c,
       run := Some(Run(s.cat.nextSnapshot, PreviousBelow(c, root, s.cat.nextSnapshot), policy, Max(1, workers),
                       Submitting([]), map[], map[], map[], {}, 0, 0)))
  }

  function AddBatch(s: Sys, run: Run, batch: seq<Entry>): Sys
  {
    var c := AddItems(s.cat, run.snapshot, batch);
    if c.None? then Abandon(s, run, true)
    else s.(cat := c.value, run := Some(run.(phase := Reusing(s.cat.nextItem, batch))))
  }

  /** The file recorded under this path in the previous snapshot. */
  ghost function PreviousFile(c: Catalog, previous: Id, path: string): Option<Item>
  {
    if exists j :: j in c.items && c.items[j].snapshot == previous && c.items[j].path == path && c.items[j].isFile
    then
      var j :| j in c.items && c.items[j].snapshot == previous && c.items[j].path == path && c.items[j].isFile;
      Some(c.items[j])
    else None
  }

  /** Whether a previous recipe may stand for the file without reading it. */
  predicate Unchanged(previous: Item, stat: Stat)
  {
    && previous.stat.size == stat.size && previous.stat.mode == stat.mode
    && previous.stat.uid == stat.uid && previous.stat.gid == stat.gid
    && previous.stat.mtime == stat.mtime
    && previous.stat.ctime.Some? && previous.stat.ctime == stat.ctime
    && previous.recipe.Some?
  }

  ghost function ReusableRecipe(c: Catalog, run: Run, e: Entry): Option<Id>
  {
    if !e.isFile || run.previous.None? || run.policy.safeMode then None
    else
      var p := PreviousFile(c, run.previous.value, e.path);
      if p.Some? && Unchanged(p.value, e.stat) then p.value.recipe else None
  }

  /** Items of the batch whose recipe is taken over. */
  ghost function Reused(c: Catalog, run: Run, first: Id, batch: seq<Entry>): seq<Assignment>
  {
    if batch == [] then []
    else
      var n := |batch| - 1;
      var r := ReusableRecipe(c, run, batch[n]);
      Reused(c, run, first, batch[..n]) + if r.Some? then [Assignment(first + n, r.value)] else []
  }

  /** Files of the batch that have to be read. */
  ghost function ToRead(c: Catalog, run: Run, first: Id, batch: seq<Entry>): seq<Id>
  {
    if batch == [] then []
    else
      var n := |batch| - 1;
      ToRead(c, run, first, batch[..n]) + if batch[n].isFile && ReusableRecipe(c, run, batch[n]).None? then [first + n] else []
  }

  ghost function ReusedSize(c: Catalog, run: Run, batch: seq<Entry>): int
  {
    if batch == [] then 0
    else
      var n := |batch| - 1;
      ReusedSize(c, run, batch[..n]) + if ReusableRecipe(c, run, batch[n]).Some? then batch[n].stat.size else 0
  }

  ghost function ReuseBatch(s: Sys, run: Run): Sys
    requires run.phase.Reusing?
  {
    var first, batch := run.phase.first, run.phase.batch;
    var reused := Reused(s.cat, run, first, batch);
    var c := Reuse(s.cat, reused, run.policy.rf);
    if c.None? then Abandon(s, run, true)
    else s.(cat := c.value,
            run := Some(run.(phase := Submitting(ToRead(s.cat, run, first, batch)),
                             files := run.files + |reused|, size := run.size + ReusedSize(s.cat, run, batch))))
  }

  /** Hands the next file to a worker, which will read the given content, and then looks whether
      the limit is reached. */
  function Submit(s: Sys, run: Run, content: Bytes): Sys
    requires run.phase.Submitting? && run.phase.todo != []
  {
    var rest := run.phase.todo[1..];
    var workers := run.workers[run.phase.todo[0] := Busy(content, 0, Ready)];
    s.(run := Some(run.(phase := if |workers| >= Limit(run) then Waiting(rest) else Submitting(rest), workers := workers)))
  }

  predicate AllFinished(run: Run, items: set<Id>)
  {
    forall i :: i in items ==> i in run.workers && !run.workers[i].Busy?
  }

  /** The wait for a first result is over: some workers were found finished. */
  function Wake(s: Sys, run: Run, done: set<Id>): Sys
    requires run.phase.Waiting?
  {
    s.(run := Some(run.(phase := Taking(run.phase.todo, done))))
  }

  /** Whose result may be taken: one of those found finished or, at the end, anyone's once all
      have finished. */
  predicate MayCollect(run: Run, i: Id)
  {
    i in run.workers &&
    match run.phase
    case Taking(_, done) => i in done
    case Closing => AllFinished(run, run.workers.Keys)
    case _ => false
  }

  /** With the last of the results taken, submitting goes on. */
  function AfterTaking(phase: Phase, i: Id): Phase
  {
    if !phase.Taking? then phase
    else if phase.done - {i} == {} then Submitting(phase.todo)
    else Taking(phase.todo, phase.done - {i})
  }

  /** Takes the result of a finished worker. */
  ghost function Collect(env: Env, s: Sys, run: Run, i: Id): Sys
  {
    if i !in run.workers || run.workers[i].Busy? then s
    else if run.workers[i].Broken? then
      s.(run := Some(run.(phase := AfterTaking(run.phase, i), workers := run.workers - {i}, failed := run.failed + {i})))
    else
      var content := run.workers[i].content;
      var rows := RowsOf(env.hash, env.split(content));
      var c := Consolidate(s.cat, i, RecipeName(env.hash, rows), rows, run.policy.rf);
      if c.None? then Abandon(s, run, true)
      else s.(cat := c.value, origin := OriginAfter(env.hash, env.split, s.cat, s.origin, content),
              run := Some(run.(phase := AfterTaking(run.phase, i), workers := run.workers - {i},
                               files := run.files + 1, size := run.size + |content|)))
  }

  /** All files are done: close the snapshot, or give it up if one of them failed. */
  function FinishRun(s: Sys, run: Run): Sys
  {
    var c := Finish(s.cat, run.snapshot, run.size, run.files);
    if run.failed != {} || c.None? then Abandon(s, run, true)
    else s.(cat := c.value, run := None)
  }

  // ---------------------------------------------------------------- events

  datatype CoordinatorEvent =
    | Batch(batch: seq<Entry>)
    | ReuseRecipes
    | SubmitNext(content: Bytes)
    | Wakes(done: set<Id>)
    | Collects(item: Id)
    | WalkEnds
    | Finishes
    | Aborts(recorded: bool)

  datatype IdleEvent =
    | Begins(root: string, policy: Policy, workers: nat)
    | Collection(settings: G.Settings, files: seq<G.Candidate>)

  /** Things that may happen at any moment: caches forget entries, a restore keeps a chunk it
      fetched, replication evidence changes. */
  datatype AmbientEvent =
    | Forgets(local: set<Hash>, remote: set<Hash>)
    | ChunkFetched(raw: Bytes)
    | EvidenceChanges(x: P.Transaction)

  datatype Event =
    | Coordinator(c: CoordinatorEvent)
    | WorkerActs(item: Id, breaks: bool)
    | Idle(i: IdleEvent)
    | Ambient(a: AmbientEvent)

  /** A step of the coordinator, if it is in a position to take it. */
  ghost function CoordinatorStep(env: Env, s: Sys, run: Run, e: CoordinatorEvent): Sys
  {
    match e
    case Batch(batch) => if run.phase == Submitting([]) then AddBatch(s, run, batch) else s
    case ReuseRecipes => if run.phase.Reusing? then ReuseBatch(s, run) else s
    case SubmitNext(content) => if run.phase.Submitting? && run.phase.todo != [] then Submit(s, run, content) else s
    case Wakes(done) => if run.phase.Waiting? && done != {} && AllFinished(run, done) then Wake(s, run, done) else s
    case Collects(i) => if MayCollect(run, i) then Collect(env, s, run, i) else s
    case WalkEnds => if run.phase == Submitting([]) then s.(run := Some(run.(phase := Closing))) else s
    case Finishes => if run.phase.Closing? && run.workers == map[] then FinishRun(s, run) else s
    case Aborts(recorded) => Abandon(s, run, recorded)
  }

  /** What the collector deletes: never anything the catalog protects. */
  function Swept(s: Sys, settings: G.Settings, files: seq<G.Candidate>): set<Hash>
  {
    G.DeletedNames(settings.(retain := Some(ProtectedHashes(s.cat))), files)
  }

  function IdleStep(s: Sys, e: IdleEvent): Sys
  {
    match e
    case Begins(root, policy, workers) => Begin(s, root, policy, workers)
    case Collection(settings, files) => s.(cas := s.cas - Swept(s, settings, files))
  }

  ghost function AmbientStep(env: Env, s: Sys, e: AmbientEvent): Sys
  {
    match e
    case Forgets(local, remote) =>
      if s.run.None? then s
      else s.(run := Some(s.run.value.(local := s.run.value.local - local, remote := s.run.value.remote - remote)))
    case ChunkFetched(raw) => if env.hash(raw) in s.cas then s else s.(cas := s.cas[env.hash(raw) := raw])
    case EvidenceChanges(x) => s.(cat := s.cat.(protection := P.Commit(P.Table(s.cat.chunks.Keys, s.cat.protection), x).rows))
  }

  ghost function Step(env: Env, s: Sys, e: Event): Sys
  {
    match e
    case Coordinator(c) => if s.run.Some? then CoordinatorStep(env, s, s.run.value, c) else s
    case WorkerActs(item, breaks) => if s.run.Some? then Work(env, s, s.run.value, item, breaks) else s
    case Idle(i) => if s.run.None? then IdleStep(s, i) else s
    case Ambient(a) => AmbientStep(env, s, a)
  }

  ghost function Execute(env: Env, events: seq<Event>): Sys
  {
    if events == [] then INITIAL else Step(env, Execute(env, events[..|events| - 1]), events[|events| - 1])
  }
}
