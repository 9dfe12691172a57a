# Stopan: verified model

Stopan is a content-addressed, distributed backup system. Files are cut into
chunks by FastCDC, chunks go into a local content-addressed store (CAS), a
SQLite catalog records snapshots, items, recipes and protection evidence,
chunks are replicated to the nodes that rendezvous hashing (HRW) selects or
packed into erasure-coded packs, and a snapshot is restored from whatever
layer still has its chunks.

This project models that core in Dafny and proves what it promises, for all
inputs, all interleavings and all runs. `dafny verify dfyconfig.toml` checks
everything.

| module | what it models |
|---|---|
| `GearMasks`, `FastCdc`, `Chunker`, `NativeSplitter` | masks, the rolling fingerprint modulo 2^64, the cut-point loop, the native iterator and the Python chunking loop |
| `Recipes` | the byte string whose digest names a recipe |
| `Cas`, `ChunkCache`, `Worker`, `Gc` | the write-once store, the shared caches and decisions, the worker loop, the age sweep |
| `Catalog`, `CatalogInvariant`, `CatalogDb` | snapshot, item, recipe and chunk tables: transactions as functions, the invariant, and the database object that executes them |
| `Backup`, `BackupInvariant`, `BackupSteps`, `BackupCoordinator`, `BackupReuse`, `BackupRuns`, `BackupHistory` | backups as interleaved steps of a coordinator, any number of workers, collections and restores; the invariant of all reachable states |
| `EndToEnd`, `SnapshotRestore`, `OneFile` | the end-to-end theorems for one file and for a whole snapshot, FastCDC as the chunking, and the runs that show that their hypotheses can be met |
| `Restore`, `RestoreRuns`, `Prefetch`, `Fetch`, `Batching` | resumable restore of a file and of a snapshot, ordered prefetching, layered chunk recovery, adaptive batch calls |
| `ProtectionPolicy`, `Protection`, `ProtectionDb`, `Scope`, `SystemEvidence` | replication evidence, the selection of chunks to push, its restriction to a scope, and its agreement with the planner in every state of the whole system |
| `Erasure`, `ErasureInvariant`, `ErasureCatalog`, `Sorting` | erasure-pack tables, their invariant over all runs, and the database object |
| `DrainController`, `Drain` | the drain protocol between RPC threads, control connections and the server thread |
| `TextOrder`, `Hrw` | the bounded-heap selection and the cluster view |
| `Durability`, `Recovery` | placement and fetch together when members leave; restore through all layers |
| `Scanner`, `TreeWalk` | the explicit-stack tree walk |
| `Prelude` | bytes, hashes, options, concatenation |

Modelling decisions.

* Digests are 32 bytes, so a hash cannot be injective on all strings. Where
  collisions would matter, a *universe* of byte strings is named and the
  hash is required to be injective on it (`Prelude.InjectiveOn`); the
  theorems require the strings that actually occur to be in it.
* Zstandard is a pair of functions with `decompress(compress(x)) == Some(x)`.
  Remote nodes, the file system, worker scheduling and failures are
  parameters, oracles or events, chosen by the environment.
* A transaction is a function to an optional catalog; `None` is an abort
  (UNIQUE or foreign-key violation, or an exception), after which the caller
  keeps the catalog it had. The database classes execute the same
  transactions statement by statement with explicit rollback and are proved
  equal to those functions.
* Backups: one backup runs at a time with any number of interleaved workers;
  collections run between backups; changes of replication evidence and chunks
  cached by a restore may come at any moment; an abort or crash may come at
  any moment and may leave the snapshot CREATING. Submitting is unconditional;
  when it fills the limit the coordinator waits, wakes up with some non-empty
  set of finished workers and takes their results one by one; at the end of
  the walk it takes results once all workers have finished.
* A previous snapshot is only ever used when it is COMPLETE, so recipe reuse
  is covered by the same invariant as fresh recipes.

Where code and expectation differ, the code is followed and the exact
condition is proved:

* An average chunk size that is a power of two outside [8, 2^46] passes the
  Python constructor and is refused only for files longer than the minimum
  (`Chunker.ChunkStableFile`); sizes 1, 4 and 4 are such a configuration
  (`Chunker.TooSmallAverage`).
* A file that shrinks after its size was taken gets an empty last chunk, and
  exactly then there is an empty chunk; one that grows is refused
  (`Chunker.ChunkStream`, with a file of each kind in
  `Chunker.ChangingFiles`). A recipe with an empty chunk is never stored
  (`CatalogInvariant.EmptyChunkAborts`).
* The size recorded for an item comes from `stat`, its recipe from what was
  read; when they differ, restore refuses the file, and exactly then
  (`EndToEnd.RestoreFile`). That they can differ, whatever the hash function
  and the chunking parameters, is shown by a run
  (`OneFile.RecordedSizeCanDiffer`).
* At a replication factor of zero the push query still selects rows although
  nothing is required (`Protection.ZeroFactorStillSelects`), and an update that
  claims protection without the copies would hide its chunk
  (`Protection.DishonestUpdateHidesChunk`); which columns make the query exact
  is `Protection.ComplementExactly`. A push refuses factors below one
  (src/stopan/protection/replication/pusher.py:90-91), so factor zero concerns
  the database query alone.
* When reading the recipe itself fails, the records handed on do depend on the
  prefetch window (`Prefetch.FailingSourceDependsOnWindow`). Two windows hand
  on the same records exactly when they hold back equally many or what is
  available ends before anything held back (`Prefetch.WindowsAgreeExactly`),
  and nothing is lost exactly when it ends before the records one window holds
  back (`Prefetch.NothingLostExactly`).

## Model

| member | source | states |
|---|---|---|
| GearMasks.PowerOfTwoLog2 | src/stopan/chunking/fastcdc.c:61-77 | the loop returns the exponent exactly for powers of two and -1 for everything else |
| GearMasks.PowerOfTwoTest | src/stopan/chunking/chunker.py:44-67 | `v & (v - 1) == 0` holds exactly for powers of two |
| GearMasks.BuildSpreadMask | src/stopan/chunking/fastcdc.c:79-100 | the loop over bit positions computes the spread mask |
| GearMasks.SpreadMaskBits | src/stopan/chunking/fastcdc.c:79-100 | a spread mask has exactly the requested number of bits, all below 2^48 |
| GearMasks.PublishedMasks | src/stopan/chunking/fastcdc.c:117-121 | the two published 8 KiB masks also have the right number of bits below 2^48 |
| GearMasks.BuildMasks | src/stopan/chunking/fastcdc.c:102-126 | accepted exactly for powers of two between 2^3 and 2^46, with masks of log2+2 and log2-2 bits below 2^48 |
| FastCdc.NextBoundary | src/stopan/chunking/fastcdc.c:158-202 | the two loops return the first judged candidate or the forced maximum |
| FastCdc.BoundaryIterator.Next | src/stopan/chunking/fastcdc.c:204-237 | the iterator yields the cut sequence one by one and then stops |
| FastCdc.CutsBounds | src/stopan/chunking/fastcdc.c:158-237 | cuts strictly increase, end at the end of the file, and chunk lengths are in [min, max], the last one in (0, max] |
| FastCdc.ChunksConcatenate | src/stopan/chunking/fastcdc.c:158-237 | the chunks concatenate to the file |
| FastCdc.ChunkIsSlice | src/stopan/chunking/fastcdc.c:204-237 | chunk i is the slice between cuts i-1 and i |
| FastCdc.NextSplitByReach | src/stopan/chunking/fastcdc.c:158-202 | the next chunk length depends on the next max bytes only, wherever the chunk starts |
| FastCdc.SharedPrefixNextCut | src/stopan/chunking/fastcdc.c:158-202 | files sharing a prefix up to start + max have the same next cut after start |
| FastCdc.SharedPrefixCuts | src/stopan/chunking/fastcdc.c:158-237 | every chunk starting max bytes before the end of a shared prefix is a chunk of both files |
| FastCdc.SuffixDeterminesCuts | src/stopan/chunking/fastcdc.c:158-237 | equal suffixes have the same cuts up to the shift and the same chunks |
| FastCdc.Resynchronise | src/stopan/chunking/fastcdc.c:158-237 | after a cut of one file and a cut of another from which they agree, all later cuts and chunks coincide |
| FastCdc.EditIsLocal | src/stopan/chunking/fastcdc.c:158-237 | replacing the middle of a file keeps the chunks well before and, from a common cut on, all chunks after it |
| FastCdc.FingerprintForgets | src/stopan/chunking/fastcdc.c:181-198 | modulo 2^48 the rolling fingerprint depends on the last 48 bytes only, despite arithmetic modulo 2^64 |
| FastCdc.GearWindow | src/stopan/chunking/fastcdc.c:79-198 | once 48 bytes are absorbed, the judgement at a candidate depends on the preceding 48 bytes and the mask in force |
| Chunker.MakeConfig | src/stopan/chunking/chunker.py:44-67 | accepted exactly for 1 <= min <= avg <= max with avg a power of two |
| Chunker.SmallFileIsOneChunk | src/stopan/chunking/chunker.py:73-125 | the small-file shortcut is what the native iterator yields |
| Chunker.ChunkByBoundaries | src/stopan/chunking/chunker.py:93-125 | the boundary loop yields the native chunks with their hashes, then an empty one exactly if the size promises more than was mapped; it raises exactly if more was mapped than the size says |
| Chunker.ChunkStream | src/stopan/chunking/chunker.py:69-125 | for a file that may change between the looks at it: which path is taken, exactly when and why it is refused, and that the chunks are hashed, concatenate to what was mapped and are the native ones, with an empty one exactly if the file shrank |
| Chunker.ChunkStableFile | src/stopan/chunking/chunker.py:69-125 | for a file that does not change: which configurations and sizes are refused, and that chunks concatenate, are hashed and equal the native ones on both paths |
| Chunker.TooSmallAverage | src/stopan/chunking/chunker.py:44-67 | the constructor accepts average 4 with minimum 1 and maximum 4; a one-byte file is then chunked and a two-byte file refused |
| Chunker.ChangingFiles | src/stopan/chunking/chunker.py:93-125 | a file shrunk from three bytes to two ends with an empty chunk; one grown from two bytes to three is refused |
| NativeSplitter.FastCdcSplits | src/stopan/chunking/fastcdc.c:204-237 | for every accepted configuration and file: no empty chunk, and the chunks are the file |
| Recipes.BuildPreimage | src/stopan/chunking/recipes.py:20-38 | the digest is fed domain, 4-byte order, 32-byte hash and 8-byte size for each chunk, and writing fails exactly for numbers out of range |
| Recipes.BigEndianRoundTrip | src/stopan/chunking/recipes.py:33-37 | fixed-width big-endian fields can be read back |
| Recipes.RowsInjective | src/stopan/chunking/recipes.py:31-38 | the row encoding is injective on in-range recipes of any lengths |
| Recipes.RecipeIdentity | src/stopan/chunking/recipes.py:20-38 | equal preimages, and without a collision equal names, mean equal recipes |
| Cas.Repository.WriteOnce | src/stopan/cas/repository.py:121-182 | exactly when a write publishes, finds the object there (before or because another writer overtook it) or raises, over both attempts; nothing else changes |
| Cas.Repository.Put | src/stopan/cas/repository.py:85-97 | after a put without exception the chunk reads back; other objects are untouched; every stored object stays readable |
| Cas.ReadsAreAuthentic | src/stopan/cas/repository.py:94-97 | whatever is on disk, bytes are only read under the hash they have |
| ChunkCache.FastBoolCache.Set | src/stopan/chunking/chunk_index.py:32-46 | adds the entry or empties the cache, exactly when sampled and too full; size <= max_items + write_ops mod 1024 is kept |
| ChunkCache.FastBoolCache.Clear | src/stopan/chunking/chunk_index.py:48-52 | empties the cache and its counter |
| ChunkCache.ExistsLocal | src/stopan/chunking/planner.py:87-95 | with one worker the cached answer is the store's answer and the cache stays true |
| ChunkCache.IsRemotelyProtected | src/stopan/chunking/planner.py:97-109 | with one worker the cached answer is the catalog's answer and the cache stays true |
| ChunkCache.Decide | src/stopan/chunking/planner.py:75-85 | with one worker the cached decision is the uncached one |
| Worker.HandleChunk | src/stopan/backup/worker.py:98-126 | decision, store change and cache change for one chunk |
| Worker.ProcessFile | src/stopan/backup/worker.py:87-141 | the recipe is that of the file, counters add up, written counts the new objects, and every chunk is stored unless remote evidence allowed skipping it |
| Gc.Collect | src/stopan/gc/local_files.py:65-130 | the sweep deletes exactly the files whose fate is deletion and counts files and bytes by fate, deleted bytes as found at the second look; errors are files refused or not deleted and touched directories that cannot be synced |
| Gc.DeletedBytesAreCollectable | src/stopan/gc/local_files.py:86-104 | while sizes do not change under the collector, the bytes deleted are part of those reported collectable |
| Gc.DeletesOnlyGarbage | src/stopan/gc/local_files.py:65-104 | a deleted file is not retained by policy, not younger than the limit, and neither dry run nor switched-off collection deletes |
| Gc.SweepConserves | src/stopan/gc/local_files.py:65-104 | every file is refused or seen, and every seen file retained, too young or collectable |
| Gc.DeletedCount | src/stopan/gc/local_files.py:92-104 | the deletion counter is the number of objects that disappeared |
| CatalogInvariant.RecipeStep | src/stopan/metadata/database.py:1349-1445 | for worker output no inconsistency abort is reachable and the recipe tables keep their invariant |
| CatalogInvariant.EmptyChunkAborts | src/stopan/metadata/database.py:1362-1371 | a recipe with an empty chunk is never stored |
| CatalogInvariant.SecondConsolidationIsIdle | src/stopan/metadata/database.py:1349-1445 | consolidating the same content again gives the same recipe id and leaves recipe and chunk tables unchanged |
| CatalogInvariant.RegisterSucceeds | src/stopan/metadata/database.py:1492-1527 | genuine chunks never meet an inconsistent stored size |
| CatalogInvariant.SameRowsSameContent | src/stopan/metadata/database.py:1397-1411 | equal recipe rows stand for equal file contents |
| CatalogInvariant.AddItemsKeep | src/stopan/metadata/database.py:1041-1079 | a batch gets consecutive ids, leaves older items alone and keeps paths unique per snapshot |
| CatalogInvariant.AssignAllKeeps | src/stopan/metadata/database.py:1217-1240 | reuse sets exactly the assigned items and keeps the item tables |
| CatalogInvariant.FinishKeeps | src/stopan/metadata/database.py:842-879 | a completed snapshot has a recipe for every file and the right file count |
| CatalogDb.Db.Create | src/stopan/metadata/database.py:828-840 | the database object executes exactly the create step |
| CatalogDb.Db.AddBatch | src/stopan/metadata/database.py:1065-1079 | the item loop commits the whole batch or restores the tables |
| CatalogDb.RegisterIff | src/stopan/metadata/database.py:1492-1527 | registration succeeds exactly if the rows agree with each other and with the table |
| CatalogDb.CollectSizes | src/stopan/metadata/database.py:1493-1503 | the size dictionary exists exactly if no chunk has two sizes in the recipe |
| CatalogDb.Db.RegisterRows | src/stopan/metadata/database.py:1492-1527 | dictionary, insert-or-ignore and check loop have the effect of registering row by row |
| CatalogDb.Db.GetOrCreate | src/stopan/metadata/database.py:1349-1445 | the statements have the effect of the recipe step, with the same aborts |
| CatalogDb.Db.ConsolidateItem | src/stopan/metadata/database.py:1186-1202 | recipe, protection and item change together or not at all |
| CatalogDb.Db.ReuseRecipes | src/stopan/metadata/database.py:1217-1240 | assignments and protection change together or not at all |
| CatalogDb.Db.FinishSnapshot | src/stopan/metadata/database.py:842-879 | completes exactly a CREATING snapshot without open files |
| CatalogDb.Db.FailSnapshot | src/stopan/metadata/database.py:881-901 | CREATING becomes FAILED, FAILED stays, anything else is refused |
| BackupInvariant.WorkKeepsInv | src/stopan/backup/worker.py:96-141 | every atomic worker action, in any interleaving, keeps the system invariant |
| BackupInvariant.MovedWorkerGood | src/stopan/chunking/planner.py:75-109 | each worker step leaves the worker with only stored or trusted chunks behind it |
| BackupSteps.PreviousIsComplete | src/stopan/metadata/database.py:1025-1035 | the previous snapshot is the latest complete one of the same root below the id |
| BackupSteps.SweptIsGarbage | src/stopan/cas/gc.py:13-33 | collection with the catalog's protected hashes deletes nothing a live file needs |
| BackupSteps.CollectionKeepsInv | src/stopan/metadata/database.py:2789-2803 | a collection between backups keeps the system invariant |
| BackupSteps.BeginKeepsInv | src/stopan/backup/service.py:125-137 | starting a backup keeps the system invariant |
| BackupCoordinator.AddBatchKeepsInv | src/stopan/backup/service.py:180-190 | adding a batch keeps the invariant, also when it aborts |
| BackupCoordinator.SubmitKeepsInv | src/stopan/backup/service.py:238-254 | handing out a file, without asking for room, keeps the invariant, in particular that there is room for one more unless the coordinator now waits |
| BackupCoordinator.WakeKeepsInv | src/stopan/backup/service.py:139-152 | waking up with some finished workers keeps the invariant |
| BackupCoordinator.TakingMakesRoom | src/stopan/backup/service.py:139-178 | with the last result taken there is room for one more file |
| BackupCoordinator.ConsolidateSucceeds | src/stopan/backup/service.py:165-170 | consolidating a worker's result never aborts and extends the history of recipe contents |
| BackupCoordinator.CollectSucceededKeepsInv | src/stopan/backup/service.py:139-178 | collecting a finished worker keeps the invariant and never ends the backup |
| BackupCoordinator.FinishKeepsInv | src/stopan/backup/service.py:256-262 | closing or giving up a snapshot keeps the invariant |
| BackupReuse.ReusableIsLive | src/stopan/backup/service.py:194-223 | a reused recipe belongs to a live file of the previous complete snapshot |
| BackupReuse.ReuseKeepsInv | src/stopan/backup/service.py:205-230 | recipe reuse keeps the invariant and never aborts |
| BackupReuse.QueueSplits | src/stopan/backup/service.py:205-225 | the files of a batch are exactly the reused ones and those to be read |
| BackupRuns.StepKeepsInv | src/stopan/backup/service.py:125-282 | every event keeps the system invariant |
| BackupRuns.ExecuteKeepsInv | src/stopan/backup/service.py:125-282 | every reachable state satisfies the invariant: recipes are exactly those of their contents, chunks are registered and protected, live chunks are stored or trusted |
| BackupRuns.SchedulerIsSound | src/stopan/backup/service.py:133-257 | over every run in-flight files stay within three per worker and strictly below when one is submitted, a waiting coordinator has something to wait for, what it takes are results, every file is in exactly one place, and a cached yes is true |
| BackupRuns.WorkerOutputIsCovered | src/stopan/backup/worker.py:96-126 | with any number of interleaved workers a successful recipe names only stored or trusted chunks |
| BackupRuns.TrustNeedsEvidence | src/stopan/chunking/planner.py:97-109 | a chunk is trusted only when sufficient remote evidence was found under a policy that allows it |
| BackupRuns.CompletionMeansAllFiles | src/stopan/backup/service.py:256-262 | a snapshot becomes complete only when no file failed and every file has its recipe |
| BackupHistory.StepEvolves | src/stopan/metadata/database.py:828-901 | statuses move only out of CREATING, closed snapshots keep their items, recipes keep rows and contents |
| BackupHistory.RunsEvolve | src/stopan/metadata/database.py:828-901 | the same from any reachable state over any continuation |
| EndToEnd.NothingTrusted | src/stopan/chunking/planner.py:79-85 | without remote skipping nothing is ever trusted |
| EndToEnd.StoredRecipe | src/stopan/metadata/database.py:1247-1312 | a stored recipe reads back contiguous and consistent and describes the chunks of its content |
| EndToEnd.CompleteFilesAreStored | src/stopan/metadata/database.py:2789-2803 | after any backups, failures and collections every chunk of every file of a complete snapshot is in the store under its hash with its size |
| EndToEnd.RestoreFile | src/stopan/restore/restorer.py:232-342 | restoring such a file locally from any partial file yields exactly the bytes its recipe was computed from, and is refused exactly when the recorded size differs |
| SnapshotRestore.RestoreSnapshot | src/stopan/restore/restorer.py:182-488 | restoring a whole complete snapshot locally in any reachable state: published exactly when every item succeeded, no partial file is left and the place is free; each success is exactly the bytes backed up; anything else is a refused path, a file where a directory is needed or the other way round, a recorded size that differs, or the disk |
| SnapshotRestore.NothingInTheWay | src/stopan/restore/restorer.py:182-433 | with no such obstacle every item succeeds |
| OneFile.CanBackUp | src/stopan/backup/service.py:125-262 | from every idle reachable state, any content and any stat record can end up together in a complete snapshot |
| OneFile.RecordedSizeCanDiffer | src/stopan/restore/restorer.py:238-247 | for every hash function and FastCDC configuration a run whose complete snapshot records one byte for a file read as empty |
| OneFile.FastCdcChunksAreStored | src/stopan/chunking/fastcdc.c:204-237 | with FastCDC as the chunking, the store holds exactly the FastCDC chunks of every file of a complete snapshot, in recipe order |
| EndToEnd.CompleteForever | src/stopan/metadata/database.py:1025-1035 | files of complete snapshots and the bytes they stand for never change again |
| Restore.ReadExact | src/stopan/restore/restorer.py:652-668 | reads exactly the bytes asked for or what is left, however short single reads are |
| Restore.LongestIsLongest | src/stopan/restore/restorer.py:599-650 | the prefix the scan is specified by is good and no good prefix is longer |
| Restore.VerifyResumePrefix | src/stopan/restore/restorer.py:599-650 | keeps exactly the scanned prefix, truncates the rest, and raises exactly when recipe and figures disagree with it |
| Restore.ValidateCompletedFile | src/stopan/restore/restorer.py:534-597 | true exactly for a consistent recipe and a file that is exactly what it describes |
| Restore.AppendChunks | src/stopan/restore/restorer.py:287-331 | appends the supplied chunks up to the first failure and names the failure; when reading the recipe raises, up to the last full prefetch window |
| Restore.ResumeFile | src/stopan/restore/restorer.py:266-342 | an attempt from any partial file: success means the whole file and reused + written = size; failure keeps all verified progress and has a named cause |
| Restore.ExtensionIsLongest | src/stopan/restore/restorer.py:599-650 | what an attempt leaves behind is exactly what the next one recognises |
| RestoreRuns.WholeIsExact | src/stopan/restore/restorer.py:266-342 | unless something collides, a verified whole file is the concatenation of the recipe's chunks, and conversely |
| RestoreRuns.ResumedEqualsFresh | src/stopan/restore/restorer.py:266-342 | any two successful restores of a recipe leave the same bytes |
| RestoreRuns.EveryByteWrittenOnce | src/stopan/restore/restorer.py:266-342 | over any number of interrupted attempts, bytes found plus bytes written equal the size, and progress is never lost |
| RestoreRuns.Staging.RestoreFileItem | src/stopan/restore/restorer.py:232-405 | one file item: reuse, resume, move into the tree; only its own path is touched, the report is true, and without success the file is in place or its partial file has lost nothing verified |
| RestoreRuns.Staging.RestoreItem | src/stopan/restore/restorer.py:183-405 | exact counters, effects and reason reported for one item of any kind: the directories above it are made and can stand in the way of later files, a file among them ends the run; also when a directory cannot be made, the move fails or a last touch does |
| RestoreRuns.Staging.RestoreSnapshot | src/stopan/restore/restorer.py:182-488 | published exactly when every item succeeded, no partial file is left and the final place is free; then every file is whole and bytes reused plus written are the snapshot's size; partial files are left only at paths that are no file items; every report is true |
| RestoreRuns.PublishedFilesAreExact | src/stopan/restore/restorer.py:433-488 | a published file is the concatenation of its chunks |
| Recovery.FetchIsDetermined | src/stopan/restore/prefetcher.py:58-77 | layered fetch answers by hash alone, so any prefetch window hands on the same records |
| Recovery.ReachIsHandedOn | src/stopan/restore/prefetcher.py:42-56 | when reading the recipe raises, a restore goes exactly as far as the prefetcher hands records on |
| Recovery.FetchedIsPart | src/stopan/restore/fetch.py:224-249 | a chunk that arrives from any layer is the chunk that was backed up |
| Recovery.RestoreThroughLayers | src/stopan/restore/restorer.py:266-342 | a restore through all layers fails only for a chunk no layer has or because of the disk, and success means exactly the bytes backed up |
| Durability.SurvivorStaysTarget | src/stopan/cluster/view.py:58-87 | a target stays a target when any other member leaves |
| Durability.SurvivorStaysThroughout | src/stopan/cluster/view.py:58-87 | the same over any number of departures |
| Durability.SurvivesDepartures | src/stopan/restore/fetch.py:251-424 | a chunk placed on the rf best members is recovered after any departures as long as one of them stays and serves it |
| Prefetch.AvailableMeaning | src/stopan/restore/prefetcher.py:58-77 | records are handed on in order up to the first chunk that cannot be had |
| Prefetch.FlushWindow | src/stopan/restore/prefetcher.py:58-77 | one window hands on its records up to the first failure |
| Prefetch.Stream | src/stopan/restore/prefetcher.py:42-56 | for a hash-determined fetch the records handed on are the same for every window; when the record source fails, exactly the full windows are handed on |
| Prefetch.LeftOverIsRemainder | src/stopan/restore/prefetcher.py:49-56 | the records of a window that is not full are the remainder modulo the window |
| Prefetch.FailingSourceDependsOnWindow | src/stopan/restore/prefetcher.py:42-56 | with a failing source and every chunk at hand, a window of one hands on all records and a window larger than the recipe none |
| Prefetch.WindowsAgreeExactly | src/stopan/restore/prefetcher.py:42-56 | with a failing source, for all records, answers and two windows: exactly when they hand on the same |
| Prefetch.NothingLostExactly | src/stopan/restore/prefetcher.py:42-56 | with a failing source, exactly when a window hands on all that is available |
| Fetch.Service.FetchMany | src/stopan/restore/fetch.py:73-162 | every requested chunk gets the answer of the first layer that has it, and each counter grows by the request entries of its layer |
| Fetch.Service.FetchLocal | src/stopan/restore/fetch.py:100-132 | the local and local P2P layers with their counters |
| Fetch.Service.FetchRemote | src/stopan/restore/fetch.py:251-424 | the rank rounds compute, for each chunk, its first valid answer in HRW order |
| Fetch.Service.AskRank | src/stopan/restore/fetch.py:312-408 | one round, batches in any completion order |
| Fetch.Service.AcceptBatch | src/stopan/restore/fetch.py:343-401 | one batch: valid blobs resolve their chunks, everything else leaves them open |
| Fetch.GroupByTarget | src/stopan/restore/fetch.py:316-330 | batches partition the open chunks by the address of their target of this rank |
| Fetch.Service.RecoverWithEc | src/stopan/restore/fetch.py:183-222 | erasure recovery fills exactly the chunks still unresolved |
| Fetch.ReplicationIff | src/stopan/restore/fetch.py:251-424 | a chunk not held locally is recovered by replication exactly if some target in its HRW list answers with a valid blob |
| Fetch.ResolvedBytesAreRight | src/stopan/restore/fetch.py:224-249 | any bytes returned hash to their key |
| Fetch.Conservation | src/stopan/restore/fetch.py:73-162 | requested = local + local P2P + replication + erasure + failed, counting multiplicity |
| Batching.SplittingIsInvisible | src/stopan/rpc/p2p_storage_client.py:107-135 | whatever the limits, an answer is that of one unlimited call |
| Batching.SucceedsIffItemsFit | src/stopan/rpc/p2p_storage_client.py:107-135 | under a size limit the splitter succeeds exactly if each item fits by itself |
| Batching.CallsBounded | src/stopan/rpc/p2p_storage_client.py:107-135 | at most max(1, 2n-1) calls |
| Protection.RunKeepsInv | src/stopan/metadata/database.py:3207-3280 | over every run of honest updates protected rows have the copies they ask for |
| Protection.OutcomesAreHonest | src/stopan/protection/replication/states.py:13-43 | push and verification runs only record honest updates, and count as protected exactly with enough copies |
| Protection.SelectionIsComplement | src/stopan/metadata/database.py:3087-3129 | in every reachable state, for every factor >= 1 and epoch, the push queue is exactly the rows whose evidence is not sufficient |
| Protection.ComplementExactly | src/stopan/protection/policy.py:73-107 | on any table, for any factor and epoch: selection complements sufficiency exactly if the columns of every row satisfy a stated condition |
| Protection.ZeroFactorStillSelects | src/stopan/metadata/database.py:3087-3129 | at factor zero a fresh row is selected although it is sufficient |
| Protection.DishonestUpdateHidesChunk | src/stopan/metadata/database.py:22-37 | an update claiming protection without copies leaves a chunk neither selected nor sufficient |
| Protection.MarkingStaleChangesNoSelection | src/stopan/metadata/database.py:3167-3205 | marking stale rows never changes what is selected |
| Protection.MarkedStateDecides | src/stopan/metadata/database.py:3167-3205 | after marking, exactly the unprotected states are selected |
| Protection.ScopedIsRestriction | src/stopan/metadata/database.py:2850-2897 | the scoped query is the whole selection restricted to the scope |
| Protection.PushRunLeavesExactlyFailures | src/stopan/protection/replication/pusher.py:142-286 | after a whole push run the queue is exactly the selected chunks that did not reach the factor |
| Protection.EnsureIsMonotone | src/stopan/metadata/database.py:1452-1490 | a backup never lowers the requested factor and never adds trust |
| Protection.PushMayLower | src/stopan/metadata/database.py:22-37 | a push may lower the requested factor |
| Scope.ScopesAreNested | src/stopan/protection/scope.py:100-223 | in every reachable state the scopes are nested, each selects exactly its part of the queue, and all known chunks select the whole queue |
| Scope.SelectedChunksAreStored | src/stopan/protection/scope.py:100-115 | what a push over reachable chunks selects is in the local store after any backups, failures and collections |
| Scope.OnlyCompleteSnapshots | src/stopan/protection/scope.py:20-52 | with a snapshot id a request is accepted exactly for a complete snapshot and a matching scope name, and selects exactly that snapshot's part of the queue |
| SystemEvidence.QueueIsInsufficient | src/stopan/metadata/database.py:3087-3129 | after any backups, failures, collections and honest evidence changes, for every factor >= 1 and epoch, the push queue is exactly the rows whose evidence is not sufficient |
| SystemEvidence.ScopeIsInsufficient | src/stopan/metadata/database.py:2850-2897 | in every such state each scope selects exactly its chunks with insufficient evidence |
| SystemEvidence.PlannerAgreesWithQueue | src/stopan/chunking/planner.py:97-109 | in every such state the planner may skip a known chunk exactly when a push for the same factor and epoch would not select it |
| SystemEvidence.TrustedHasCopies | src/stopan/chunking/planner.py:97-109 | a chunk a worker comes to trust has at that moment the copies the policy asks for |
| Scope.ReachableIsProtected | src/stopan/metadata/database.py:2774-2803 | chunks of complete snapshots are among those the collector keeps |
| ProtectionDb.Db.ApplyPushUpdates | src/stopan/metadata/database.py:3207-3245 | validation loop and row loop commit everything or nothing |
| ProtectionDb.Db.ApplyVerificationUpdates | src/stopan/metadata/database.py:3247-3280 | validation loop and row loop commit everything or nothing |
| ProtectionDb.Db.EnsureProtection | src/stopan/metadata/database.py:1452-1490 | inserting missing rows and raising the others, in any order |
| ProtectionDb.Db.MarkStaleProtection | src/stopan/metadata/database.py:3167-3205 | the two UPDATE passes together mark exactly the stale rows |
| Erasure.ChunkNormalizationExact | src/stopan/metadata/database.py:3504-3532 | accepted exactly if some rearrangement tiles the payload, and then that one is returned |
| Erasure.ShardNormalizationExact | src/stopan/metadata/database.py:3535-3558 | accepted exactly if some rearrangement covers all indexes on distinct nodes |
| ErasureInvariant.ReregisterChangesNothing | src/stopan/metadata/database.py:2221-2353 | registering a pack again, with any chunk and shard lists, changes nothing or aborts, and is accepted only for the stored chunk list |
| ErasureInvariant.RegisterNewKeepsInv | src/stopan/metadata/database.py:1612-1668 | a new pack's rows tile its payload and its shards cover all indexes on distinct nodes |
| ErasureInvariant.PushUpdateKeepsInv | src/stopan/metadata/database.py:1768-1847 | a push outcome replaces the whole shard placement and keeps the invariant |
| ErasureInvariant.CommitKeepsInv | src/stopan/metadata/database.py:1703-1747 | every transaction, committed or rolled back, keeps the invariant and everything assigned before |
| ErasureInvariant.RunKeepsInv | src/stopan/metadata/database.py:1612-1847 | the pack invariant holds after every sequence of register, push, push-error and verify transactions |
| ErasureInvariant.LocationsNeverChange | src/stopan/metadata/database.py:2285-2312 | a chunk keeps its first location and a pack its header forever |
| ErasureInvariant.PayloadPartitioned | src/stopan/metadata/database.py:3504-3532 | in every reachable state each payload byte lies in exactly one stored chunk of its pack |
| ErasureCatalog.NormalizeChunkRows | src/stopan/metadata/database.py:3504-3532 | the checking loop decides exactly whether the sorted rows tile the payload |
| ErasureCatalog.Catalog.RegisterPack | src/stopan/metadata/database.py:1612-1668 | the row loops with rollback have the effect of the register transaction |
| ErasureCatalog.Catalog.InsertChunkRows | src/stopan/metadata/database.py:2285-2312 | the insert-once loop over chunk rows |
| ErasureCatalog.Catalog.InsertShardRows | src/stopan/metadata/database.py:2314-2353 | the insert-once loop over shard rows |
| ErasureCatalog.Catalog.PushOne | src/stopan/metadata/database.py:1768-1847 | one push outcome, with its checks and its shard upserts |
| ErasureCatalog.Catalog.Apply | src/stopan/metadata/database.py:1731-1747 | a batch of outcomes commits whole or leaves the tables as they were |
| DrainController.NodeDrainController.RequestDraining | src/stopan/node/lifecycle.py:62-73 | closes admission and tells whether this call did |
| DrainController.NodeDrainController.TryBeginLocalOperation | src/stopan/node/lifecycle.py:75-81 | counts the operation unless draining |
| DrainController.NodeDrainController.EndLocalOperation | src/stopan/node/lifecycle.py:83-88 | uncounts it, or reports an incoherent counter |
| DrainController.NodeDrainController.AdmitRpc | src/stopan/node/lifecycle.py:90-100 | counts the RPC unless draining |
| DrainController.NodeDrainController.ReleaseRpc | src/stopan/node/lifecycle.py:110-121 | uncounts it, or reports an incoherent counter |
| DrainController.NodeDrainController.MarkStopped | src/stopan/node/lifecycle.py:143-146 | publishes STOPPED |
| Drain.StepKeepsInv | src/stopan/node/lifecycle.py:62-149 | every step of every actor keeps counters, release flags and teardown order coherent |
| Drain.CountersAlwaysExact | src/stopan/node/lifecycle.py:62-149 | in every interleaving the counters equal the admitted, unreleased RPCs and leases, and no incoherence is ever raised |
| Drain.ReleasedExactlyOnce | src/stopan/node/lifecycle.py:90-130 | each admitted RPC is released at most once, and exactly once when its release has run, whatever add_callback does |
| Drain.NothingAdmittedAfterDraining | src/stopan/node/lifecycle.py:62-100 | after draining begins no RPC and no lease is ever admitted |
| Drain.StoppedMeansIdleForever | src/stopan/node/lifecycle.py:690-739 | a stop client sees STOPPED only when all admitted work has ended, and both counters are zero forever after |
| Drain.ActiveWorkCanFinish | src/stopan/node/lifecycle.py:137-141 | while work is admitted some step that ends it is possible |
| Drain.DrainProgress | src/stopan/node/lifecycle.py:62-141 | over every run of a draining node neither counter grows and outstanding work shrinks by exactly the number of endings; idle exactly when all of it has ended |
| Drain.CanAlwaysStop | src/stopan/node/lifecycle.py:62-149 | whatever has happened, some continuation ends all work and publishes STOPPED |
| Hrw.HeapStep | src/stopan/placement/hrw.py:47-59 | one push or replace on the bounded heap keeps the multiset of the k best |
| Hrw.TopKNodeIds | src/stopan/placement/hrw.py:36-62 | the streaming heap equals sort-descending-take-k by (score, id) |
| Hrw.OrderIndependent | src/stopan/placement/hrw.py:36-62 | the selection does not depend on the input order |
| Hrw.MoreReplicasExtend | src/stopan/placement/hrw.py:36-62 | top-k is a prefix of top-(k+1) |
| Hrw.MemberLeaves | src/stopan/placement/hrw.py:36-62 | removing an unselected candidate changes nothing; removing a selected one promotes at most the next |
| Hrw.TargetsAreTopRf | src/stopan/cluster/view.py:45-87 | the view's targets are the top rf eligible members |
| Hrw.TargetsSound | src/stopan/cluster/view.py:58-87 | targets are members, not excluded, in ranking order |
| Hrw.PlacementStable | src/stopan/cluster/view.py:58-87 | the stability law for whole views when a member leaves |
| Scanner.WalkTree | src/stopan/scanning/scanner.py:44-109 | the explicit-stack walk terminates and reports exactly what the recursive description says, in its order, stopping where that stops |
| Scanner.ListDirectory | src/stopan/scanning/scanner.py:66-96 | one directory's entries in order, and its subdirectories |
| Scanner.ListingOrderDoesNotMatter | src/stopan/scanning/scanner.py:67-72 | in deterministic mode the operating system's listing order is irrelevant |
| TreeWalk.WalkReportsExactly | src/stopan/scanning/scanner.py:44-109 | a finished walk reports the root and exactly the regular files and directories of the tree |
| TreeWalk.WalkReportsOnce | src/stopan/scanning/scanner.py:44-109 | no path is reported twice |
| TreeWalk.ParentsComeFirst | src/stopan/scanning/scanner.py:44-109 | everything reported comes after its directory |

## Left out

- Command line, progress output, configuration, job runner: plumbing without hard properties.
- gRPC transport, SWIM membership, pushers and verifiers as processes: only the values they record are modelled (`Protection`), and replies are oracles (`Fetch`, `Batching`).
- Cryptography, key files, signatures, pack encryption, metadata object graph, metadata packs and custodian hints.
- File-system safety, permissions, metadata application, fsync and rename durability: what the file system refuses is a parameter (`RestoreRuns.Fault`); in `Backup` a worker reads one fixed content, and a file that changes meanwhile is covered by `Chunker.ChunkStream` and by workers that break off.
- Timestamps, error texts, `LIMIT` and result ordering of catalog queries: query results are sets.
- Whitespace trimming and hexadecimal parsing of identifiers: hashes are 32 raw bytes, names are plain text.
- Interleaving of a collection with a backup, and two backups at once: collections are sequenced between backups.
- The erasure verification and retry queries, and reading packs back: easy selections over tables whose invariant is proved; pack contents are covered only through their rows.
- Worker threads other than in the state machine: `Worker.ProcessFile` is one worker without interference; exceptions inside it appear only as events of `Backup`.
- heapq internals: push and replace on a heap with its least element first; Hrw scores are an arbitrary function.
- Re-entrancy guard and buffer release of the native iterator.
- Fetch.Service.FetchMany: does not model the counters of corrupt replicas and of erasure failures; writing fetched chunks through to the local store appears as an event of `Backup`.
- Cas.Repository.WriteOnce: two writers that both rename successfully are modelled as one after the other.
- Chunker.ChunkStream: does not model a file that is truncated while it is mapped, nor the chunks already handed on before an error.
- Drain: starting the control server and setting its flag is one step.
- Scanner.WalkTree: paths are lists of names rather than joined text; a directory that changes while it is walked is not modelled.
