/** Restoring a whole complete snapshot from the local store, in any reachable state. */
module SnapshotRestore {
  import opened Prelude
  import opened Catalog
  import opened CatalogInvariant
  import opened Backup
  import opened BackupInvariant
  import opened BackupReuse
  import opened BackupRuns
  import opened EndToEnd
  import Restore
  import RR = RestoreRuns

  // ---------------------------------------------------------------- what restore reads from the catalog

  /** The recipe of an item, if there is one that can be read. */
  function RecipeFor(c: Catalog, id: Option<Id>): Option<Restore.Recipe>
  {
    if id.Some? && id.value in c.recipes && Contiguous(c.recipes[id.value].rows) then Some(ForRestore(c.recipes[id.value])) else None
  }

  function ItemFor(c: Catalog, i: Id): RR.Item
    requires i in c.items
  {
    var x := c.items[i];
    if x.isFile then RR.FileItem(x.path, x.stat.size, RecipeFor(c, x.recipe)) else RR.DirItem(x.path)
  }

  function ItemsFor(c: Catalog, ids: seq<Id>): (items: seq<RR.Item>)
    requires forall i :: i in ids ==> i in c.items
    ensures |items| == |ids| && forall k :: 0 <= k < |ids| ==> ids[k] in c.items && items[k] == ItemFor(c, ids[k])
  {
    seq(|ids|, k requires 0 <= k < |ids| => assert ids[k] in ids; ItemFor(c, ids[k]))
  }

  /** Paths at which a restore may meet a file: those there before and those it makes. */
  ghost function FilesMet(c: Catalog, ids: seq<Id>, start: RR.Area): set<string>
    requires forall i :: i in ids ==> i in c.items
  {
    start.files.Keys + RR.FilePaths(ItemsFor(c, ids))
  }

  ghost function DirsMet(c: Catalog, ids: seq<Id>, start: RR.Area): set<string>
    requires forall i :: i in ids ==> i in c.items
  {
    start.dirs + RR.DirPaths(ItemsFor(c, ids))
  }

  /** The chunks of an item, straight from the local store. */
  function SourceFor(c: Catalog, cas: map<Hash, Bytes>, i: Id): Restore.Source
  {
    if Live(c, i) then FromStore(cas, RowsOfItem(c, i)) else (k: nat) => None
  }

  /** The items of a snapshot, each once, in any order. */
  ghost predicate Lists(c: Catalog, snapshot: Id, ids: seq<Id>)
  {
    && (forall i :: i in ids <==> i in c.items && c.items[i].snapshot == snapshot)
    && (forall j, k :: 0 <= j < k < |ids| ==> ids[j] != ids[k])
  }

  ghost predicate CompleteSnapshot(c: Catalog, snapshot: Id)
  {
    snapshot in c.snapshots && c.snapshots[snapshot].status == COMPLETE
  }

  /** Every file of a complete snapshot can be read and all its chunks are at hand. */
  ghost predicate Ready(env: Env, s: Sys, i: Id)
  {
    && Live(s.cat, i) && s.cat.items[i].recipe.value in s.origin && Contiguous(RowsOfItem(s.cat, i)) &&
    var r := ForRestore(s.cat.recipes[s.cat.items[i].recipe.value]);
    var source := FromStore(s.cas, RowsOfItem(s.cat, i));
    var parts := env.split(ContentOf(s, i));
    && r.Consistent() && r.size == |ContentOf(s, i)|
    && Restore.Delivers(env.hash, r.rows, source)
    && (forall k: nat :: k < |r.rows| ==> source(k).Some? && |source(k).value| == r.rows[k].size && source(k).value in env.universe)
    && RR.Describes(env.hash, r.rows, parts) && PartsIn(env.universe, parts) && Flatten(parts) == ContentOf(s, i)
  }

  lemma FileIsReady(env: Env, events: seq<Event>, i: Id)
    requires GoodEnv(env) && AllExpected(env, events) && LocalOnly(events) && InCompleteSnapshot(Execute(env, events).cat, i)
    ensures Ready(env, Execute(env, events), i)
  {
    hide Execute, GoodEnv, LocalOnly, AllExpected, Live, PartsIn, Flatten, RR.Describes, Restore.Delivers;
    CompleteFilesAreStored(env, events, i);
    ExecuteKeepsInv(env, events);
    var s := Execute(env, events);
    LiveHasRecipe(s.cat, i);
    var id := s.cat.items[i].recipe.value;
    RecipeFacts(env, s, id);
    SourceDelivers(env.hash, env.universe, s.cas, s.cat.recipes[id].rows);
  }

  lemma ReadyItem(env: Env, s: Sys, i: Id)
    requires Ready(env, s, i)
    ensures i in s.cat.items && s.cat.items[i].isFile
    ensures ItemFor(s.cat, i) == RR.FileItem(s.cat.items[i].path, s.cat.items[i].stat.size,
                                             Some(ForRestore(s.cat.recipes[s.cat.items[i].recipe.value])))
    ensures SourceFor(s.cat, s.cas, i) == FromStore(s.cas, RowsOfItem(s.cat, i))
  {
  }

  /** Everything found in the staging area is made of strings considered. */
  ghost predicate AreaIn(u: Universe, area: RR.Area)
  {
    && (forall p :: p in area.files ==> RR.StretchesIn(u, area.files[p]))
    && (forall p :: p in area.partials ==> RR.StretchesIn(u, area.partials[p]))
  }

  // ---------------------------------------------------------------- what a report can be

  /** A file is in place with exactly the bytes it was backed up with. */
  ghost predicate BackAgain(s: Sys, i: Id, now: RR.Area)
  {
    i in s.cat.items &&
    var x := s.cat.items[i];
    if x.isFile then
      && x.recipe.Some? && x.recipe.value in s.origin
      && x.path in now.files && now.files[x.path] == ContentOf(s, i) && x.stat.size == |ContentOf(s, i)|
    else x.path in now.dirs
  }

  /** The reports there can be, and their reasons: a path that may not be restored, a file where a
      directory is needed or the other way round, a recorded size that is not that of the bytes backed up, or the
      disk. No chunk is ever missing or wrong, and no recipe is. */
  ghost predicate LocalReport(s: Sys, i: Id, refused: set<string>, files: set<string>, dirs: set<string>, fault: RR.Fault, report: RR.Report,
                              now: RR.Area)
  {
    i in s.cat.items &&
    var x := s.cat.items[i];
    match report
    case Done => BackAgain(s, i, now)
    case PathRefused => x.path in refused
    case Raised => fault.CannotCreate? || !(RR.Needs(ItemFor(s.cat, i)) !! files)
    case DirectoryInTheWay => x.isFile && x.path in dirs
    case SizeDiffers => x.isFile && x.recipe.Some? && x.recipe.value in s.origin && x.stat.size != |ContentOf(s, i)|
    case NotRebuilt(outcome) => x.isFile && outcome.WriteFailed?
    case NotOpened => fault.CannotOpen?
    case NotMoved => fault.CannotMove?
    case NotFinished => fault.CannotFinish?
    case _ => false
  }

  /** Bytes that came from strings considered are in sight. */
  lemma CameInSight(env: Env, s: Sys, i: Id, start: RR.Area, content: Bytes)
    requires Ready(env, s, i) && AreaIn(env.universe, start)
    requires RR.CameFrom(env.hash, ItemFor(s.cat, i), start.files, start.partials, SourceFor(s.cat, s.cas, i), content)
    ensures RR.InSight(env.universe, ForRestore(s.cat.recipes[s.cat.items[i].recipe.value]).rows, env.split(ContentOf(s, i)), content)
  {
    ReadyItem(env, s, i);
    hide Live, Restore.Longest, Restore.Extends, Restore.Supplied, RR.StretchesIn, PartsIn;
    var rows, parts := ForRestore(s.cat.recipes[s.cat.items[i].recipe.value]).rows, env.split(ContentOf(s, i));
    var path := s.cat.items[i].path;
    var before := RR.PartialAt(start.partials, path);
    assert RR.StretchesIn(env.universe, before) by { PartialIn(env.universe, start, path); }
    if path in start.files && start.files[path] == content {
      FoundInSight(env.universe, rows, parts, content);
    } else {
      RR.FinishedInSight(env.hash, env.universe, rows, parts, before, content, SourceFor(s.cat, s.cas, i),
                         Restore.Longest(env.hash, rows, before));
    }
  }

  lemma PartialIn(u: Universe, start: RR.Area, path: string)
    requires AreaIn(u, start)
    ensures RR.StretchesIn(u, RR.PartialAt(start.partials, path))
  {
  }

  lemma FoundInSight(u: Universe, rows: seq<Restore.Entry>, parts: seq<Bytes>, content: Bytes)
    requires PartsIn(u, parts) && RR.StretchesIn(u, content)
    ensures RR.InSight(u, rows, parts, content)
  {
  }

  lemma DoneIsBack(env: Env, s: Sys, i: Id, start: RR.Area, now: RR.Area)
    requires InjectiveOn(env.hash, env.universe) && AreaIn(env.universe, start) && Ready(env, s, i)
    requires RR.Settled(env.hash, ItemFor(s.cat, i), SourceFor(s.cat, s.cas, i), RR.Done, start, now)
    ensures BackAgain(s, i, now)
  {
    ReadyItem(env, s, i);
    hide Live, RR.CameFrom, RR.InSight, InjectiveOn, AreaIn, RR.Describes, PartsIn, Flatten, Restore.IsWhole, ForRestore;
    var item := ItemFor(s.cat, i);
    CameInSight(env, s, i, start, now.files[item.path]);
    RR.PublishedFilesAreExact(env.hash, env.universe, now.files, now.dirs, item, env.split(ContentOf(s, i)));
  }

  lemma FileReport(env: Env, s: Sys, i: Id, refused: set<string>, start: RR.Area, files: set<string>, dirs: set<string>, fault: RR.Fault, report: RR.Report, now: RR.Area)
    requires InjectiveOn(env.hash, env.universe) && AreaIn(env.universe, start) && Ready(env, s, i)
    requires RR.Accounts(ItemFor(s.cat, i), refused, files, dirs, fault, SourceFor(s.cat, s.cas, i), report)
    requires RR.Settled(env.hash, ItemFor(s.cat, i), SourceFor(s.cat, s.cas, i), report, start, now)
    ensures LocalReport(s, i, refused, files, dirs, fault, report, now)
  {
    ReadyItem(env, s, i);
    ReadySize(env, s, i);
    hide Ready, RR.Settled, InjectiveOn, AreaIn, BackAgain, RR.Needs, RR.Blames, Live, SourceFor, ForRestore;
    if report.Done? {
      DoneIsBack(env, s, i, start, now);
    } else if report.NotRebuilt? {
      OnlyTheDisk(env, s, i, report.outcome);
    }
  }

  lemma ReadySize(env: Env, s: Sys, i: Id)
    requires Ready(env, s, i)
    ensures s.cat.items[i].recipe.Some? && s.cat.items[i].recipe.value in s.origin
    ensures var r := ForRestore(s.cat.recipes[s.cat.items[i].recipe.value]);
            r.Consistent() && r.size == |ContentOf(s, i)|
  {
    hide RR.Describes, PartsIn, Flatten, Restore.Delivers;
  }

  /** No chunk that is ready can be blamed. */
  lemma OnlyTheDisk(env: Env, s: Sys, i: Id, outcome: Restore.Outcome)
    requires Ready(env, s, i) && !outcome.Restored? && !outcome.RecipeInconsistent?
    requires RR.Blames(ForRestore(s.cat.recipes[s.cat.items[i].recipe.value]).rows, SourceFor(s.cat, s.cas, i), outcome)
    ensures outcome.WriteFailed?
  {
    ReadyItem(env, s, i);
    hide RR.Describes, PartsIn, Flatten, Restore.Delivers, ForRestore, FromStore;
  }

  lemma DirReport(h: Hasher, s: Sys, i: Id, source: Restore.Source, refused: set<string>, start: RR.Area, files: set<string>, dirs: set<string>,
                  fault: RR.Fault, report: RR.Report, now: RR.Area)
    requires i in s.cat.items && !s.cat.items[i].isFile
    requires RR.Accounts(ItemFor(s.cat, i), refused, files, dirs, fault, source, report)
    requires RR.Settled(h, ItemFor(s.cat, i), source, report, start, now)
    ensures LocalReport(s, i, refused, files, dirs, fault, report, now)
  {
  }

  // ---------------------------------------------------------------- the theorem

  lemma PathsDiffer(c: Catalog, snapshot: Id, ids: seq<Id>, items: seq<RR.Item>)
    requires ItemTables(c) && Lists(c, snapshot, ids) && |items| == |ids|
    requires forall k :: 0 <= k < |ids| ==> ids[k] in c.items && items[k] == ItemFor(c, ids[k])
    ensures RR.DistinctPaths(items)
  {
    forall j, k | 0 <= j < k < |ids| ensures items[j].path != items[k].path {
      assert ids[j] in ids && ids[k] in ids;
      assert ids[j] != ids[k];
      assert !SamePlace(c.items[ids[j]], c.items[ids[k]]);
    }
  }

  ghost predicate AllReady(env: Env, s: Sys, ids: seq<Id>)
  {
    forall k :: 0 <= k < |ids| ==> ids[k] in s.cat.items && (s.cat.items[ids[k]].isFile ==> Ready(env, s, ids[k]))
  }

  lemma ListedIsReady(env: Env, events: seq<Event>, snapshot: Id, ids: seq<Id>)
    requires GoodEnv(env) && AllExpected(env, events) && LocalOnly(events)
    requires CompleteSnapshot(Execute(env, events).cat, snapshot) && Lists(Execute(env, events).cat, snapshot, ids)
    ensures AllReady(env, Execute(env, events), ids)
  {
    hide Execute, GoodEnv, AllExpected, LocalOnly, Ready;
    var s := Execute(env, events);
    forall k | 0 <= k < |ids| ensures ids[k] in s.cat.items && (s.cat.items[ids[k]].isFile ==> Ready(env, s, ids[k])) {
      assert ids[k] in ids;
      if s.cat.items[ids[k]].isFile {
        FileIsReady(env, events, ids[k]);
      }
    }
  }

  /** Restoring all items of a complete snapshot from the local store, in any reachable state, from
      any staging area and with any prefetch window. The snapshot is published exactly when every
      report is a success, no partial file is left and the final place is free; a success means
      exactly the bytes backed up; and without success the reason is one of LocalReport's. */
  method RestoreSnapshot(ghost env: Env, ghost events: seq<Event>, hash: Hasher, c: Catalog, cas: map<Hash, Bytes>, snapshot: Id,
                         ids: seq<Id>, staging: RR.Staging, refused: set<string>, window: int, faults: seq<RR.Fault>, free: bool)
    returns (publish: bool, reports: seq<RR.Report>)
    requires GoodEnv(env) && AllExpected(env, events) && LocalOnly(events) && hash == env.hash
    requires c == Execute(env, events).cat && cas == Execute(env, events).cas
    requires CompleteSnapshot(c, snapshot) && Lists(c, snapshot, ids) && |faults| == |ids|
    requires AreaIn(env.universe, staging.Contents())
    modifies staging
    ensures |reports| <= |ids| && (|reports| < |ids| ==> reports != [] && reports[|reports| - 1].Raised?)
    ensures forall k :: 0 <= k < |reports| ==>
              LocalReport(Execute(env, events), ids[k], refused, FilesMet(c, ids, old(staging.Contents())), DirsMet(c, ids, old(staging.Contents())),
                          faults[k], reports[k], staging.Contents())
    ensures publish <==> |reports| == |ids| > 0 && RR.AllDone(reports) && staging.partials == map[] && free
    ensures |reports| == |ids| && RR.AllDone(reports) ==>
              forall p :: p in staging.partials <==>
                p in old(staging.partials) && forall i :: i in ids ==> !(c.items[i].isFile && c.items[i].path == p)
  {
    hide Execute, GoodEnv, AllExpected, LocalOnly, AreaIn, Ready, RR.Accounts, RR.Settled, LocalReport, RR.AllDone,
         RR.ItemRestored, Restore.Delivers, ItemFor, SourceFor, RR.FilePaths, CompleteSnapshot, RR.TotalSize, SysInv,
         ItemTables, Lists, RR.DistinctPaths;
    ghost var s := Execute(env, events);
    ListedIsReady(env, events, snapshot, ids);
    ExecuteKeepsInv(env, events);
    var items := ItemsFor(c, ids);
    var sources := seq<Restore.Source>(|ids|, k requires 0 <= k < |ids| => SourceFor(c, cas, ids[k]));
    ItemTablesHold(env, s);
    PathsDiffer(c, snapshot, ids, items);
    forall k | 0 <= k < |items| && items[k].FileItem? && items[k].recipe.Some?
      ensures Restore.Delivers(hash, items[k].recipe.value.rows, sources[k])
    {
      ItemDelivers(env, s, ids, k);
    }
    ghost var start := staging.Contents();
    publish, reports := staging.RestoreSnapshot(hash, items, refused, sources, window, faults, free);
    ghost var met, met' := FilesMet(c, ids, start), DirsMet(c, ids, start);
    forall k | 0 <= k < |reports| ensures LocalReport(s, ids[k], refused, met, met', faults[k], reports[k], staging.Contents()) {
      ItemReport(env, s, ids, refused, start, met, met', faults[k], reports[k], staging.Contents(), k);
    }
    if |reports| == |ids| && RR.AllDone(reports) {
      forall p ensures p in RR.FilePaths(items) <==> exists i :: i in ids && c.items[i].isFile && c.items[i].path == p {
        FilePathsMeaning(c, ids, items, p);
      }
    }
  }

  lemma ItemTablesHold(env: Env, s: Sys)
    requires SysInv(env, s)
    ensures ItemTables(s.cat)
  {
  }

  lemma ItemDelivers(env: Env, s: Sys, ids: seq<Id>, k: nat)
    requires k < |ids| && AllReady(env, s, ids)
    requires ItemFor(s.cat, ids[k]).FileItem? && ItemFor(s.cat, ids[k]).recipe.Some?
    ensures Restore.Delivers(env.hash, ItemFor(s.cat, ids[k]).recipe.value.rows, SourceFor(s.cat, s.cas, ids[k]))
  {
    ReadyItem(env, s, ids[k]);
  }

  lemma ItemReport(env: Env, s: Sys, ids: seq<Id>, refused: set<string>, start: RR.Area, files: set<string>, dirs: set<string>,
                   fault: RR.Fault, report: RR.Report, now: RR.Area, k: nat)
    requires k < |ids| && AllReady(env, s, ids) && GoodEnv(env) && AreaIn(env.universe, start)
    requires RR.Accounts(ItemFor(s.cat, ids[k]), refused, files, dirs, fault, SourceFor(s.cat, s.cas, ids[k]), report)
    requires RR.Settled(env.hash, ItemFor(s.cat, ids[k]), SourceFor(s.cat, s.cas, ids[k]), report, start, now)
    ensures LocalReport(s, ids[k], refused, files, dirs, fault, report, now)
  {
    hide RR.Accounts, RR.Settled, LocalReport, ItemFor, SourceFor, AreaIn, Ready;
    if s.cat.items[ids[k]].isFile {
      FileReport(env, s, ids[k], refused, start, files, dirs, fault, report, now);
    } else {
      DirReport(env.hash, s, ids[k], SourceFor(s.cat, s.cas, ids[k]), refused, start, files, dirs, fault, report, now);
    }
  }

  lemma FilePathsMeaning(c: Catalog, ids: seq<Id>, items: seq<RR.Item>, p: string)
    requires |items| == |ids| && forall k :: 0 <= k < |ids| ==> ids[k] in c.items && items[k] == ItemFor(c, ids[k])
    ensures p in RR.FilePaths(items) <==> exists i :: i in ids && c.items[i].isFile && c.items[i].path == p
  {
    if p in RR.FilePaths(items) {
      var k :| 0 <= k < |items| && items[k].FileItem? && items[k].path == p;
      assert ids[k] in ids;
    }
    if i :| i in ids && c.items[i].isFile && c.items[i].path == p {
      var k :| 0 <= k < |ids| && ids[k] == i;
      assert items[k].FileItem? && items[k].path == p;
    }
  }

  /** Nothing can keep this item from being restored but the disk. */
  ghost predicate Unobstructed(s: Sys, ids: seq<Id>, refused: set<string>, start: RR.Area, i: Id)
    requires forall j :: j in ids ==> j in s.cat.items
  {
    && i in s.cat.items && s.cat.items[i].path !in refused
    && RR.Needs(ItemFor(s.cat, i)) !! FilesMet(s.cat, ids, start)
    && (s.cat.items[i].isFile ==> s.cat.items[i].path !in DirsMet(s.cat, ids, start))
    && (s.cat.items[i].recipe.Some? && s.cat.items[i].recipe.value in s.origin ==> s.cat.items[i].stat.size == |ContentOf(s, i)|)
  }

  /** So with nothing in the way, sizes that agree and a disk that works, every item succeeds. */
  lemma NothingInTheWay(s: Sys, ids: seq<Id>, refused: set<string>, start: RR.Area, faults: seq<RR.Fault>, reports: seq<RR.Report>, now: RR.Area)
    requires |faults| == |ids| && |reports| <= |ids| && (|reports| < |ids| ==> reports != [] && reports[|reports| - 1].Raised?)
    requires forall i :: i in ids ==> i in s.cat.items
    requires forall k :: 0 <= k < |reports| ==>
               LocalReport(s, ids[k], refused, FilesMet(s.cat, ids, start), DirsMet(s.cat, ids, start), faults[k], reports[k], now)
    requires forall i :: i in ids ==> Unobstructed(s, ids, refused, start, i)
    requires (forall f :: f in faults ==> f.NoFault?) && forall r :: r in reports ==> !r.NotRebuilt?
    ensures |reports| == |ids| && RR.AllDone(reports)
  {
    hide BackAgain, FilesMet, DirsMet, RR.Needs, ItemFor;
    forall k | 0 <= k < |reports| ensures reports[k].Done? {
      assert ids[k] in ids && faults[k] in faults && reports[k] in reports;
      assert Unobstructed(s, ids, refused, start, ids[k]);
      assert LocalReport(s, ids[k], refused, FilesMet(s.cat, ids, start), DirsMet(s.cat, ids, start), faults[k], reports[k], now);
    }
  }
}
