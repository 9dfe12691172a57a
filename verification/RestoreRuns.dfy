/** What restoring guarantees beyond one attempt: exact bytes, independence of the starting
    point, conservation over interruptions, and the decision to publish a whole snapshot. */
module RestoreRuns {
  import opened Prelude
  import opened Restore

  // ---------------------------------------------------------------- exact bytes

  /** rows is the recipe of these chunks. */
  ghost predicate Describes(h: Hasher, rows: seq<Entry>, parts: seq<Bytes>)
  {
    |rows| == |parts| && forall i :: 0 <= i < |rows| ==> rows[i].hash == h(parts[i]) && rows[i].size == |parts[i]|
  }

  /** The chunks, and the stretches of the content in their places, are among the strings
      considered. */
  ghost predicate InSight(u: Universe, rows: seq<Entry>, parts: seq<Bytes>, content: Bytes)
  {
    && PartsIn(u, parts)
    && (forall k: nat :: k < |rows| && Offset(rows, k + 1) <= |content| ==> content[Offset(rows, k)..Offset(rows, k + 1)] in u)
  }

  lemma GoodChunkIsPart(h: Hasher, u: Universe, rows: seq<Entry>, parts: seq<Bytes>, content: Bytes, k: nat)
    requires InjectiveOn(h, u) && InSight(u, rows, parts, content) && Describes(h, rows, parts)
    requires k < |rows| && ChunkGood(h, rows, content, k)
    ensures content[Offset(rows, k)..Offset(rows, k + 1)] == parts[k]
  {
  }

  lemma {:induction false} GoodPrefixIsExact(h: Hasher, u: Universe, rows: seq<Entry>, parts: seq<Bytes>, content: Bytes, n: nat)
    requires InjectiveOn(h, u) && InSight(u, rows, parts, content) && Describes(h, rows, parts) && PrefixGood(h, rows, content, n)
    ensures content[..Offset(rows, n)] == Flatten(parts[..n])
  {
    hide InjectiveOn, InSight, Describes, ChunkGood, Flatten;
    if n > 0 {
      var i := n - 1;
      var a, b := Offset(rows, i), Offset(rows, n);
      OffsetMonotone(rows, i, n);
      GoodPrefixIsExact(h, u, rows, parts, content, i);
      GoodChunkIsPart(h, u, rows, parts, content, i);
      DescribesLength(h, rows, parts);
      assert content[..b] == content[..a] + content[a..b];
      assert parts[..n] == parts[..i] + [parts[i]];
      FlattenSnoc(parts[..i], parts[i]);
    }
  }

  lemma DescribesLength(h: Hasher, rows: seq<Entry>, parts: seq<Bytes>)
    requires Describes(h, rows, parts)
    ensures |rows| == |parts|
  {
  }

  /** Unless something collides, being whole means being exactly the concatenation. */
  lemma WholeIsExact(h: Hasher, u: Universe, rows: seq<Entry>, parts: seq<Bytes>, content: Bytes)
    requires InjectiveOn(h, u) && InSight(u, rows, parts, content) && Describes(h, rows, parts)
    ensures IsWhole(h, rows, content) <==> content == Flatten(parts)
  {
    assert parts[..|parts|] == parts;
    if IsWhole(h, rows, content) {
      GoodPrefixIsExact(h, u, rows, parts, content, |rows|);
      assert content[..|content|] == content;
    }
    FlattenIsWhole(h, rows, parts, |parts|);
  }

  lemma {:induction false} FlattenIsWhole(h: Hasher, rows: seq<Entry>, parts: seq<Bytes>, n: nat)
    requires Describes(h, rows, parts) && n <= |parts|
    ensures PrefixGood(h, rows, Flatten(parts[..n]), n) && |Flatten(parts[..n])| == Offset(rows, n)
  {
    if n > 0 {
      FlattenIsWhole(h, rows, parts, n - 1);
      assert parts[..n] == parts[..n - 1] + [parts[n - 1]];
      FlattenSnoc(parts[..n - 1], parts[n - 1]);
      AppendChunk(h, rows, Flatten(parts[..n - 1]), parts[n - 1], n - 1);
    }
  }

  /** Every stretch of these bytes is among the strings considered. */
  ghost predicate StretchesIn(u: Universe, content: Bytes)
  {
    forall a, b :: 0 <= a < b <= |content| ==> content[a..b] in u
  }

  /** A finished file consists of stretches of the partial file and of chunks supplied. */
  lemma FinishedInSight(h: Hasher, u: Universe, rows: seq<Entry>, parts: seq<Bytes>, before: Bytes, after: Bytes,
                        source: Source, v: nat)
    requires PartsIn(u, parts) && StretchesIn(u, before)
    requires Extends(h, rows, before, after, v, |rows|) && Supplied(rows, after, source, v, |rows|)
    requires forall k: nat :: k < |rows| && source(k).Some? ==> source(k).value in u
    ensures InSight(u, rows, parts, after)
  {
    forall k: nat | k < |rows| && Offset(rows, k + 1) <= |after|
      ensures after[Offset(rows, k)..Offset(rows, k + 1)] in u
    {
      var a, b := Offset(rows, k), Offset(rows, k + 1);
      if k < v {
        OffsetMonotone(rows, k + 1, v);
        var w := Offset(rows, v);
        SubSlice(after, 0, w, a, b);
        SubSlice(before, 0, w, a, b);
        assert after[0..w] == after[..w] && before[0..w] == before[..w];
        assert after[a..b] == before[a..b];
      } else {
        assert Supplies(rows, after, source, k);
      }
    }
  }

  lemma WholeIsLongest(h: Hasher, rows: seq<Entry>, content: Bytes)
    requires IsWhole(h, rows, content)
    ensures Longest(h, rows, content) == |rows|
  {
    LongestIsLongest(h, rows, content, |rows|);
  }

  /** Any two attempts that finish the same recipe, from any partial files and any sources,
      leave the same bytes; so a resumed restore equals a fresh one. */
  lemma ResumedEqualsFresh(h: Hasher, u: Universe, rows: seq<Entry>, parts: seq<Bytes>, resumed: Bytes, uninterrupted: Bytes)
    requires InjectiveOn(h, u) && InSight(u, rows, parts, resumed) && InSight(u, rows, parts, uninterrupted) && Describes(h, rows, parts)
    requires IsWhole(h, rows, resumed) && IsWhole(h, rows, uninterrupted)
    ensures resumed == uninterrupted == Flatten(parts)
  {
    WholeIsExact(h, u, rows, parts, resumed);
    WholeIsExact(h, u, rows, parts, uninterrupted);
  }

  // ---------------------------------------------------------------- interrupted histories

  datatype Attempt = Attempt(before: Bytes, after: Bytes, reused: nat, written: nat)

  /** Attempts one after the other on the same partial file, each ending anyhow. */
  ghost predicate History(h: Hasher, rows: seq<Entry>, tries: seq<Attempt>)
  {
    && (forall i :: 0 <= i < |tries| ==> Attempted(h, rows, tries[i].before, tries[i].after, tries[i].reused, tries[i].written))
    && (forall i :: 0 <= i < |tries| - 1 ==> tries[i + 1].before == tries[i].after)
  }

  function TotalWritten(tries: seq<Attempt>): nat
  {
    if tries == [] then 0 else TotalWritten(tries[..|tries| - 1]) + tries[|tries| - 1].written
  }

  /** Over any number of interruptions every byte is written once: what the first attempt
      found plus everything written since is what the last attempt leaves verified. */
  lemma {:induction false} EveryByteWrittenOnce(h: Hasher, rows: seq<Entry>, tries: seq<Attempt>)
    requires tries != [] && History(h, rows, tries)
    ensures Longest(h, rows, tries[|tries| - 1].after) <= |rows|
    ensures tries[0].reused + TotalWritten(tries) == Offset(rows, Longest(h, rows, tries[|tries| - 1].after))
    ensures forall i :: 0 <= i < |tries| ==> Longest(h, rows, tries[i].before) <= Longest(h, rows, tries[i].after)
    ensures IsWhole(h, rows, tries[|tries| - 1].after) ==> tries[0].reused + TotalWritten(tries) == Offset(rows, |rows|)
  {
    var n := |tries| - 1;
    if n > 0 {
      hide Longest, Extends;
      EveryByteWrittenOnce(h, rows, tries[..n]);
    }
    assert Attempted(h, rows, tries[n].before, tries[n].after, tries[n].reused, tries[n].written);
    LongestIsLongest(h, rows, tries[n].after, |rows|);
  }

  // ---------------------------------------------------------------- a whole snapshot

  type Path = string

  datatype Item =
    | DirItem(path: Path)
    | FileItem(path: Path, size: int, recipe: Option<Recipe>)
    | OtherItem(path: Path)

  function Ancestors(path: Path): set<Path>
  {
    set k | 0 < k < |path| && path[k] == '/' :: path[..k]
  }

  /** The directories made for an item: those above it, and the item itself if it is one. */
  function Needs(item: Item): set<Path>
  {
    match item
    case DirItem(path) => Ancestors(path) + {path}
    case FileItem(path, _, _) => Ancestors(path)
    case OtherItem(_) => {}
  }

  /** What the file system refuses for one item: making it or its parent directory, reading a
      finished file back, opening or locking the partial file, taking it out of the way, or a last
      touch when the file is already in place. */
  datatype Fault = NoFault | CannotCreate | CannotRead | CannotOpen | CannotMove | CannotFinish

  /** What is reported for an item. Raised ends the whole run. */
  datatype Report =
    | Done
    | PathRefused | Unsupported
    | Raised
    | DirectoryInTheWay | NoRecipe | SizeDiffers | RecipeContradicts
    | NotOpened | NotRebuilt(outcome: Outcome) | NotMoved | NotFinished
  {
    predicate FileFailed() { !Done? && !PathRefused? && !Unsupported? && !Raised? }
  }

  /** The item is in the staging tree as the catalog describes it. */
  ghost predicate ItemRestored(h: Hasher, files: map<Path, Bytes>, dirs: set<Path>, item: Item)
  {
    match item
    case DirItem(path) => path in dirs
    case FileItem(path, size, recipe) =>
      && recipe.Some? && recipe.value.Consistent() && size == recipe.value.size
      && path in files && IsWhole(h, recipe.value.rows, files[path])
    case OtherItem(_) => false
  }

  function SizeOf(item: Item): int { if item.FileItem? then item.size else 0 }

  function TotalSize(items: seq<Item>): int
  {
    if items == [] then 0 else TotalSize(items[..|items| - 1]) + SizeOf(items[|items| - 1])
  }

  function PartialAt(partials: map<Path, Bytes>, path: Path): Bytes
  {
    if path in partials then partials[path] else []
  }

  /** Where the bytes of a restored file came from: it was there already, or it consists of the
      good part of its partial file and of chunks supplied. */
  ghost predicate CameFrom(h: Hasher, item: Item, files: map<Path, Bytes>, partials: map<Path, Bytes>, source: Source, content: Bytes)
  {
    item.FileItem? && item.recipe.Some? &&
    var rows, before := item.recipe.value.rows, PartialAt(partials, item.path);
    var v := Longest(h, rows, before);
    || (item.path in files && files[item.path] == content)
    || (Extends(h, rows, before, content, v, |rows|) && Supplied(rows, content, source, v, |rows|))
  }

  /** A report other than success has this reason, files and dirs being what may stand in the
      way. */
  ghost predicate Accounts(item: Item, refused: set<Path>, files: set<Path>, dirs: set<Path>, fault: Fault, source: Source,
                           report: Report)
  {
    match report
    case Done => item.path !in refused && !item.OtherItem?
    case PathRefused => item.path in refused
    case Unsupported => item.OtherItem?
    case Raised => fault.CannotCreate? || !(Needs(item) !! files)
    case _ => item.FileItem? && FileAccounts(item, dirs, fault, source, report)
  }

  ghost predicate FileAccounts(item: Item, dirs: set<Path>, fault: Fault, source: Source, report: Report)
    requires item.FileItem?
  {
    match report
    case DirectoryInTheWay => item.path in dirs
    case NoRecipe => item.recipe.None?
    case SizeDiffers => item.recipe.Some? && item.recipe.value.size != item.size
    case RecipeContradicts => item.recipe.Some? && !item.recipe.value.Consistent()
    case NotRebuilt(outcome) =>
      && item.recipe.Some? && !outcome.Restored?
      && (item.recipe.value.Consistent() ==> !outcome.RecipeInconsistent? && Blames(item.recipe.value.rows, source, outcome))
    case NotOpened => fault.CannotOpen?
    case NotMoved => fault.CannotMove?
    case NotFinished => fault.CannotFinish?
    case _ => true
  }

  /** A chunk blamed for a failure is really missing or has the wrong size. */
  ghost predicate Blames(rows: seq<Entry>, source: Source, outcome: Outcome)
  {
    match outcome
    case ChunkMissing(k) => k < |rows| && source(k).None?
    case ChunkSizeWrong(k) => k < |rows| && source(k).Some? && |source(k).value| != rows[k].size
    case _ => true
  }

  ghost predicate SameAt(a: map<Path, Bytes>, b: map<Path, Bytes>, p: Path)
  {
    (p in a <==> p in b) && (p in a ==> a[p] == b[p])
  }

  ghost predicate OnlyAt(a: map<Path, Bytes>, b: map<Path, Bytes>, path: Path)
  {
    forall p :: p != path ==> SameAt(a, b, p)
  }

  function FilePaths(items: seq<Item>): set<Path>
  {
    set k | 0 <= k < |items| && items[k].FileItem? :: items[k].path
  }

  function DirPaths(items: seq<Item>): set<Path>
  {
    set k, p | 0 <= k < |items| && p in Needs(items[k]) :: p
  }

  ghost predicate DistinctPaths(items: seq<Item>)
  {
    forall i, j :: 0 <= i < j < |items| ==> items[i].path != items[j].path
  }

  predicate AllDone(reports: seq<Report>)
  {
    forall i :: 0 <= i < |reports| ==> reports[i].Done?
  }

  /** What the staging area holds. */
  datatype Area = Area(files: map<Path, Bytes>, partials: map<Path, Bytes>, dirs: set<Path>)

  /** A reported success is in place, from where it should come, and has left no partial file. */
  ghost predicate Settled(h: Hasher, item: Item, source: Source, report: Report, start: Area, now: Area)
  {
    report.Done? ==>
      && ItemRestored(h, now.files, now.dirs, item)
      && (item.FileItem? ==> item.path !in now.partials && CameFrom(h, item, start.files, start.partials, source, now.files[item.path]))
  }

  ghost predicate Untouched(item: Item, start: Area, now: Area)
  {
    SameAt(start.files, now.files, item.path) && SameAt(start.partials, now.partials, item.path)
  }

  /** Nothing but this item was worked on. */
  ghost predicate WorkedOn(item: Item, before: Area, after: Area)
  {
    && OnlyAt(before.files, after.files, item.path) && OnlyAt(before.partials, after.partials, item.path)
    && (!item.FileItem? ==> after.files == before.files && after.partials == before.partials)
    && (after.dirs == before.dirs || after.dirs == before.dirs + Needs(item))
  }

  /** Where the loop stands before item i. */
  ghost predicate Passed(h: Hasher, items: seq<Item>, sources: seq<Source>, reports: seq<Report>, start: Area, now: Area, i: nat)
    requires |sources| == |items|
  {
    && |reports| == i <= |items|
    && (forall j :: 0 <= j < i ==> Settled(h, items[j], sources[j], reports[j], start, now))
    && (forall k :: i <= k < |items| ==> Untouched(items[k], start, now))
    && (forall p :: p !in FilePaths(items) ==> SameAt(start.partials, now.partials, p))
    && Within(items, start, now)
  }

  /** Only files and directories of the items have been added. */
  ghost predicate Within(items: seq<Item>, start: Area, now: Area)
  {
    now.files.Keys <= start.files.Keys + FilePaths(items) && now.dirs <= start.dirs + DirPaths(items)
  }

  lemma WithinStays(items: seq<Item>, start: Area, before: Area, after: Area, i: nat)
    requires i < |items| && Within(items, start, before) && WorkedOn(items[i], before, after)
    ensures Within(items, start, after)
  {
    hide FilePaths, DirPaths, Needs;
    NeedsIn(items, i);
    if items[i].FileItem? {
      FilePathIn(items, i);
    }
    forall p | p in after.files ensures p in start.files.Keys + FilePaths(items) {
      if p != items[i].path {
        assert SameAt(before.files, after.files, p);
      }
    }
  }

  lemma NeedsIn(items: seq<Item>, i: nat)
    requires i < |items|
    ensures Needs(items[i]) <= DirPaths(items)
  {
  }

  lemma SettledStays(h: Hasher, item: Item, other: Item, source: Source, report: Report, start: Area, before: Area, after: Area)
    requires Settled(h, item, source, report, start, before) && WorkedOn(other, before, after) && item.path != other.path
    ensures Settled(h, item, source, report, start, after)
  {
    hide IsWhole, CameFrom;
    assert SameAt(before.files, after.files, item.path) && SameAt(before.partials, after.partials, item.path);
  }

  lemma UntouchedStays(item: Item, other: Item, start: Area, before: Area, after: Area)
    requires Untouched(item, start, before) && WorkedOn(other, before, after) && item.path != other.path
    ensures Untouched(item, start, after)
  {
    assert SameAt(before.files, after.files, item.path) && SameAt(before.partials, after.partials, item.path);
  }

  lemma FilePathIn(items: seq<Item>, i: nat)
    requires i < |items| && items[i].FileItem?
    ensures items[i].path in FilePaths(items)
  {
  }

  lemma PassedOneMore(h: Hasher, items: seq<Item>, sources: seq<Source>, reports: seq<Report>, start: Area, before: Area, after: Area,
                      i: nat, report: Report)
    requires |sources| == |items| && DistinctPaths(items) && i < |items|
    requires Passed(h, items, sources, reports, start, before, i) && WorkedOn(items[i], before, after)
    requires Settled(h, items[i], sources[i], report, start, after)
    ensures Passed(h, items, sources, reports + [report], start, after, i + 1)
  {
    hide Settled, Untouched, WorkedOn, FilePaths, SameAt, Within;
    WithinStays(items, start, before, after, i);
    forall j | 0 <= j < i ensures Settled(h, items[j], sources[j], (reports + [report])[j], start, after) {
      SettledStays(h, items[j], items[i], sources[j], reports[j], start, before, after);
    }
    forall k | i + 1 <= k < |items| ensures Untouched(items[k], start, after) {
      UntouchedStays(items[k], items[i], start, before, after);
    }
    forall p | p !in FilePaths(items) ensures SameAt(start.partials, after.partials, p) {
      PartialsElsewhere(items, start, before, after, i, p);
    }
  }

  lemma PartialsElsewhere(items: seq<Item>, start: Area, before: Area, after: Area, i: nat, p: Path)
    requires i < |items| && WorkedOn(items[i], before, after) && p !in FilePaths(items) && SameAt(start.partials, before.partials, p)
    ensures SameAt(start.partials, after.partials, p)
  {
    if items[i].FileItem? {
      FilePathIn(items, i);
      hide FilePaths;
      assert SameAt(before.partials, after.partials, p);
    }
  }

  /** With every item in place, the partial files that remain are those of no file item. */
  lemma AllPassed(h: Hasher, items: seq<Item>, sources: seq<Source>, reports: seq<Report>, start: Area, now: Area)
    requires |sources| == |items| && Passed(h, items, sources, reports, start, now, |items|)
    requires AllDone(reports)
    ensures now.partials.Keys == start.partials.Keys - FilePaths(items)
    ensures forall j :: 0 <= j < |items| ==> ItemRestored(h, now.files, now.dirs, items[j])
  {
    hide ItemRestored, CameFrom;
    forall j | 0 <= j < |items| ensures ItemRestored(h, now.files, now.dirs, items[j]) && (items[j].FileItem? ==> items[j].path !in now.partials) {
      assert Settled(h, items[j], sources[j], reports[j], start, now);
    }
    forall p ensures p in now.partials.Keys <==> p in start.partials.Keys - FilePaths(items) {
      if p !in FilePaths(items) {
        assert SameAt(start.partials, now.partials, p);
      }
    }
  }

  lemma AttemptGrows(h: Hasher, rows: seq<Entry>, before: Bytes, after: Bytes, reused: int, written: int)
    requires Attempted(h, rows, before, after, reused, written)
    ensures Longest(h, rows, before) <= Longest(h, rows, after)
  {
  }

  /** The file is in place, or its partial file is there and verified at least as far as before. */
  ghost predicate NothingLost(h: Hasher, item: Item, partials: map<Path, Bytes>, now: Area)
    requires item.FileItem? && item.path in partials
  {
    item.recipe.Some? && item.recipe.value.Consistent() ==>
      || ItemRestored(h, now.files, now.dirs, item)
      || (&& item.path in now.partials
          && Longest(h, item.recipe.value.rows, partials[item.path]) <= Longest(h, item.recipe.value.rows, now.partials[item.path]))
  }

  /** What may become of a file item: only its own path is touched, the report is true, success is
      success, and without it nothing verified is lost. */
  ghost predicate FileOutcome(h: Hasher, item: Item, fault: Fault, source: Source, report: Report, before: Area, after: Area)
    requires item.FileItem?
  {
    && OnlyAt(before.files, after.files, item.path) && OnlyAt(before.partials, after.partials, item.path)
    && after.dirs == before.dirs
    && (report.Done? || report.FileFailed()) && !report.DirectoryInTheWay? && FileAccounts(item, {}, fault, source, report)
    && Settled(h, item, source, report, before, after)
    && (!report.Done? && !report.NotFinished? ==> after.files == before.files)
    && (!report.Done? && item.path in before.partials ==> NothingLost(h, item, before.partials, after))
  }

  lemma LeftAlone(h: Hasher, item: Item, fault: Fault, source: Source, report: Report, area: Area)
    requires item.FileItem? && report.FileFailed() && !report.DirectoryInTheWay? && FileAccounts(item, {}, fault, source, report)
    ensures FileOutcome(h, item, fault, source, report, area, area)
  {
    hide ItemRestored, Longest, CameFrom, FileAccounts;
  }

  lemma FoundInPlace(h: Hasher, item: Item, fault: Fault, source: Source, report: Report, before: Area)
    requires item.FileItem? && ItemRestored(h, before.files, before.dirs, item)
    requires report.Done? || (report.NotFinished? && fault.CannotFinish?)
    ensures FileOutcome(h, item, fault, source, report, before, before.(partials := before.partials - {item.path}))
  {
    hide IsWhole, Longest, Extends, Supplied;
  }

  lemma RebuildAccounts(h: Hasher, item: Item, fault: Fault, source: Source, outcome: Outcome, before: Area, content: Bytes)
    requires item.FileItem? && item.recipe.Some?
    requires var r := item.recipe.value;
             r.Consistent() ==>
               && !outcome.RecipeInconsistent?
               && Explains(r.rows, source, outcome, Longest(h, r.rows, PartialAt(before.partials, item.path)), Longest(h, r.rows, content))
    ensures !outcome.Restored? ==> FileAccounts(item, {}, fault, source, NotRebuilt(outcome))
    ensures fault.CannotMove? ==> FileAccounts(item, {}, fault, source, NotMoved)
  {
    hide Longest;
  }

  lemma OpenAccounts(item: Item, source: Source)
    requires item.FileItem?
    ensures FileAccounts(item, {}, CannotOpen, source, NotOpened)
  {
  }

  lemma LeftPartial(h: Hasher, item: Item, fault: Fault, source: Source, report: Report, before: Area, content: Bytes)
    requires item.FileItem? && (report.NotRebuilt? || report.NotMoved?) && FileAccounts(item, {}, fault, source, report)
    requires item.recipe.Some? && item.recipe.value.Consistent() ==>
               Longest(h, item.recipe.value.rows, PartialAt(before.partials, item.path)) <= Longest(h, item.recipe.value.rows, content)
    ensures FileOutcome(h, item, fault, source, report, before, before.(partials := before.partials[item.path := content]))
  {
    hide ItemRestored, Longest, CameFrom, FileAccounts;
  }

  lemma MovedIntoPlace(h: Hasher, item: Item, fault: Fault, source: Source, report: Report, before: Area, content: Bytes)
    requires item.FileItem? && item.recipe.Some? && item.recipe.value.Consistent() && item.size == item.recipe.value.size
    requires IsWhole(h, item.recipe.value.rows, content)
    requires CameFrom(h, item, before.files, before.partials, source, content)
    requires report.Done? || (report.NotFinished? && fault.CannotFinish?)
    ensures FileOutcome(h, item, fault, source, report, before,
                        before.(files := before.files[item.path := content], partials := before.partials - {item.path}))
  {
    hide IsWhole, Longest, CameFrom;
  }

  /** What a finished attempt leaves came from the partial file and the chunks supplied. */
  lemma AttemptCameFrom(h: Hasher, item: Item, area: Area, source: Source, content: Bytes, reused: int, written: int)
    requires item.FileItem? && item.recipe.Some? && IsWhole(h, item.recipe.value.rows, content)
    requires Attempted(h, item.recipe.value.rows, PartialAt(area.partials, item.path), content, reused, written)
    requires var rows := item.recipe.value.rows;
             Supplied(rows, content, source, Longest(h, rows, PartialAt(area.partials, item.path)), Longest(h, rows, content))
    ensures CameFrom(h, item, area.files, area.partials, source, content)
  {
    WholeIsLongest(h, item.recipe.value.rows, content);
    hide Longest, IsWhole, Supplied, Extends;
  }

  /** The staging tree, the partial files kept beside it, and the counters of a run. */
  class Staging {
    var files: map<Path, Bytes>
    var partials: map<Path, Bytes>
    var dirs: set<Path>
    var processed: nat
    var successful: nat
    var filesRestored: nat
    var filesFailed: nat
    var bytesReused: nat
    var bytesWritten: nat

    function Contents(): Area
      reads this
    {
      Area(files, partials, dirs)
    }

    /** One file item: reuse it if it is already in place, otherwise resume its partial file
        and move the result into the tree. */
    method RestoreFileItem(h: Hasher, item: Item, source: Source, window: int, fault: Fault) returns (report: Report)
      requires item.FileItem? && (item.recipe.Some? ==> Delivers(h, item.recipe.value.rows, source))
      modifies this`files, this`partials, this`bytesReused, this`bytesWritten
      ensures FileOutcome(h, item, fault, source, report, old(Contents()), Contents())
      ensures report.Done? ==> bytesReused + bytesWritten == old(bytesReused + bytesWritten) + item.size
    {
      hide Longest, IsWhole, FileOutcome, Delivers;
      ghost var before := Contents();
      if item.recipe.None? {
        LeftAlone(h, item, fault, source, NoRecipe, before);
        return NoRecipe;
      }
      var r := item.recipe.value;
      if r.size != item.size {
        LeftAlone(h, item, fault, source, SizeDiffers, before);
        return SizeDiffers;
      }
      if item.path in files && !fault.CannotRead? {
        var existing := new Handle(files[item.path]);
        var same := ValidateCompletedFile(h, existing, r);
        if same.None? {
          LeftAlone(h, item, fault, source, RecipeContradicts, before);
          return RecipeContradicts;
        }
        if same.value {
          if fault.CannotMove? {
            LeftAlone(h, item, fault, source, NotMoved, before);
            return NotMoved;
          }
          partials := partials - {item.path};
          report := if fault.CannotFinish? then NotFinished else Done;
          if report.Done? {
            bytesReused := bytesReused + r.size;
          }
          FoundInPlace(h, item, fault, source, report, before);
          return;
        }
      }
      report := RebuildFile(h, item, source, window, fault);
    }

    /** Resumes the partial file and moves the result into the tree. */
    method RebuildFile(h: Hasher, item: Item, source: Source, window: int, fault: Fault) returns (report: Report)
      requires item.FileItem? && item.recipe.Some? && item.recipe.value.size == item.size && Delivers(h, item.recipe.value.rows, source)
      modifies this`files, this`partials, this`bytesReused, this`bytesWritten
      ensures FileOutcome(h, item, fault, source, report, old(Contents()), Contents())
      ensures report.Done? ==> bytesReused + bytesWritten == old(bytesReused + bytesWritten) + item.size
    {
      hide Longest, IsWhole, Supplied, FileOutcome, Attempted, CameFrom, Delivers, FileAccounts, Explains;
      ghost var before := Contents();
      if fault.CannotOpen? {
        assert FileAccounts(item, {}, fault, source, NotOpened) by { OpenAccounts(item, source); }
        LeftAlone(h, item, fault, source, NotOpened, before);
        return NotOpened;
      }
      var r := item.recipe.value;
      var f := new Handle(PartialAt(partials, item.path));
      var outcome, reused, written := ResumeFile(h, f, r, source, window);
      bytesReused, bytesWritten := bytesReused + reused, bytesWritten + written;
      if r.Consistent() {
        AttemptGrows(h, r.rows, PartialAt(before.partials, item.path), f.content, reused, written);
      }
      if !outcome.Restored? || fault.CannotMove? {
        report := if !outcome.Restored? then NotRebuilt(outcome) else NotMoved;
        RebuildAccounts(h, item, fault, source, outcome, before, f.content);
        partials := partials[item.path := f.content];
        LeftPartial(h, item, fault, source, report, before, f.content);
        return;
      }
      AttemptCameFrom(h, item, before, source, f.content, reused, written);
      files, partials := files[item.path := f.content], partials - {item.path};
      report := if fault.CannotFinish? then NotFinished else Done;
      MovedIntoPlace(h, item, fault, source, report, before, f.content);
    }

    /** One item of any kind. */
    method RestoreItem(h: Hasher, item: Item, refused: set<Path>, source: Source, window: int, fault: Fault) returns (report: Report)
      requires item.FileItem? && item.recipe.Some? ==> Delivers(h, item.recipe.value.rows, source)
      modifies this
      ensures processed == old(processed) + 1
      ensures successful == old(successful) + if report.Done? then 1 else 0
      ensures filesRestored == old(filesRestored) + if report.Done? && item.FileItem? then 1 else 0
      ensures filesFailed == old(filesFailed) + if report.FileFailed() then 1 else 0
      ensures report.Done? ==> bytesReused + bytesWritten == old(bytesReused + bytesWritten) + SizeOf(item)
      ensures WorkedOn(item, old(Contents()), Contents())
      ensures dirs == old(dirs) + if report.Done? || report.FileFailed() then Needs(item) else {}
      ensures Settled(h, item, source, report, old(Contents()), Contents())
      ensures Accounts(item, refused, old(files.Keys), old(dirs), fault, source, report)
    {
      hide IsWhole, Longest, Delivers, CameFrom, Explains, ItemRestored, Ancestors;
      processed := processed + 1;
      if item.path in refused {
        return PathRefused;
      }
      if item.OtherItem? {
        return Unsupported;
      }
      if fault.CannotCreate? || !(Needs(item) !! files.Keys) {
        return Raised;
      }
      dirs := dirs + Needs(item);
      match item
      case DirItem(path) =>
        successful := successful + 1;
        DirRestored(h, files, dirs, path);
        report := Done;
      case FileItem(path, _, _) =>
        if path in dirs {
          OwnPathIsNew(path);
          filesFailed := filesFailed + 1;
          return DirectoryInTheWay;
        }
        report := RestoreFileItem(h, item, source, window, fault);
        if report.Done? {
          filesRestored, successful := filesRestored + 1, successful + 1;
        } else {
          filesFailed := filesFailed + 1;
        }
    }

    /** All items in turn. refused are paths that may not be restored; free says that nothing
        stands at the final place and that the rename works. Each report is true. The snapshot
        is published exactly when every item succeeded, no partial file is left and the place is
        free; it then holds every item with exactly its bytes, and the bytes reused and written
        add up to its size. Partial files can only be left of paths that are no file items. */
    method RestoreSnapshot(h: Hasher, items: seq<Item>, refused: set<Path>, sources: seq<Source>, window: int, faults: seq<Fault>,
                           free: bool)
      returns (publish: bool, reports: seq<Report>)
      requires |sources| == |faults| == |items| && DistinctPaths(items)
      requires forall i :: 0 <= i < |items| && items[i].FileItem? && items[i].recipe.Some? ==>
                 Delivers(h, items[i].recipe.value.rows, sources[i])
      modifies this
      ensures |reports| == processed <= |items| && successful <= processed && filesRestored <= successful
      ensures forall i :: 0 <= i < |reports| ==>
                && Accounts(items[i], refused, old(files.Keys) + FilePaths(items), old(dirs) + DirPaths(items), faults[i], sources[i], reports[i])
                && Settled(h, items[i], sources[i], reports[i], old(Contents()), Contents())
      ensures |reports| < |items| ==> reports != [] && reports[|reports| - 1].Raised?
      ensures publish <==> |reports| == |items| > 0 && AllDone(reports) && partials == map[] && free
      ensures |reports| == |items| && AllDone(reports) ==>
                && (forall i :: 0 <= i < |items| ==> ItemRestored(h, files, dirs, items[i]))
                && bytesReused + bytesWritten == TotalSize(items)
                && partials.Keys == old(partials.Keys) - FilePaths(items)
    {
      hide ItemRestored, Delivers, SizeOf, Settled, Untouched, WorkedOn, FilePaths, SameAt, Accounts, Passed, DistinctPaths, AllDone, TotalSize,
           DirPaths, Needs, Within;
      ghost var start := Contents();
      processed, successful, filesRestored, filesFailed, bytesReused, bytesWritten := 0, 0, 0, 0, 0, 0;
      reports := [];
      assert AllDone(reports) && TotalSize([]) == 0 by { NothingDone(); }
      assert items[..0] == [];
      NothingPassed(h, items, sources, start);
      for i := 0 to |items|
        invariant processed == i == |reports| && successful <= i && filesRestored <= successful
        invariant successful == i <==> AllDone(reports)
        invariant successful == i ==> bytesReused + bytesWritten == TotalSize(items[..i])
        invariant Passed(h, items, sources, reports, start, Contents(), i)
        invariant forall j :: 0 <= j < i ==>
                    Accounts(items[j], refused, start.files.Keys + FilePaths(items), start.dirs + DirPaths(items), faults[j], sources[j], reports[j])
      {
        assert items[..i + 1][..i] == items[..i];
        TotalSizeSnoc(items[..i + 1]);
        ghost var before := Contents();
        PassedNext(h, items, sources, reports, start, before, i);
        var report := RestoreItem(h, items[i], refused, sources[i], window, faults[i]);
        TouchedNow(h, items, i, refused, sources[i], faults[i], report, start, before, Contents());
        PassedOneMore(h, items, sources, reports, start, before, Contents(), i, report);
        AllDoneSnoc(reports, report);
        reports := reports + [report];
        if report.Raised? {
          PassedMeans(h, items, sources, reports, start, Contents(), i + 1);
          return false, reports;
        }
      }
      assert items[..|items|] == items;
      PassedMeans(h, items, sources, reports, start, Contents(), |items|);
      if successful == processed {
        AllPassed(h, items, sources, reports, start, Contents());
      }
      publish := successful == processed && processed > 0 && partials == map[] && free;
    }
  }

  lemma NothingDone()
    ensures AllDone([]) && TotalSize([]) == 0
  {
  }

  lemma AllDoneSnoc(reports: seq<Report>, report: Report)
    ensures AllDone(reports + [report]) <==> AllDone(reports) && report.Done?
  {
    if AllDone(reports + [report]) {
      assert (reports + [report])[|reports|] == report;
      forall i | 0 <= i < |reports| ensures reports[i].Done? {
        assert (reports + [report])[i] == reports[i];
      }
    }
  }

  lemma TotalSizeSnoc(items: seq<Item>)
    requires items != []
    ensures TotalSize(items) == TotalSize(items[..|items| - 1]) + SizeOf(items[|items| - 1])
  {
  }

  lemma OwnPathIsNew(path: Path)
    ensures path !in Ancestors(path)
  {
  }

  lemma DirRestored(h: Hasher, files: map<Path, Bytes>, dirs: set<Path>, path: Path)
    requires path in dirs
    ensures ItemRestored(h, files, dirs, DirItem(path))
  {
  }

  lemma NothingPassed(h: Hasher, items: seq<Item>, sources: seq<Source>, start: Area)
    requires |sources| == |items|
    ensures Passed(h, items, sources, [], start, start, 0)
  {
  }

  lemma PassedNext(h: Hasher, items: seq<Item>, sources: seq<Source>, reports: seq<Report>, start: Area, now: Area, i: nat)
    requires |sources| == |items| && i < |items| && Passed(h, items, sources, reports, start, now, i)
    ensures Untouched(items[i], start, now) && Within(items, start, now)
  {
  }

  lemma PassedMeans(h: Hasher, items: seq<Item>, sources: seq<Source>, reports: seq<Report>, start: Area, now: Area, i: nat)
    requires |sources| == |items| && Passed(h, items, sources, reports, start, now, i)
    ensures |reports| == i <= |items| && forall j :: 0 <= j < i ==> Settled(h, items[j], sources[j], reports[j], start, now)
  {
    hide Settled;
  }

  /** An item untouched so far is judged by what was there at the start and by what the other items
      may have put in its way. */
  lemma TouchedNow(h: Hasher, items: seq<Item>, i: nat, refused: set<Path>, source: Source, fault: Fault, report: Report,
                   start: Area, before: Area, after: Area)
    requires i < |items| && Untouched(items[i], start, before) && Within(items, start, before)
    requires Settled(h, items[i], source, report, before, after)
    requires Accounts(items[i], refused, before.files.Keys, before.dirs, fault, source, report)
    ensures Settled(h, items[i], source, report, start, after)
    ensures Accounts(items[i], refused, start.files.Keys + FilePaths(items), start.dirs + DirPaths(items), fault, source, report)
  {
    hide ItemRestored, Longest, Extends, Supplied, Explains, FilePaths, DirPaths, Needs, Blames;
  }

  /** A published snapshot holds, for every file whose recipe describes given chunks, exactly
      the concatenation of those chunks. */
  lemma PublishedFilesAreExact(h: Hasher, u: Universe, files: map<Path, Bytes>, dirs: set<Path>, item: Item, parts: seq<Bytes>)
    requires InjectiveOn(h, u) && item.FileItem? && ItemRestored(h, files, dirs, item)
    requires Describes(h, item.recipe.value.rows, parts) && InSight(u, item.recipe.value.rows, parts, files[item.path])
    ensures files[item.path] == Flatten(parts) && item.size == |Flatten(parts)|
  {
    WholeIsExact(h, u, item.recipe.value.rows, parts, files[item.path]);
  }
}
