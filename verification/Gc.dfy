/** Garbage collection of the local store: an age sweep under a retain policy. */
module Gc {
  import opened Prelude

  /** What one look at a file says. An inode of zero means that the platform does not tell. */
  datatype Stat = Stat(dev: int, ino: int, mode: int, size: nat, mtime: int, ctime: int)
  {
    predicate SameFile(other: Stat)
    {
      if ino != 0 && other.ino != 0 then dev == other.dev && ino == other.ino
      else mode == other.mode && size == other.size && mtime == other.mtime && ctime == other.ctime
    }
  }

  /** A file found in the store and its directory, with everything the file system will say about it during the
      sweep: the first look, the second look just before deleting, and whether deleting works. */
  datatype Candidate = Candidate(name: Hash, dir: string, first: Option<Stat>, second: Option<Stat>, deletable: bool)

  datatype Settings = Settings(now: int, maxAge: Option<int>, dryRun: bool, retain: Option<set<Hash>>)
  {
    predicate Enabled() { maxAge.Some? }
    function Cutoff(): int requires Enabled() { now - Max(maxAge.value, 0) }
  }

  datatype Fate = Refused | Ignored | Retained | TooYoung | Reported | Deleted | DeleteFailed

  /** What becomes of a file. */
  function FateOf(s: Settings, c: Candidate): Fate
  {
    if c.first.None? then Refused
    else if !s.Enabled() then Ignored
    else if s.retain.Some? && c.name in s.retain.value then Retained
    else if c.first.value.mtime > s.Cutoff() then TooYoung
    else if s.dryRun then Reported
    else if c.second.None? || !c.first.value.SameFile(c.second.value) || !c.deletable then DeleteFailed
    else Deleted
  }

  datatype Counters = Counters(
    seen: nat, retained: nat, skippedByAge: nat, collectable: nat, deleted: nat, errors: nat,
    bytesCollectable: nat, bytesDeleted: nat)

  const ZERO := Counters(0, 0, 0, 0, 0, 0, 0, 0)

  function Count(s: Settings, files: seq<Candidate>, fates: set<Fate>): nat
  {
    if files == [] then 0
    else Count(s, files[..|files| - 1], fates) + if FateOf(s, files[|files| - 1]) in fates then 1 else 0
  }

  /** Sizes as found at the first look. */
  function SumSizes(s: Settings, files: seq<Candidate>, fates: set<Fate>): nat
  {
    if files == [] then 0
    else
      var c := files[|files| - 1];
      SumSizes(s, files[..|files| - 1], fates)
      + if FateOf(s, c) in fates && c.first.Some? then c.first.value.size else 0
  }

  /** Sizes of the deleted files as found at the second look; the file may have grown since the
      first. */
  function SumDeleted(s: Settings, files: seq<Candidate>): nat
  {
    if files == [] then 0
    else
      var c := files[|files| - 1];
      SumDeleted(s, files[..|files| - 1]) + if FateOf(s, c) == Deleted then c.second.value.size else 0
  }

  function DeletedNames(s: Settings, files: seq<Candidate>): set<Hash>
  {
    set c | c in files && FateOf(s, c) == Deleted :: c.name
  }

  /** Directories something was deleted from; they are synced at the end. */
  function TouchedDirs(s: Settings, files: seq<Candidate>): set<string>
  {
    set c | c in files && FateOf(s, c) == Deleted :: c.dir
  }

  /** The counters after these files, by fate. */
  ghost predicate Totals(s: Settings, files: seq<Candidate>, n: Counters)
  {
    && n.seen == Count(s, files, {Ignored, Retained, TooYoung, Reported, Deleted, DeleteFailed})
    && n.retained == Count(s, files, {Retained}) && n.skippedByAge == Count(s, files, {TooYoung})
    && n.collectable == Count(s, files, {Reported, Deleted, DeleteFailed}) && n.deleted == Count(s, files, {Deleted})
    && n.errors == Count(s, files, {Refused, DeleteFailed})
    && n.bytesCollectable == SumSizes(s, files, {Reported, Deleted, DeleteFailed}) && n.bytesDeleted == SumDeleted(s, files)
  }

  /** The counters one file further. */
  function After(s: Settings, n: Counters, c: Candidate): Counters
  {
    var size := if c.first.Some? then c.first.value.size else 0;
    match FateOf(s, c)
    case Refused => n.(errors := n.errors + 1)
    case Ignored => n.(seen := n.seen + 1)
    case Retained => n.(seen := n.seen + 1, retained := n.retained + 1)
    case TooYoung => n.(seen := n.seen + 1, skippedByAge := n.skippedByAge + 1)
    case Reported => n.(seen := n.seen + 1, collectable := n.collectable + 1, bytesCollectable := n.bytesCollectable + size)
    case DeleteFailed =>
      n.(seen := n.seen + 1, collectable := n.collectable + 1, bytesCollectable := n.bytesCollectable + size, errors := n.errors + 1)
    case Deleted =>
      n.(seen := n.seen + 1, collectable := n.collectable + 1, bytesCollectable := n.bytesCollectable + size,
         deleted := n.deleted + 1, bytesDeleted := n.bytesDeleted + c.second.value.size)
  }

  lemma CountNext(s: Settings, files: seq<Candidate>, i: nat, fates: set<Fate>)
    requires i < |files|
    ensures Count(s, files[..i + 1], fates) == Count(s, files[..i], fates) + if FateOf(s, files[i]) in fates then 1 else 0
    ensures SumSizes(s, files[..i + 1], fates)
            == SumSizes(s, files[..i], fates) + if FateOf(s, files[i]) in fates && files[i].first.Some? then files[i].first.value.size else 0
    ensures SumDeleted(s, files[..i + 1])
            == SumDeleted(s, files[..i]) + if FateOf(s, files[i]) == Deleted then files[i].second.value.size else 0
  {
    hide FateOf;
    assert files[..i + 1][..i] == files[..i];
  }

  lemma TotalsNext(s: Settings, files: seq<Candidate>, i: nat, n: Counters)
    requires i < |files| && Totals(s, files[..i], n)
    ensures Totals(s, files[..i + 1], After(s, n, files[i]))
  {
    hide Count, SumSizes, SumDeleted;
    CountNext(s, files, i, {Ignored, Retained, TooYoung, Reported, Deleted, DeleteFailed});
    CountNext(s, files, i, {Retained});
    CountNext(s, files, i, {TooYoung});
    CountNext(s, files, i, {Reported, Deleted, DeleteFailed});
    CountNext(s, files, i, {Deleted});
    CountNext(s, files, i, {Refused, DeleteFailed});
  }

  /** One file of the sweep. */
  method SweepFile(s: Settings, before: Counters, c: Candidate) returns (n: Counters, gone: bool)
    ensures n == After(s, before, c) && (gone <==> FateOf(s, c) == Deleted)
  {
    n, gone := before, false;
    if c.first.None? {
      n := n.(errors := n.errors + 1);
      return;
    }
    n := n.(seen := n.seen + 1);
    if !s.Enabled() {
      return;
    }
    if s.retain.Some? && c.name in s.retain.value {
      n := n.(retained := n.retained + 1);
      return;
    }
    if c.first.value.mtime > s.Cutoff() {
      n := n.(skippedByAge := n.skippedByAge + 1);
      return;
    }
    n := n.(collectable := n.collectable + 1, bytesCollectable := n.bytesCollectable + c.first.value.size);
    if s.dryRun {
      return;
    }
    if c.second.None? || !c.first.value.SameFile(c.second.value) || !c.deletable {
      n := n.(errors := n.errors + 1);
      return;
    }
    n := n.(deleted := n.deleted + 1, bytesDeleted := n.bytesDeleted + c.second.value.size);
    gone := true;
  }

  /** The sweep, file by file, and the sync of what it touched; unsyncable are directories for which
      that fails, each of them one more error. */
  method Collect(s: Settings, files: seq<Candidate>, store: set<Hash>, unsyncable: set<string>) returns (rest: set<Hash>, n: Counters)
    ensures rest == store - DeletedNames(s, files)
    ensures n.errors == Count(s, files, {Refused, DeleteFailed}) + |TouchedDirs(s, files) * unsyncable|
    ensures Totals(s, files, n.(errors := Count(s, files, {Refused, DeleteFailed})))
  {
    hide DeletedNames, TouchedDirs, Totals, FateOf, After, Count;
    rest, n := store, ZERO;
    var touched: set<string> := {};
    NothingSwept(s);
    assert files[..0] == [];
    for i := 0 to |files|
      invariant rest == store - DeletedNames(s, files[..i]) && touched == TouchedDirs(s, files[..i]) && Totals(s, files[..i], n)
    {
      var c := files[i];
      DeletedStep(s, files, i);
      TouchedStep(s, files, i);
      TotalsNext(s, files, i, n);
      var gone: bool;
      n, gone := SweepFile(s, n, c);
      if gone {
        rest, touched := rest - {c.name}, touched + {c.dir};
      }
    }
    assert files[..|files|] == files;
    TotalErrors(s, files, n);
    n := n.(errors := n.errors + |touched * unsyncable|);
  }

  lemma TotalErrors(s: Settings, files: seq<Candidate>, n: Counters)
    requires Totals(s, files, n)
    ensures n.errors == Count(s, files, {Refused, DeleteFailed})
  {
  }

  lemma NothingSwept(s: Settings)
    ensures Totals(s, [], ZERO) && TouchedDirs(s, []) == {} && DeletedNames(s, []) == {}
  {
  }

  lemma DeletedStep(s: Settings, files: seq<Candidate>, i: nat)
    requires i < |files|
    ensures DeletedNames(s, files[..i + 1])
            == DeletedNames(s, files[..i]) + if FateOf(s, files[i]) == Deleted then {files[i].name} else {}
  {
    hide FateOf;
    assert files[..i + 1] == files[..i] + [files[i]];
  }

  lemma TouchedStep(s: Settings, files: seq<Candidate>, i: nat)
    requires i < |files|
    ensures TouchedDirs(s, files[..i + 1])
            == TouchedDirs(s, files[..i]) + if FateOf(s, files[i]) == Deleted then {files[i].dir} else {}
  {
    hide FateOf;
    assert files[..i + 1] == files[..i] + [files[i]];
  }

  /** Nothing the policy retains is ever deleted, nor anything in a dry run or while collection
      is switched off, nor any file younger than the limit. */
  lemma DeletesOnlyGarbage(s: Settings, files: seq<Candidate>, name: Hash)
    requires name in DeletedNames(s, files)
    ensures s.Enabled() && !s.dryRun
    ensures s.retain.Some? ==> name !in s.retain.value
    ensures exists c :: c in files && c.name == name && c.first.Some? && c.first.value.mtime <= s.Cutoff()
  {
  }

  /** Every file is accounted for once. */
  lemma {:induction false} SweepConserves(s: Settings, files: seq<Candidate>)
    ensures |files| == Count(s, files, {Refused}) + Count(s, files, {Ignored, Retained, TooYoung, Reported, Deleted, DeleteFailed})
    ensures s.Enabled() ==> Count(s, files, {Ignored, Retained, TooYoung, Reported, Deleted, DeleteFailed})
                            == Count(s, files, {Retained}) + Count(s, files, {TooYoung}) + Count(s, files, {Reported, Deleted, DeleteFailed})
    ensures s.dryRun ==> Count(s, files, {Deleted}) == 0
    ensures Count(s, files, {Deleted}) <= Count(s, files, {Reported, Deleted, DeleteFailed})
  {
    if files != [] {
      SweepConserves(s, files[..|files| - 1]);
    }
  }

  /** While no file changes its size under the collector, what it deleted is part of what it
      called collectable, in bytes as well. */
  lemma {:induction false} DeletedBytesAreCollectable(s: Settings, files: seq<Candidate>)
    requires forall c :: c in files && c.first.Some? && c.second.Some? ==> c.first.value.size == c.second.value.size
    ensures SumDeleted(s, files) == SumSizes(s, files, {Deleted}) <= SumSizes(s, files, {Reported, Deleted, DeleteFailed})
  {
    if files != [] {
      var n := |files| - 1;
      assert files[n] in files;
      assert forall c :: c in files[..n] ==> c in files;
      DeletedBytesAreCollectable(s, files[..n]);
    }
  }

  lemma NameIsNew(s: Settings, files: seq<Candidate>, n: nat)
    requires n < |files| && forall i, j :: 0 <= i < j < |files| ==> files[i].name != files[j].name
    ensures files[n].name !in DeletedNames(s, files[..n])
  {
    hide FateOf;
    forall c | c in files[..n] ensures c.name != files[n].name {
      var i :| 0 <= i < n && files[i] == c;
    }
  }

  /** Distinct files: the counter is the number of objects that disappeared. */
  lemma {:induction false} DeletedCount(s: Settings, files: seq<Candidate>)
    requires forall i, j :: 0 <= i < j < |files| ==> files[i].name != files[j].name
    ensures |DeletedNames(s, files)| == Count(s, files, {Deleted})
  {
    hide FateOf, DeletedNames;
    if files == [] {
      NothingSwept(s);
    } else {
      var n := |files| - 1;
      DeletedCount(s, files[..n]);
      DeletedStep(s, files, n);
      NameIsNew(s, files, n);
      assert files[..n + 1] == files;
    }
  }
}
