/** What the walk of a tree guarantees: every file and directory exactly once, nothing else,
    and every directory before what it contains. */
module TreeWalk {
  import opened Prelude
  import opened Scanner

  /** Names are unique within each directory. */
  ghost predicate WellNamed(n: Node)
    decreases n
  {
    n.Dir? ==> DistinctNames(n.entries) && forall e :: e in n.entries ==> WellNamed(e)
  }

  ghost predicate OfKind(e: Node, kind: Kind)
  {
    if kind == FileItem then e.File? else e.Dir?
  }

  /** A file or directory lies at this relative path. */
  ghost predicate Lies(dir: Node, rel: seq<Name>, kind: Kind)
    decreases |rel|
  {
    && rel != [] && dir.Dir?
    && exists e :: e in dir.entries && e.name == rel[0] && if |rel| == 1 then OfKind(e, kind) else Lies(e, rel[1..], kind)
  }

  ghost predicate Under(dir: Node, path: seq<Name>, f: Found)
  {
    |path| < |f.path| && f.path[..|path|] == path && Lies(dir, f.path[|path|..], f.kind)
  }

  // ---------------------------------------------------------------- listings

  lemma {:induction false} ListingMembers(entries: seq<Node>, path: seq<Name>, f: Found)
    requires f in Listing(entries, path).found
    ensures exists e :: e in entries && f.path == path + [e.name] && OfKind(e, f.kind)
  {
    var front, last := entries[..|entries| - 1], entries[|entries| - 1];
    assert last in entries;
    if f in Listing(front, path).found {
      ListingMembers(front, path, f);
      assert forall e :: e in front ==> e in entries;
    } else {
      assert f in Report(last, path).found;
    }
  }

  lemma {:induction false} ListingComplete(entries: seq<Node>, path: seq<Name>, e: Node, kind: Kind)
    requires Listing(entries, path).ok && e in entries && OfKind(e, kind)
    ensures Found(path + [e.name], kind) in Listing(entries, path).found
  {
    var front, last := entries[..|entries| - 1], entries[|entries| - 1];
    assert entries == front + [last];
    if e in front {
      ListingComplete(front, path, e, kind);
    } else {
      assert Found(path + [e.name], kind) in Report(last, path).found;
    }
  }

  lemma {:induction false} ListingDistinct(entries: seq<Node>, path: seq<Name>, i: nat, j: nat)
    requires DistinctNames(entries) && i < j < |Listing(entries, path).found|
    ensures Listing(entries, path).found[i].path != Listing(entries, path).found[j].path
  {
    var n := |entries| - 1;
    var front, last := entries[..n], entries[n];
    var a, b := Listing(front, path), Report(last, path);
    if j < |a.found| {
      ListingDistinct(front, path, i, j);
    } else {
      assert a.found[i] in a.found && b.found[j - |a.found|].path == path + [last.name];
      ListingMembers(front, path, a.found[i]);
      var e :| e in front && a.found[i].path == path + [e.name];
      var k :| 0 <= k < n && front[k] == e;
      assert entries[k].name != entries[n].name;
      assert (path + [e.name])[|path|] != (path + [last.name])[|path|];
    }
  }

  // ---------------------------------------------------------------- distinct names carry over

  lemma EntriesDistinct(dir: DirNode, deterministic: bool)
    requires DistinctNames(dir.entries)
    ensures DistinctNames(Entries(dir, deterministic))
  {
    if deterministic {
      SortNodesResult(dir.entries);
      var s := SortNodes(dir.entries);
      forall i, j | 0 <= i < j < |s| ensures s[i].name != s[j].name {
        DistinctIsInvariant(dir.entries, s, i, j);
      }
    }
  }

  lemma {:induction false} SubdirsDistinct(entries: seq<Node>)
    requires DistinctNames(entries)
    ensures DistinctNames(Subdirs(entries))
  {
    if entries != [] {
      var n := |entries| - 1;
      var front := entries[..n];
      SubdirsDistinct(front);
      var dirs := Subdirs(front);
      forall i | 0 <= i < |dirs| ensures dirs[i].name != entries[n].name {
        NameTaken(entries, dirs[i]);
      }
    }
  }

  lemma NameTaken(entries: seq<Node>, e: Node)
    requires entries != [] && DistinctNames(entries) && e in entries[..|entries| - 1]
    ensures e.name != entries[|entries| - 1].name
  {
    var k :| 0 <= k < |entries| - 1 && entries[k] == e;
  }

  lemma TurnsDistinct(dir: DirNode, deterministic: bool)
    requires DistinctNames(dir.entries)
    ensures DistinctNames(Turns(dir, deterministic))
  {
    EntriesDistinct(dir, deterministic);
    SubdirsDistinct(Entries(dir, deterministic));
  }

  // ---------------------------------------------------------------- one level of the walk

  lemma VisitUnfold(dir: DirNode, path: seq<Name>, deterministic: bool)
    ensures Visit(dir, path, deterministic) ==
            if !dir.listable then Walk([], false)
            else Then(Listing(Entries(dir, deterministic), path), VisitAll(dir, Turns(dir, deterministic), path, deterministic))
  {
  }

  lemma VisitAllUnfold(parent: DirNode, dirs: seq<DirNode>, path: seq<Name>, deterministic: bool)
    requires |dirs| <= |parent.entries| && forall d :: d in dirs ==> d in parent.entries
    ensures VisitAll(parent, dirs, path, deterministic) ==
            if dirs == [] then NOTHING
            else
              var last := dirs[|dirs| - 1];
              Then(VisitAll(parent, dirs[..|dirs| - 1], path, deterministic), Visit(last, path + [last.name], deterministic))
  {
  }

  // ---------------------------------------------------------------- only what is there

  lemma LiesDeeper(dir: Node, d: Node, path: seq<Name>, f: Found)
    requires dir.Dir? && d in dir.entries && Under(d, path + [d.name], f)
    ensures Under(dir, path, f) && f.path[|path|] == d.name && |f.path| >= |path| + 2
  {
    var rel := f.path[|path|..];
    assert (path + [d.name])[..|path|] == path;
    assert f.path[..|path| + 1][..|path|] == f.path[..|path|];
    assert f.path[|path|] == (path + [d.name])[|path|];
    assert rel[1..] == f.path[|path + [d.name]|..];
  }

  lemma {:induction false} VisitSound(dir: DirNode, path: seq<Name>, deterministic: bool, f: Found)
    requires f in Visit(dir, path, deterministic).found
    ensures Under(dir, path, f)
    decreases dir, |dir.entries| + 1
  {
    hide Visit, VisitAll, Listing, Entries, Turns, Subdirs;
    VisitUnfold(dir, path, deterministic);
    var es := Entries(dir, deterministic);
    if f in Listing(es, path).found {
      ListingMembers(es, path, f);
      var e :| e in es && f.path == path + [e.name] && OfKind(e, f.kind);
      assert f.path[|path|..] == [e.name];
    } else {
      var d := VisitAllSound(dir, Turns(dir, deterministic), path, deterministic, f);
      LiesDeeper(dir, d, path, f);
    }
  }

  lemma {:induction false} VisitAllSound(parent: DirNode, dirs: seq<DirNode>, path: seq<Name>, deterministic: bool, f: Found)
    returns (d: DirNode)
    requires |dirs| <= |parent.entries| && forall d :: d in dirs ==> d in parent.entries
    requires f in VisitAll(parent, dirs, path, deterministic).found
    ensures d in dirs && Under(d, path + [d.name], f)
    decreases parent, |dirs|
  {
    hide Visit, VisitAll, Listing, Entries, Turns, Subdirs, Lies;
    VisitAllUnfold(parent, dirs, path, deterministic);
    var front, last := dirs[..|dirs| - 1], dirs[|dirs| - 1];
    assert last in dirs;
    if f in VisitAll(parent, front, path, deterministic).found {
      d := VisitAllSound(parent, front, path, deterministic, f);
    } else {
      VisitSound(last, path + [last.name], deterministic, f);
      d := last;
    }
  }

  // ---------------------------------------------------------------- all of it

  lemma {:induction false} VisitComplete(dir: DirNode, path: seq<Name>, deterministic: bool, rel: seq<Name>, kind: Kind)
    requires Visit(dir, path, deterministic).ok && Lies(dir, rel, kind)
    ensures Found(path + rel, kind) in Visit(dir, path, deterministic).found
    decreases dir, |dir.entries| + 1
  {
    hide Visit, VisitAll, Listing, Entries, Turns, Subdirs;
    VisitUnfold(dir, path, deterministic);
    var es := Entries(dir, deterministic);
    var e :| e in dir.entries && e.name == rel[0] && if |rel| == 1 then OfKind(e, kind) else Lies(e, rel[1..], kind);
    if |rel| == 1 {
      ListingComplete(es, path, e, kind);
      assert rel == [e.name];
    } else {
      VisitAllComplete(dir, Turns(dir, deterministic), path, deterministic, e, rel[1..], kind);
      assert path + rel == path + [e.name] + rel[1..];
    }
  }

  lemma {:induction false} VisitAllComplete(parent: DirNode, dirs: seq<DirNode>, path: seq<Name>, deterministic: bool, d: DirNode, rel: seq<Name>, kind: Kind)
    requires |dirs| <= |parent.entries| && forall d :: d in dirs ==> d in parent.entries
    requires VisitAll(parent, dirs, path, deterministic).ok && d in dirs && Lies(d, rel, kind)
    ensures Found(path + [d.name] + rel, kind) in VisitAll(parent, dirs, path, deterministic).found
    decreases parent, |dirs|
  {
    hide Visit, VisitAll, Listing, Entries, Turns, Subdirs, Lies;
    VisitAllUnfold(parent, dirs, path, deterministic);
    var front, last := dirs[..|dirs| - 1], dirs[|dirs| - 1];
    assert last in dirs && dirs == front + [last];
    if d in front {
      VisitAllComplete(parent, front, path, deterministic, d, rel, kind);
    } else {
      VisitComplete(last, path + [last.name], deterministic, rel, kind);
    }
  }

  // ---------------------------------------------------------------- once

  lemma {:induction false} VisitDistinct(dir: DirNode, path: seq<Name>, deterministic: bool, i: nat, j: nat)
    requires WellNamed(dir) && i < j < |Visit(dir, path, deterministic).found|
    ensures Visit(dir, path, deterministic).found[i].path != Visit(dir, path, deterministic).found[j].path
    decreases dir, |dir.entries| + 1
  {
    hide Visit, VisitAll, Listing, Entries, Turns, Subdirs, Lies;
    VisitUnfold(dir, path, deterministic);
    var es, turns := Entries(dir, deterministic), Turns(dir, deterministic);
    var a, b := Listing(es, path), VisitAll(dir, turns, path, deterministic);
    EntriesDistinct(dir, deterministic);
    TurnsDistinct(dir, deterministic);
    if j < |a.found| {
      ListingDistinct(es, path, i, j);
    } else if i >= |a.found| {
      VisitAllDistinct(dir, turns, path, deterministic, i - |a.found|, j - |a.found|);
    } else {
      assert a.found[i] in a.found && b.found[j - |a.found|] in b.found;
      ListingMembers(es, path, a.found[i]);
      var d := VisitAllSound(dir, turns, path, deterministic, b.found[j - |a.found|]);
    }
  }

  lemma {:induction false} VisitAllDistinct(parent: DirNode, dirs: seq<DirNode>, path: seq<Name>, deterministic: bool, i: nat, j: nat)
    requires |dirs| <= |parent.entries| && forall d :: d in dirs ==> d in parent.entries
    requires DistinctNames(dirs) && forall d :: d in dirs ==> WellNamed(d)
    requires i < j < |VisitAll(parent, dirs, path, deterministic).found|
    ensures VisitAll(parent, dirs, path, deterministic).found[i].path != VisitAll(parent, dirs, path, deterministic).found[j].path
    decreases parent, |dirs|
  {
    hide Visit, VisitAll, Listing, Entries, Turns, Subdirs, Lies, WellNamed;
    VisitAllUnfold(parent, dirs, path, deterministic);
    var n := |dirs| - 1;
    var front, last := dirs[..n], dirs[n];
    assert last in dirs;
    var a, b := VisitAll(parent, front, path, deterministic), Visit(last, path + [last.name], deterministic);
    if j < |a.found| {
      VisitAllDistinct(parent, front, path, deterministic, i, j);
    } else if i >= |a.found| {
      VisitDistinct(last, path + [last.name], deterministic, i - |a.found|, j - |a.found|);
    } else {
      var f, g := a.found[i], b.found[j - |a.found|];
      var d := VisitAllSound(parent, front, path, deterministic, f);
      VisitSound(last, path + [last.name], deterministic, g);
      LiesDeeper(parent, d, path, f);
      LiesDeeper(parent, last, path, g);
      var k :| 0 <= k < n && front[k] == d;
      assert dirs[k].name != dirs[n].name;
    }
  }

  // ---------------------------------------------------------------- parents first

  lemma {:induction false} VisitParents(dir: DirNode, path: seq<Name>, deterministic: bool, i: nat) returns (j: nat)
    requires i < |Visit(dir, path, deterministic).found| && |Visit(dir, path, deterministic).found[i].path| > |path| + 1
    ensures var p := Visit(dir, path, deterministic).found[i].path;
            j < i && Visit(dir, path, deterministic).found[j] == Found(p[..|p| - 1], DirItem)
    decreases dir, |dir.entries| + 1
  {
    hide Visit, VisitAll, Listing, Entries, Turns, Subdirs, Lies;
    VisitUnfold(dir, path, deterministic);
    var es, turns := Entries(dir, deterministic), Turns(dir, deterministic);
    var a, b := Listing(es, path), VisitAll(dir, turns, path, deterministic);
    if i < |a.found| {
      assert a.found[i] in a.found;
      ListingMembers(es, path, a.found[i]);
      assert false;
    } else {
      var k, d := VisitAllParents(dir, turns, path, deterministic, i - |a.found|);
      if k.Some? {
        j := |a.found| + k.value;
      } else {
        ListingComplete(es, path, d, DirItem);
        var m :| 0 <= m < |a.found| && a.found[m] == Found(path + [d.name], DirItem);
        j := m;
      }
    }
  }

  lemma {:induction false} VisitAllParents(parent: DirNode, dirs: seq<DirNode>, path: seq<Name>, deterministic: bool, i: nat)
    returns (j: Option<nat>, d: DirNode)
    requires |dirs| <= |parent.entries| && forall d :: d in dirs ==> d in parent.entries
    requires i < |VisitAll(parent, dirs, path, deterministic).found|
    ensures var p := VisitAll(parent, dirs, path, deterministic).found[i].path;
            && |p| > 0 && d in dirs
            && (j.Some? ==> j.value < i && VisitAll(parent, dirs, path, deterministic).found[j.value] == Found(p[..|p| - 1], DirItem))
            && (j.None? ==> p[..|p| - 1] == path + [d.name])
    decreases parent, |dirs|
  {
    hide Visit, VisitAll, Listing, Entries, Turns, Subdirs, Lies;
    VisitAllUnfold(parent, dirs, path, deterministic);
    var front, last := dirs[..|dirs| - 1], dirs[|dirs| - 1];
    assert last in dirs;
    var a, b := VisitAll(parent, front, path, deterministic), Visit(last, path + [last.name], deterministic);
    if i < |a.found| {
      j, d := VisitAllParents(parent, front, path, deterministic, i);
    } else {
      var f := b.found[i - |a.found|];
      VisitSound(last, path + [last.name], deterministic, f);
      d := last;
      if |f.path| > |path| + 2 {
        var k := VisitParents(last, path + [last.name], deterministic, i - |a.found|);
        j := Some(|a.found| + k);
      } else {
        j := None;
        assert f.path[..|f.path| - 1] == path + [last.name];
      }
    }
  }

  // ---------------------------------------------------------------- main results

  /** A walk that comes to its end reports a path with a kind exactly if it is the root or a
      file or directory of that kind lies there. */
  lemma WalkReportsExactly(root: DirNode, deterministic: bool, f: Found)
    requires WholeWalk(root, deterministic).ok
    ensures f in WholeWalk(root, deterministic).found <==> f == Found([], DirItem) || Lies(root, f.path, f.kind)
  {
    hide Visit, Lies;
    var below := Visit(root, [], deterministic);
    if f in below.found {
      VisitSound(root, [], deterministic, f);
      assert f.path[0..] == f.path;
    }
    if Lies(root, f.path, f.kind) {
      VisitComplete(root, [], deterministic, f.path, f.kind);
      assert [] + f.path == f.path;
    }
  }

  /** No path is reported twice, even by a walk that stops early. */
  lemma WalkReportsOnce(root: DirNode, deterministic: bool, i: nat, j: nat)
    requires WellNamed(root) && i < j < |WholeWalk(root, deterministic).found|
    ensures WholeWalk(root, deterministic).found[i].path != WholeWalk(root, deterministic).found[j].path
  {
    hide Visit, Lies;
    var below := Visit(root, [], deterministic);
    if i == 0 {
      assert below.found[j - 1] in below.found;
      VisitSound(root, [], deterministic, below.found[j - 1]);
    } else {
      VisitDistinct(root, [], deterministic, i - 1, j - 1);
    }
  }

  /** Whatever is reported comes after its directory. */
  lemma ParentsComeFirst(root: DirNode, deterministic: bool, i: nat) returns (j: nat)
    requires 0 < i < |WholeWalk(root, deterministic).found|
    ensures var w := WholeWalk(root, deterministic);
            && w.found[i].path != []
            && j < i && w.found[j] == Found(w.found[i].path[..|w.found[i].path| - 1], DirItem)
  {
    hide Visit, Lies;
    var below := Visit(root, [], deterministic);
    assert below.found[i - 1] in below.found;
    VisitSound(root, [], deterministic, below.found[i - 1]);
    if |below.found[i - 1].path| == 1 {
      j := 0;
    } else {
      var k := VisitParents(root, [], deterministic, i - 1);
      j := k + 1;
    }
  }
}
