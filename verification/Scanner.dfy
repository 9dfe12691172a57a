/** Walking a directory tree with an explicit stack, against the recursive description of the
    order in which entries are reported. */
module Scanner {
  import opened TextOrder
  import Sorting

  type Name = string

  /** listable is false for a directory that cannot be read; Unreadable entries cannot be
      inspected; Special covers symbolic links and everything else that is not backed up. */
  datatype Node =
    | File(name: Name)
    | Dir(name: Name, listable: bool, entries: seq<Node>)
    | Special(name: Name)
    | Unreadable(name: Name)

  type DirNode = n: Node | n.Dir? witness Dir("", true, [])

  datatype Kind = FileItem | DirItem

  /** path is the list of names from the root, empty for the root itself. */
  datatype Found = Found(path: seq<Name>, kind: Kind)

  /** What was reported, and whether the walk came to its end. */
  datatype Walk = Walk(found: seq<Found>, ok: bool)

  const NOTHING := Walk([], true)

  function Then(a: Walk, b: Walk): Walk
  {
    if a.ok then Walk(a.found + b.found, b.ok) else a
  }

  lemma ThenAssociative(a: Walk, b: Walk, c: Walk)
    ensures Then(Then(a, b), c) == Then(a, Then(b, c))
    ensures Then(a, NOTHING) == a && Then(NOTHING, a) == a
  {
    assert a.found + b.found + c.found == a.found + (b.found + c.found);
  }

  // ---------------------------------------------------------------- sorting entries by name

  function InsertNode(s: seq<Node>, x: Node): seq<Node>
  {
    if s == [] then [x]
    else if TextLess(x.name, s[|s| - 1].name) then InsertNode(s[..|s| - 1], x) + [s[|s| - 1]]
    else s + [x]
  }

  function SortNodes(s: seq<Node>): seq<Node>
  {
    if s == [] then [] else InsertNode(SortNodes(s[..|s| - 1]), s[|s| - 1])
  }

  ghost predicate Sorted(s: seq<Node>)
  {
    forall i, j :: 0 <= i < j < |s| ==> !TextLess(s[j].name, s[i].name)
  }

  ghost predicate DistinctNames(s: seq<Node>)
  {
    forall i, j :: 0 <= i < j < |s| ==> s[i].name != s[j].name
  }

  lemma {:induction false} InsertPermutes(s: seq<Node>, x: Node)
    ensures multiset(InsertNode(s, x)) == multiset(s) + multiset{x}
  {
    hide TextLess;
    if s != [] && TextLess(x.name, s[|s| - 1].name) {
      Sorting.MultisetFront(s);
      InsertPermutes(s[..|s| - 1], x);
    }
  }

  lemma InsertMembers(s: seq<Node>, x: Node, e: Node)
    ensures e in InsertNode(s, x) <==> e in s || e == x
  {
    InsertPermutes(s, x);
    assert e in InsertNode(s, x) <==> e in multiset(InsertNode(s, x));
  }

  lemma {:induction false} InsertSorted(s: seq<Node>, x: Node)
    requires Sorted(s)
    ensures Sorted(InsertNode(s, x))
  {
    hide TextLess;
    if s == [] {
    } else if TextLess(x.name, s[|s| - 1].name) {
      var front, last := s[..|s| - 1], s[|s| - 1];
      InsertSorted(front, x);
      var t := InsertNode(front, x);
      TextTotal(x.name, last.name);
      forall i | 0 <= i < |t| ensures !TextLess(last.name, t[i].name) {
        InsertMembers(front, x, t[i]);
      }
    } else {
      forall i | 0 <= i < |s| ensures !TextLess(x.name, s[i].name) {
        if i < |s| - 1 {
          TextTransitive(s[i].name, s[|s| - 1].name, x.name);
        }
      }
    }
  }

  lemma {:induction false} SortNodesResult(s: seq<Node>)
    ensures multiset(SortNodes(s)) == multiset(s) && Sorted(SortNodes(s))
  {
    if s != [] {
      Sorting.MultisetFront(s);
      SortNodesResult(s[..|s| - 1]);
      InsertPermutes(SortNodes(s[..|s| - 1]), s[|s| - 1]);
      InsertSorted(SortNodes(s[..|s| - 1]), s[|s| - 1]);
    }
  }

  /** The elements of a sorted listing are those of the directory. */
  lemma SortedMembers(s: seq<Node>, e: Node)
    ensures e in SortNodes(s) <==> e in s
  {
    SortNodesResult(s);
    assert e in SortNodes(s) <==> e in multiset(SortNodes(s));
  }

  lemma SameLast(a: seq<Node>, b: seq<Node>)
    requires a != [] && Sorted(a) && Sorted(b) && multiset(a) == multiset(b) && DistinctNames(b)
    ensures |a| == |b| && a[|a| - 1] == b[|b| - 1]
  {
    hide TextLess;
    assert |multiset(a)| == |multiset(b)|;
    var n := |a| - 1;
    assert a[n] in multiset(b) && b[n] in multiset(a);
    var i :| 0 <= i < |b| && b[i] == a[n];
    var j :| 0 <= j < |a| && a[j] == b[n];
    TextTotal(a[n].name, b[n].name);
  }

  lemma {:induction false} SortedUnique(a: seq<Node>, b: seq<Node>)
    requires Sorted(a) && Sorted(b) && multiset(a) == multiset(b) && DistinctNames(b)
    ensures a == b
    decreases |a|
  {
    hide TextLess;
    assert |multiset(a)| == |multiset(b)|;
    if a != [] {
      var n := |a| - 1;
      SameLast(a, b);
      Sorting.MultisetFront(a);
      Sorting.MultisetFront(b);
      assert multiset(a[..n]) == multiset(b[..n]);
      SortedUnique(a[..n], b[..n]);
    }
  }

  lemma {:induction false} DistinctIsInvariant(a: seq<Node>, b: seq<Node>, i: nat, j: nat)
    requires multiset(a) == multiset(b) && DistinctNames(a) && i < j < |b|
    ensures b[i].name != b[j].name
  {
    if b[i].name == b[j].name {
      assert b[i] in multiset(a) && b[j] in multiset(a);
      assert b[i] == b[j];
      Twice(b, i, j);
      Once(a, b[i]);
    }
  }

  lemma Twice(b: seq<Node>, i: nat, j: nat)
    requires i < j < |b| && b[i] == b[j]
    ensures multiset(b)[b[i]] >= 2
  {
    assert b == b[..j] + [b[j]] + b[j + 1..];
    assert b[..j][i] == b[i];
    assert b[i] in multiset(b[..j]);
  }

  lemma {:induction false} Once(a: seq<Node>, x: Node)
    requires DistinctNames(a)
    ensures multiset(a)[x] <= 1
  {
    if a != [] {
      Sorting.MultisetFront(a);
      Once(a[..|a| - 1], x);
      if x == a[|a| - 1] && x in a[..|a| - 1] {
        assert false;
      }
    }
  }

  /** In sorted order the operating system's listing order does not matter. */
  lemma ListingOrderDoesNotMatter(a: seq<Node>, b: seq<Node>)
    requires multiset(a) == multiset(b) && DistinctNames(a)
    ensures SortNodes(a) == SortNodes(b)
  {
    SortNodesResult(a);
    SortNodesResult(b);
    forall i, j | 0 <= i < j < |SortNodes(b)| ensures SortNodes(b)[i].name != SortNodes(b)[j].name {
      DistinctIsInvariant(a, SortNodes(b), i, j);
    }
    SortedUnique(SortNodes(a), SortNodes(b));
  }

  // ---------------------------------------------------------------- the recursive description

  /** What one entry of a directory contributes to its listing. */
  function Report(e: Node, path: seq<Name>): Walk
  {
    match e
    case File(name) => Walk([Found(path + [name], FileItem)], true)
    case Dir(name, _, _) => Walk([Found(path + [name], DirItem)], true)
    case Special(_) => NOTHING
    case Unreadable(_) => Walk([], false)
  }

  function Listing(entries: seq<Node>, path: seq<Name>): Walk
  {
    if entries == [] then NOTHING
    else Then(Listing(entries[..|entries| - 1], path), Report(entries[|entries| - 1], path))
  }

  function Subdirs(entries: seq<Node>): (dirs: seq<DirNode>)
    ensures |dirs| <= |entries|
    ensures forall d :: d in dirs <==> d in entries && d.Dir?
  {
    if entries == [] then []
    else
      var front, last := Subdirs(entries[..|entries| - 1]), entries[|entries| - 1];
      assert entries == entries[..|entries| - 1] + [last];
      if last.Dir? then front + [last] else front
  }

  function Reversed(s: seq<DirNode>): (r: seq<DirNode>)
  {
    seq(|s|, i requires 0 <= i < |s| => s[|s| - 1 - i])
  }

  /** Entries of a directory as they are read: by name in deterministic mode. */
  function Entries(dir: DirNode, deterministic: bool): (es: seq<Node>)
    ensures |es| == |dir.entries| && forall e :: e in es <==> e in dir.entries
  {
    if deterministic then
      SortNodesResult(dir.entries);
      assert |multiset(SortNodes(dir.entries))| == |multiset(dir.entries)|;
      assert forall e :: e in SortNodes(dir.entries) <==> e in dir.entries by {
        forall e ensures e in SortNodes(dir.entries) <==> e in dir.entries { SortedMembers(dir.entries, e); }
      }
      SortNodes(dir.entries)
    else dir.entries
  }

  /** Subdirectories in the order of their turn: as listed, or last one first. */
  function Turns(dir: DirNode, deterministic: bool): (dirs: seq<DirNode>)
    ensures |dirs| <= |dir.entries| && forall d: DirNode :: d in dirs <==> d in dir.entries
  {
    var dirs := Subdirs(Entries(dir, deterministic));
    if deterministic then dirs
    else
      assert forall d :: d in dirs ==> d in Reversed(dirs) by {
        forall d | d in dirs ensures d in Reversed(dirs) {
          var i :| 0 <= i < |dirs| && dirs[i] == d;
          assert Reversed(dirs)[|dirs| - 1 - i] == d;
        }
      }
      Reversed(dirs)
  }

  /** Below a directory: all its entries, then each subdirectory in turn. */
  function Visit(dir: DirNode, path: seq<Name>, deterministic: bool): Walk
    decreases dir, |dir.entries| + 1
  {
    if !dir.listable then Walk([], false)
    else Then(Listing(Entries(dir, deterministic), path), VisitAll(dir, Turns(dir, deterministic), path, deterministic))
  }

  function VisitAll(parent: DirNode, dirs: seq<DirNode>, path: seq<Name>, deterministic: bool): Walk
    requires |dirs| <= |parent.entries| && forall d :: d in dirs ==> d in parent.entries
    decreases parent, |dirs|
  {
    if dirs == [] then NOTHING
    else
      var last := dirs[|dirs| - 1];
      assert last in dirs;
      Then(VisitAll(parent, dirs[..|dirs| - 1], path, deterministic), Visit(last, path + [last.name], deterministic))
  }

  /** The whole walk: the root, then everything below it. */
  function WholeWalk(root: DirNode, deterministic: bool): Walk
  {
    Then(Walk([Found([], DirItem)], true), Visit(root, [], deterministic))
  }

  // ---------------------------------------------------------------- the stack

  datatype Frame = Frame(dir: DirNode, path: seq<Name>)

  /** The work a stack stands for, its top first. */
  ghost function Pending(stack: seq<Frame>, deterministic: bool): Walk
  {
    if stack == [] then NOTHING
    else
      var top := stack[|stack| - 1];
      Then(Visit(top.dir, top.path, deterministic), Pending(stack[..|stack| - 1], deterministic))
  }

  function Frames(dirs: seq<DirNode>, path: seq<Name>): (fs: seq<Frame>)
  {
    seq(|dirs|, i requires 0 <= i < |dirs| => Frame(dirs[i], path + [dirs[i].name]))
  }

  /** Pushing the subdirectories last turn first leaves their visits in turn on top. */
  lemma {:induction false} PushedTurns(stack: seq<Frame>, parent: DirNode, turns: seq<DirNode>, path: seq<Name>, deterministic: bool)
    requires |turns| <= |parent.entries| && forall d :: d in turns ==> d in parent.entries
    ensures Pending(stack + Frames(Reversed(turns), path), deterministic)
            == Then(VisitAll(parent, turns, path, deterministic), Pending(stack, deterministic))
    decreases |turns|
  {
    hide Visit, Then;
    if turns == [] {
      assert stack + Frames(Reversed(turns), path) == stack;
      ThenAssociative(Pending(stack, deterministic), NOTHING, NOTHING);
    } else {
      var front, last := turns[..|turns| - 1], turns[|turns| - 1];
      var frame := Frame(last, path + [last.name]);
      assert stack + Frames(Reversed(turns), path) == (stack + [frame]) + Frames(Reversed(front), path);
      PushedTurns(stack + [frame], parent, front, path, deterministic);
      assert (stack + [frame])[..|stack|] == stack;
      ThenAssociative(VisitAll(parent, front, path, deterministic), Visit(last, frame.path, deterministic), Pending(stack, deterministic));
    }
  }

  // ---------------------------------------------------------------- termination

  ghost function NodeSize(n: Node): nat
    decreases n
  {
    if n.Dir? then 1 + TotalNodes(n.entries) else 1
  }

  ghost function TotalNodes(s: seq<Node>): nat
    decreases s
  {
    if s == [] then 0 else TotalNodes(s[..|s| - 1]) + NodeSize(s[|s| - 1])
  }

  lemma {:induction false} InsertSize(s: seq<Node>, x: Node)
    ensures TotalNodes(InsertNode(s, x)) == TotalNodes(s) + NodeSize(x)
  {
    hide TextLess, NodeSize;
    if s != [] && TextLess(x.name, s[|s| - 1].name) {
      InsertSize(s[..|s| - 1], x);
    }
  }

  lemma {:induction false} SortSize(s: seq<Node>)
    ensures TotalNodes(SortNodes(s)) == TotalNodes(s)
  {
    hide NodeSize;
    if s != [] {
      SortSize(s[..|s| - 1]);
      InsertSize(SortNodes(s[..|s| - 1]), s[|s| - 1]);
    }
  }

  lemma {:induction false} SubdirsSize(s: seq<Node>)
    ensures TotalNodes(Subdirs(s)) <= TotalNodes(s)
  {
    hide NodeSize;
    if s != [] {
      var front, last := s[..|s| - 1], s[|s| - 1];
      SubdirsSize(front);
      if last.Dir? {
        assert (Subdirs(front) + [last])[..|Subdirs(front)|] == Subdirs(front);
      }
    }
  }

  ghost function StackSize(stack: seq<Frame>): nat
  {
    if stack == [] then 0 else StackSize(stack[..|stack| - 1]) + NodeSize(stack[|stack| - 1].dir)
  }

  lemma {:induction false} PushSize(stack: seq<Frame>, dirs: seq<DirNode>, path: seq<Name>)
    ensures StackSize(stack + Frames(dirs, path)) == StackSize(stack) + TotalNodes(dirs)
    decreases |dirs|
  {
    hide NodeSize;
    if dirs == [] {
      assert stack + Frames(dirs, path) == stack;
    } else {
      var n := |dirs| - 1;
      var all := stack + Frames(dirs, path);
      assert all[..|all| - 1] == stack + Frames(dirs[..n], path);
      PushSize(stack, dirs[..n], path);
    }
  }

  lemma {:induction false} PushReversedSize(stack: seq<Frame>, dirs: seq<DirNode>, path: seq<Name>)
    ensures StackSize(stack + Frames(Reversed(dirs), path)) == StackSize(stack) + TotalNodes(dirs)
    decreases |dirs|
  {
    hide NodeSize;
    if dirs == [] {
      assert stack + Frames(Reversed(dirs), path) == stack;
    } else {
      var front, last := dirs[..|dirs| - 1], dirs[|dirs| - 1];
      var frame := Frame(last, path + [last.name]);
      assert stack + Frames(Reversed(dirs), path) == (stack + [frame]) + Frames(Reversed(front), path);
      PushReversedSize(stack + [frame], front, path);
      assert (stack + [frame])[..|stack|] == stack;
    }
  }

  /** Replacing a directory by its subdirectories makes the stack smaller. */
  lemma StackShrinks(stack: seq<Frame>, dir: DirNode, path: seq<Name>, deterministic: bool)
    ensures var dirs := Subdirs(Entries(dir, deterministic));
            StackSize(stack + Frames(if deterministic then Reversed(dirs) else dirs, path)) < StackSize(stack) + NodeSize(dir)
  {
    var dirs := Subdirs(Entries(dir, deterministic));
    SubdirsSize(Entries(dir, deterministic));
    SortSize(dir.entries);
    PushSize(stack, dirs, path);
    PushReversedSize(stack, dirs, path);
  }

  // ---------------------------------------------------------------- the walk

  lemma {:induction false} ListingStops(entries: seq<Node>, path: seq<Name>, n: nat)
    requires n <= |entries| && !Listing(entries[..n], path).ok
    ensures Listing(entries, path) == Listing(entries[..n], path)
    decreases |entries|
  {
    if n == |entries| {
      assert entries[..n] == entries;
    } else {
      assert entries[..|entries| - 1][..n] == entries[..n];
      ListingStops(entries[..|entries| - 1], path, n);
    }
  }

  /** One directory: reports its entries and collects its subdirectories. */
  method ListDirectory(entries: seq<Node>, path: seq<Name>) returns (out: Walk, dirs: seq<DirNode>)
    ensures out == Listing(entries, path)
    ensures out.ok ==> dirs == Subdirs(entries)
  {
    var found: seq<Found> := [];
    dirs := [];
    for i := 0 to |entries|
      invariant Listing(entries[..i], path) == Walk(found, true) && dirs == Subdirs(entries[..i])
    {
      assert entries[..i + 1][..i] == entries[..i];
      match entries[i]
      case File(name) => found := found + [Found(path + [name], FileItem)];
      case Dir(name, _, _) =>
        found := found + [Found(path + [name], DirItem)];
        dirs := dirs + [entries[i]];
      case Special(_) =>
      case Unreadable(_) =>
        ListingStops(entries, path, i + 1);
        return Walk(found, false), dirs;
    }
    assert entries[..|entries|] == entries;
    out := Walk(found, true);
  }

  lemma StepOfWalk(found: seq<Found>, rest: seq<Frame>, top: Frame, deterministic: bool)
    requires top.dir.listable
    ensures var dirs := Subdirs(Entries(top.dir, deterministic));
            var pushed := rest + Frames(if deterministic then Reversed(dirs) else dirs, top.path);
            Then(Walk(found, true), Pending(rest + [top], deterministic))
            == Then(Then(Walk(found, true), Listing(Entries(top.dir, deterministic), top.path)), Pending(pushed, deterministic))
  {
    hide Then, Listing, VisitAll;
    var dirs, turns := Subdirs(Entries(top.dir, deterministic)), Turns(top.dir, deterministic);
    assert (if deterministic then Reversed(dirs) else dirs) == Reversed(turns);
    PushedTurns(rest, top.dir, turns, top.path, deterministic);
    assert (rest + [top])[..|rest|] == rest;
    var listing := Listing(Entries(top.dir, deterministic), top.path);
    var below := VisitAll(top.dir, turns, top.path, deterministic);
    ThenAssociative(listing, below, Pending(rest, deterministic));
    ThenAssociative(Walk(found, true), listing, Then(below, Pending(rest, deterministic)));
  }

  /** The stack-driven walk reports exactly what the recursive description says, in its order,
      and stops where that stops. */
  method WalkTree(root: DirNode, deterministic: bool) returns (out: Walk)
    ensures out == WholeWalk(root, deterministic)
  {
    hide Visit, Listing, Subdirs, Entries, NodeSize, Frames;
    var found := [Found([], DirItem)];
    var stack := [Frame(root, [])];
    assert stack[..0] == [];
    ThenAssociative(Visit(root, [], deterministic), NOTHING, NOTHING);
    while stack != []
      invariant Then(Walk(found, true), Pending(stack, deterministic)) == WholeWalk(root, deterministic)
      decreases StackSize(stack)
    {
      var top, rest := stack[|stack| - 1], stack[..|stack| - 1];
      assert stack == rest + [top];
      if !top.dir.listable {
        Unlistable(top, deterministic);
        return Walk(found, false);
      }
      StepOfWalk(found, rest, top, deterministic);
      StackShrinks(rest, top.dir, top.path, deterministic);
      var entries := Entries(top.dir, deterministic);
      var listing, dirs := ListDirectory(entries, top.path);
      found := found + listing.found;
      if !listing.ok {
        return Walk(found, false);
      }
      stack := rest + Frames(if deterministic then Reversed(dirs) else dirs, top.path);
    }
    ThenAssociative(Walk(found, true), NOTHING, NOTHING);
    out := Walk(found, true);
  }

  lemma Unlistable(top: Frame, deterministic: bool)
    requires !top.dir.listable
    ensures Visit(top.dir, top.path, deterministic) == Walk([], false)
  {
  }
}
