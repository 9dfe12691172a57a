/** Rendezvous placement: the bounded-heap selection of the k best nodes, the ranking it
    computes, and what happens to a placement when the cluster changes. */
module Hrw {
  import opened Prelude
  import opened Sorting
  import opened TextOrder

  type NodeId = string

  /** A scored candidate. Scores are the big-endian reading of a digest, so any natural. */
  datatype Item = Item(score: nat, id: NodeId)

  // ---------------------------------------------------------------- the order on candidates

  /** Tuple order (score, id). */
  predicate Below(a: Item, b: Item)
  {
    a.score < b.score || (a.score == b.score && TextLess(a.id, b.id))
  }

  lemma BelowTotal(a: Item, b: Item)
    ensures !(Below(a, b) && Below(b, a))
    ensures a == b <==> !Below(a, b) && !Below(b, a)
  {
    TextTotal(a.id, b.id);
  }

  lemma BelowTransitive(a: Item, b: Item, c: Item)
    requires !Below(b, a) && !Below(c, b)
    ensures !Below(c, a)
  {
    if a.score == c.score {
      TextTransitive(a.id, b.id, c.id);
    }
  }

  // ---------------------------------------------------------------- the ranking

  /** Best first. */
  ghost predicate Ranked(s: seq<Item>)
  {
    forall i, j :: 0 <= i < j < |s| ==> !Below(s[i], s[j])
  }

  function Insert(s: seq<Item>, x: Item): seq<Item>
  {
    if s == [] then [x]
    else if Below(s[0], x) then [x] + s
    else [s[0]] + Insert(s[1..], x)
  }

  /** Sorting all candidates in descending order. */
  function Rank(s: seq<Item>): seq<Item>
  {
    if s == [] then [] else Insert(Rank(s[..|s| - 1]), s[|s| - 1])
  }

  function Take(s: seq<Item>, k: nat): seq<Item>
  {
    if |s| <= k then s else s[..k]
  }

  /** Sort descending, take k. */
  function TopK(s: seq<Item>, k: nat): seq<Item>
  {
    Take(Rank(s), k)
  }

  lemma {:induction false} InsertRanked(s: seq<Item>, x: Item)
    requires Ranked(s)
    ensures Ranked(Insert(s, x))
    ensures multiset(Insert(s, x)) == multiset(s) + multiset{x}
  {
    hide Below;
    if s == [] {
    } else if Below(s[0], x) {
      var r := [x] + s;
      forall j | 0 < j < |r| ensures !Below(x, r[j]) {
        BelowTotal(s[0], x);
        if j > 1 {
          BelowTransitive(s[j - 1], s[0], x);
        }
      }
      assert forall i, j :: 0 < i < j < |r| ==> r[i] == s[i - 1] && r[j] == s[j - 1];
    } else {
      InsertRanked(s[1..], x);
      var t := Insert(s[1..], x);
      assert s == [s[0]] + s[1..];
      forall j | 0 <= j < |t| ensures !Below(s[0], t[j]) {
        assert t[j] in multiset(t);
        assert t[j] == x || t[j] in s[1..];
      }
      PrependRanked(s[0], t);
    }
  }

  lemma PrependRanked(x: Item, t: seq<Item>)
    requires Ranked(t) && forall j :: 0 <= j < |t| ==> !Below(x, t[j])
    ensures Ranked([x] + t)
  {
    var r := [x] + t;
    assert forall i, j :: 0 < i < j < |r| ==> r[i] == t[i - 1] && r[j] == t[j - 1];
  }

  lemma {:induction false} RankSorts(s: seq<Item>)
    ensures Ranked(Rank(s)) && multiset(Rank(s)) == multiset(s) && |Rank(s)| == |s|
  {
    hide Below, Insert, Ranked;
    if s == [] {
      NothingRanked();
    } else {
      var n := |s| - 1;
      RankSorts(s[..n]);
      InsertRanked(Rank(s[..n]), s[n]);
      assert s == s[..n] + [s[n]];
    }
    SameLength(Rank(s), s);
  }

  lemma NothingRanked()
    ensures Ranked([])
  {
  }

  lemma RankingHead(a: seq<Item>, b: seq<Item>)
    requires a != [] && b != [] && Ranked(a) && Ranked(b) && multiset(a) == multiset(b)
    ensures a[0] == b[0]
  {
    hide Below;
    assert a[0] in multiset(b) && b[0] in multiset(a);
    var i :| 0 <= i < |b| && b[i] == a[0];
    var j :| 0 <= j < |a| && a[j] == b[0];
    BelowTotal(a[0], b[0]);
  }

  lemma MultisetTail(a: seq<Item>)
    requires a != []
    ensures multiset(a[1..]) == multiset(a) - multiset{a[0]}
  {
    assert a == [a[0]] + a[1..];
  }

  /** There is only one way to rank a collection. */
  lemma {:induction false} RankingUnique(a: seq<Item>, b: seq<Item>)
    requires Ranked(a) && Ranked(b) && multiset(a) == multiset(b)
    ensures a == b
  {
    hide Below;
    SameLength(a, b);
    if a != [] {
      RankingHead(a, b);
      MultisetTail(a);
      MultisetTail(b);
      RankingUnique(a[1..], b[1..]);
      assert a == [a[0]] + a[1..] && b == [b[0]] + b[1..];
    }
  }

  // ---------------------------------------------------------------- the bounded heap

  /** What a binary heap kept as a list promises about its first cell. */
  ghost predicate LeastFirst(heap: seq<Item>)
  {
    forall i :: 0 <= i < |heap| ==> !Below(heap[i], heap[0])
  }

  method HeapPush(heap: seq<Item>, x: Item) returns (r: seq<Item>)
    requires LeastFirst(heap)
    ensures LeastFirst(r) && multiset(r) == multiset(heap) + multiset{x}
  {
    if heap == [] || Below(x, heap[0]) {
      r := [x] + heap;
      forall i | 0 <= i < |r| ensures !Below(r[i], r[0]) {
        BelowTotal(x, r[i]);
        if i > 0 {
          BelowTotal(x, heap[0]);
          BelowTransitive(x, heap[0], r[i]);
        }
      }
    } else {
      r := heap + [x];
    }
  }

  /** Pops the least element and pushes x. */
  method HeapReplace(heap: seq<Item>, x: Item) returns (r: seq<Item>)
    requires heap != [] && LeastFirst(heap)
    ensures LeastFirst(r) && multiset(r) == multiset(heap) - multiset{heap[0]} + multiset{x}
  {
    assert heap == [heap[0]] + heap[1..];
    r := [];
    var rest := heap[1..] + [x];
    for i := 0 to |rest|
      invariant LeastFirst(r) && multiset(r) == multiset(rest[..i])
    {
      assert rest[..i + 1] == rest[..i] + [rest[i]];
      r := HeapPush(r, rest[i]);
    }
    assert rest[..|rest|] == rest;
  }

  /** Only the k best of the ranked prefix matter when one more candidate arrives. */
  lemma {:induction false} TakeInsert(s: seq<Item>, x: Item, k: nat)
    ensures Take(Insert(s, x), k) == Take(Insert(Take(s, k), x), k)
    decreases s
  {
    hide Below;
    if k > 0 && s != [] && !Below(s[0], x) {
      TakeInsert(s[1..], x, k - 1);
      assert Take(s, k)[1..] == Take(s[1..], k - 1);
      assert Take([s[0]] + Insert(s[1..], x), k) == [s[0]] + Take(Insert(s[1..], x), k - 1);
      assert Take([s[0]] + Insert(Take(s[1..], k - 1), x), k)
          == [s[0]] + Take(Insert(Take(s[1..], k - 1), x), k - 1);
    } else if k > 0 && s != [] {
      assert Take([x] + s, k) == Take([x] + Take(s, k), k);
    }
  }

  /** A candidate no better than the last of a ranking goes to its end. */
  lemma {:induction false} InsertLast(s: seq<Item>, x: Item)
    requires Ranked(s) && (s != [] ==> !Below(s[|s| - 1], x))
    ensures Insert(s, x) == s + [x]
  {
    if s != [] {
      BelowTotal(s[0], s[0]);
      BelowTransitive(x, s[|s| - 1], s[0]);
      InsertLast(s[1..], x);
    }
  }

  /** A better candidate pushes the last one out. */
  lemma {:induction false} InsertBeforeLast(s: seq<Item>, x: Item)
    requires s != [] && Ranked(s) && Below(s[|s| - 1], x)
    ensures Insert(s, x) == Insert(s[..|s| - 1], x) + [s[|s| - 1]]
  {
    if !Below(s[0], x) {
      assert |s| > 1;
      InsertBeforeLast(s[1..], x);
      assert s[1..][..|s| - 2] == s[..|s| - 1][1..];
    } else {
      assert s == s[..|s| - 1] + [s[|s| - 1]];
    }
  }

  lemma InsertIntoFull(t: seq<Item>, x: Item)
    requires t != [] && Ranked(t)
    ensures Below(t[|t| - 1], x) ==>
              multiset(Take(Insert(t, x), |t|)) == multiset(t) - multiset{t[|t| - 1]} + multiset{x}
    ensures !Below(t[|t| - 1], x) ==> Take(Insert(t, x), |t|) == t
  {
    hide Below;
    var n := |t| - 1;
    assert t == t[..n] + [t[n]];
    if Below(t[n], x) {
      InsertBeforeLast(t, x);
      InsertRanked(t[..n], x);
      SameLength(Insert(t[..n], x), t[..n] + [x]);
      assert Take(Insert(t, x), |t|) == Insert(t[..n], x);
    } else {
      InsertLast(t, x);
    }
  }

  lemma HeapStep(seen: seq<Item>, x: Item, k: nat, heap: seq<Item>)
    requires k > 0 && LeastFirst(heap) && multiset(heap) == multiset(TopK(seen, k))
    ensures |heap| <= k
    ensures |heap| < k ==> multiset(TopK(seen + [x], k)) == multiset(heap) + multiset{x}
    ensures |heap| == k && Below(heap[0], x) ==>
              multiset(TopK(seen + [x], k)) == multiset(heap) - multiset{heap[0]} + multiset{x}
    ensures |heap| == k && !Below(heap[0], x) ==> multiset(TopK(seen + [x], k)) == multiset(heap)
  {
    hide Below, Insert;
    var s := Rank(seen);
    var t := Take(s, k);
    RankSorts(seen);
    SameLength(heap, t);
    assert (seen + [x])[..|seen|] == seen;
    TakeInsert(s, x, k);
    InsertRanked(t, x);
    SameLength(Insert(t, x), t + [x]);
    if |heap| == k {
      LeastIsLast(heap, t);
      InsertIntoFull(t, x);
    }
  }

  lemma LeastIsLast(heap: seq<Item>, t: seq<Item>)
    requires heap != [] && LeastFirst(heap) && Ranked(t) && multiset(heap) == multiset(t)
    ensures |heap| == |t| && heap[0] == t[|t| - 1]
  {
    SameLength(heap, t);
    var n := |t| - 1;
    assert heap[0] in multiset(t) && t[n] in multiset(heap);
    var i :| 0 <= i < |t| && t[i] == heap[0];
    var j :| 0 <= j < |heap| && heap[j] == t[n];
    BelowTotal(heap[0], t[n]);
  }

  /** The candidates the loop looks at: empty identifiers are skipped. */
  function Scored(ids: seq<NodeId>, score: NodeId -> nat): seq<Item>
  {
    if ids == [] then []
    else
      var last := ids[|ids| - 1];
      Scored(ids[..|ids| - 1], score) + (if last == "" then [] else [Item(score(last), last)])
  }

  function Ids(s: seq<Item>): seq<NodeId>
  {
    seq(|s|, i requires 0 <= i < |s| => s[i].id)
  }

  /** Streaming selection with a heap of at most k items agrees with ranking everything and
      taking k. */
  method TopKNodeIds(ids: seq<NodeId>, k: int, score: NodeId -> nat) returns (r: seq<NodeId>)
    ensures k <= 0 ==> r == []
    ensures k > 0 ==> r == Ids(TopK(Scored(ids, score), k))
  {
    hide Below, Insert, TopK, Ids, LeastFirst, Scored;
    if k <= 0 {
      return [];
    }
    var heap: seq<Item> := [];
    ghost var seen: seq<Item> := [];
    EmptyHeap(k);
    NothingScored(ids, score);
    for i := 0 to |ids|
      invariant seen == Scored(ids[..i], score)
      invariant LeastFirst(heap) && multiset(heap) == multiset(TopK(seen, k))
    {
      var id := ids[i];
      ScoredNext(ids, i, score);
      if id != "" {
        var item := Item(score(id), id);
        HeapStep(seen, item, k, heap);
        if |heap| < k {
          heap := HeapPush(heap, item);
        } else if Below(heap[0], item) {
          heap := HeapReplace(heap, item);
        }
        seen := seen + [item];
      }
    }
    assert ids[..|ids|] == ids;
    SortedHeap(seen, k, heap);
    return Ids(Rank(heap));
  }

  lemma NothingScored(ids: seq<NodeId>, score: NodeId -> nat)
    ensures Scored(ids[..0], score) == []
  {
  }

  lemma ScoredNext(ids: seq<NodeId>, i: nat, score: NodeId -> nat)
    requires i < |ids|
    ensures Scored(ids[..i + 1], score) == if ids[i] == "" then Scored(ids[..i], score) else Scored(ids[..i], score) + [Item(score(ids[i]), ids[i])]
  {
    assert ids[..i + 1][..i] == ids[..i];
  }

  lemma EmptyHeap(k: nat)
    ensures LeastFirst([]) && multiset(TopK([], k)) == multiset([])
  {
  }

  lemma SortedHeap(seen: seq<Item>, k: nat, heap: seq<Item>)
    requires multiset(heap) == multiset(TopK(seen, k))
    ensures Rank(heap) == TopK(seen, k)
  {
    hide Below, Insert, Rank;
    RankSorts(heap);
    RankSorts(seen);
    RankingUnique(Rank(heap), TopK(seen, k));
  }

  // ---------------------------------------------------------------- stability laws

  /** The placement does not depend on the order in which members are listed. */
  lemma OrderIndependent(a: seq<Item>, b: seq<Item>, k: nat)
    requires multiset(a) == multiset(b)
    ensures TopK(a, k) == TopK(b, k)
  {
    RankSorts(a);
    RankSorts(b);
    RankingUnique(Rank(a), Rank(b));
  }

  /** Asking for more replicas keeps the ones already chosen, in the same order. */
  lemma MoreReplicasExtend(s: seq<Item>, k: nat)
    ensures TopK(s, k) <= TopK(s, k + 1)
    ensures |TopK(s, k)| == Min(k, |s|)
  {
    RankSorts(s);
  }

  /** s without its first occurrence of x. */
  function Without(s: seq<Item>, x: Item): seq<Item>
  {
    if s == [] then [] else if s[0] == x then s[1..] else [s[0]] + Without(s[1..], x)
  }

  lemma {:induction false} WithoutRemoves(s: seq<Item>, x: Item)
    ensures multiset(Without(s, x)) == multiset(s) - multiset{x}
  {
    if s != [] {
      MultisetTail(s);
      if s[0] != x {
        WithoutRemoves(s[1..], x);
        assert multiset(Without(s, x)) == multiset{s[0]} + multiset(Without(s[1..], x));
      }
    }
  }

  lemma {:induction false} WithoutRanked(s: seq<Item>, x: Item)
    requires Ranked(s)
    ensures Ranked(Without(s, x))
  {
    hide Below;
    if s != [] && s[0] != x {
      WithoutRanked(s[1..], x);
      WithoutRemoves(s[1..], x);
      var t := Without(s[1..], x);
      forall j | 0 <= j < |t| ensures !Below(s[0], t[j]) {
        assert t[j] in multiset(t);
        assert t[j] in s[1..];
      }
      PrependRanked(s[0], t);
    }
  }

  lemma RankWithout(s: seq<Item>, x: Item)
    ensures Rank(Without(s, x)) == Without(Rank(s), x)
  {
    RankSorts(s);
    WithoutRemoves(s, x);
    WithoutRemoves(Rank(s), x);
    WithoutRanked(Rank(s), x);
    RankSorts(Without(s, x));
    RankingUnique(Rank(Without(s, x)), Without(Rank(s), x));
  }

  lemma {:induction false} TakeWithout(s: seq<Item>, x: Item, k: nat)
    ensures Take(Without(s, x), k)
            == if x in Take(s, k) then Without(Take(s, k + 1), x) else Take(s, k)
    decreases s
  {
    if s != [] && k > 0 {
      var y, rest := s[0], s[1..];
      assert s == [y] + rest;
      hide Take, Without;
      TakeCons(y, rest, k);
      TakeCons(y, rest, k + 1);
      WithoutCons(y, rest, x);
      if y == x {
        WithoutCons(y, Take(rest, k), x);
      } else {
        TakeWithout(rest, x, k - 1);
        TakeCons(y, Without(rest, x), k);
        WithoutCons(y, Take(rest, k), x);
      }
    } else if s != [] {
      assert Take(s, k) == [];
    }
  }

  lemma TakeCons(y: Item, s: seq<Item>, k: nat)
    requires k > 0
    ensures Take([y] + s, k) == [y] + Take(s, k - 1)
  {
  }

  lemma WithoutCons(y: Item, s: seq<Item>, x: Item)
    ensures Without([y] + s, x) == if y == x then s else [y] + Without(s, x)
  {
    assert ([y] + s)[1..] == s;
  }

  /** When a candidate leaves: a placement that did not use it is unchanged; one that used it
      keeps its other targets in their order and gains at most the next-ranked candidate. */
  lemma MemberLeaves(s: seq<Item>, x: Item, k: nat)
    ensures x !in TopK(s, k) ==> TopK(Without(s, x), k) == TopK(s, k)
    ensures x in TopK(s, k) ==> TopK(Without(s, x), k) == Without(TopK(s, k + 1), x)
  {
    RankWithout(s, x);
    TakeWithout(Rank(s), x, k);
  }

  // ---------------------------------------------------------------- the cluster view

  datatype Member = Member(id: NodeId, address: string)

  datatype View = View(members: seq<Member>)
  {
    ghost predicate Distinct()
    {
      forall i, j :: 0 <= i < j < |members| ==> members[i].id != members[j].id
    }

    function CandidatesExcluding(excluded: set<NodeId>): seq<Member>
    {
      Eligible(members, excluded)
    }

    /** Up to rf members ranked for one chunk, none of them excluded. */
    function TargetsExcluding(score: NodeId -> nat, rf: int, excluded: set<NodeId>): seq<Member>
    {
      var candidates := CandidatesExcluding(excluded);
      var k := Min(Max(rf, 0), |candidates|);
      if k <= 0 then []
      else
        var ranked := Ids(TopK(Scored(MemberIds(candidates), score), k));
        Resolve(ranked, Addresses(members))
    }
  }

  function Eligible(members: seq<Member>, excluded: set<NodeId>): seq<Member>
  {
    if members == [] then []
    else
      var m := members[|members| - 1];
      Eligible(members[..|members| - 1], excluded)
      + (if m.id != "" && m.id !in excluded then [m] else [])
  }

  function MemberIds(members: seq<Member>): seq<NodeId>
  {
    if members == [] then [] else MemberIds(members[..|members| - 1]) + [members[|members| - 1].id]
  }

  /** A dictionary built in list order: a later member with the same id wins. */
  function Addresses(members: seq<Member>): map<NodeId, string>
  {
    if members == [] then map[]
    else Addresses(members[..|members| - 1])[members[|members| - 1].id := members[|members| - 1].address]
  }

  function Resolve(ids: seq<NodeId>, addresses: map<NodeId, string>): seq<Member>
  {
    if ids == [] then []
    else
      var last := ids[|ids| - 1];
      Resolve(ids[..|ids| - 1], addresses)
      + (if last in addresses then [Member(last, addresses[last])] else [])
  }

  /** Taking more than there are is taking all. */
  lemma TakeAll(s: seq<Item>, k: nat, n: nat)
    requires n >= |s|
    ensures TopK(s, Min(k, n)) == TopK(s, k)
  {
    RankSorts(s);
  }

  /** The candidates of a view as scored items. */
  function Candidates(members: seq<Member>, score: NodeId -> nat, excluded: set<NodeId>): seq<Item>
  {
    if members == [] then []
    else
      var m := members[|members| - 1];
      Candidates(members[..|members| - 1], score, excluded)
      + (if m.id != "" && m.id !in excluded then [Item(score(m.id), m.id)] else [])
  }

  lemma {:induction false} CandidatesAreScored(members: seq<Member>, score: NodeId -> nat, excluded: set<NodeId>)
    ensures Scored(MemberIds(Eligible(members, excluded)), score) == Candidates(members, score, excluded)
    ensures |Eligible(members, excluded)| == |Candidates(members, score, excluded)|
  {
    if members != [] {
      var n := |members| - 1;
      var m := members[n];
      var e := Eligible(members[..n], excluded);
      CandidatesAreScored(members[..n], score, excluded);
      if m.id != "" && m.id !in excluded {
        assert (e + [m])[..|e|] == e;
        assert (MemberIds(e) + [m.id])[..|MemberIds(e)|] == MemberIds(e);
      } else {
        assert e + [] == e;
      }
    }
  }

  /** The ranked identifiers of a placement. */
  function TargetIds(v: View, score: NodeId -> nat, rf: int, excluded: set<NodeId>): seq<NodeId>
  {
    Ids(TopK(Candidates(v.members, score, excluded), Max(rf, 0)))
  }

  /** The targets of a view are the rf best of its eligible members, each with its address:
      the clamping of k to the number of candidates makes no difference. */
  lemma TargetsAreTopRf(v: View, score: NodeId -> nat, rf: int, excluded: set<NodeId>)
    ensures v.TargetsExcluding(score, rf, excluded)
            == Resolve(TargetIds(v, score, rf, excluded), Addresses(v.members))
  {
    hide Rank, Scored, Candidates;
    var items := Candidates(v.members, score, excluded);
    CandidatesAreScored(v.members, score, excluded);
    TakeAll(items, Max(rf, 0), |items|);
    if Min(Max(rf, 0), |items|) == 0 {
      MoreReplicasExtend(items, Max(rf, 0));
      assert TargetIds(v, score, rf, excluded) == [];
    }
  }

  lemma {:induction false} CandidateIsMember(members: seq<Member>, score: NodeId -> nat, excluded: set<NodeId>, x: Item)
    requires x in Candidates(members, score, excluded)
    ensures x == Item(score(x.id), x.id) && x.id != "" && x.id !in excluded
    ensures exists m :: m in members && m.id == x.id
  {
    var n := |members| - 1;
    assert members == members[..n] + [members[n]];
    if x in Candidates(members[..n], score, excluded) {
      CandidateIsMember(members[..n], score, excluded, x);
    } else {
      assert members[n].id == x.id;
    }
  }

  lemma {:induction false} AddressesOfMembers(members: seq<Member>, id: NodeId)
    ensures id in Addresses(members) <==> exists m :: m in members && m.id == id
    ensures id in Addresses(members) ==> Member(id, Addresses(members)[id]) in members
  {
    if members != [] {
      var n := |members| - 1;
      AddressesOfMembers(members[..n], id);
      assert members == members[..n] + [members[n]];
      if id == members[n].id {
        assert Member(id, members[n].address) == members[n];
      }
    }
  }

  lemma {:induction false} ResolveKeepsIds(ids: seq<NodeId>, addresses: map<NodeId, string>)
    requires forall id :: id in ids ==> id in addresses
    ensures MemberIds(Resolve(ids, addresses)) == ids
  {
    if ids != [] {
      var n := |ids| - 1;
      assert ids == ids[..n] + [ids[n]];
      var r := Resolve(ids[..n], addresses);
      ResolveKeepsIds(ids[..n], addresses);
      assert (r + [Member(ids[n], addresses[ids[n]])])[..|r|] == r;
    }
  }

  lemma {:induction false} ResolvedMember(ids: seq<NodeId>, addresses: map<NodeId, string>, t: Member)
    requires t in Resolve(ids, addresses)
    ensures t.id in ids && t.id in addresses && t.address == addresses[t.id]
  {
    var n := |ids| - 1;
    assert ids == ids[..n] + [ids[n]];
    if t in Resolve(ids[..n], addresses) {
      ResolvedMember(ids[..n], addresses, t);
    }
  }

  /** Every target is a member of the view, is named and is not excluded; and the targets are
      exactly the ranked identifiers, in rank order. */
  lemma TargetsSound(v: View, score: NodeId -> nat, rf: int, excluded: set<NodeId>)
    ensures MemberIds(v.TargetsExcluding(score, rf, excluded)) == TargetIds(v, score, rf, excluded)
    ensures forall t :: t in v.TargetsExcluding(score, rf, excluded) ==>
              t in v.members && t.id != "" && t.id !in excluded
  {
    hide Rank, Scored, Candidates, Addresses, Resolve, MemberIds;
    TargetsAreTopRf(v, score, rf, excluded);
    var items := Candidates(v.members, score, excluded);
    var ids := TargetIds(v, score, rf, excluded);
    RankSorts(items);
    forall id | id in ids
      ensures id != "" && id !in excluded && id in Addresses(v.members)
    {
      var i :| 0 <= i < |ids| && ids[i] == id;
      var x := TopK(items, Max(rf, 0))[i];
      assert x in multiset(Rank(items));
      assert x in items;
      CandidateIsMember(v.members, score, excluded, x);
      AddressesOfMembers(v.members, id);
    }
    ResolveKeepsIds(ids, Addresses(v.members));
    forall t | t in v.TargetsExcluding(score, rf, excluded)
      ensures t in v.members && t.id in ids
    {
      ResolvedMember(ids, Addresses(v.members), t);
      AddressesOfMembers(v.members, t.id);
    }
  }

  lemma {:induction false} CandidatesWithout(a: seq<Member>, m: Member, b: seq<Member>, score: NodeId -> nat, excluded: set<NodeId>)
    requires m.id != "" && m.id !in excluded
    requires forall o :: o in a || o in b ==> o.id != m.id
    ensures Candidates(a + b, score, excluded)
            == Without(Candidates(a + [m] + b, score, excluded), Item(score(m.id), m.id))
    decreases b
  {
    var x := Item(score(m.id), m.id);
    if b == [] {
      assert a + [m] + b == a + [m] && (a + [m])[..|a|] == a && a + b == a;
      var c := Candidates(a, score, excluded);
      if x in c {
        CandidateIsMember(a, score, excluded, x);
      }
      WithoutAppend(c, [x], x);
      assert Without([x], x) == [];
    } else {
      var n := |b| - 1;
      assert (a + b)[..|a + b| - 1] == a + b[..n];
      assert (a + [m] + b)[..|a + [m] + b| - 1] == a + [m] + b[..n];
      CandidatesWithout(a, m, b[..n], score, excluded);
      var o := b[n];
      assert o in b;
      var c := Candidates(a + [m] + b[..n], score, excluded);
      CandidatesHas(a, m, b[..n], score, excluded);
      WithoutAppend(c, if o.id != "" && o.id !in excluded then [Item(score(o.id), o.id)] else [], x);
    }
  }

  lemma {:induction false} CandidatesHas(a: seq<Member>, m: Member, b: seq<Member>, score: NodeId -> nat, excluded: set<NodeId>)
    requires m.id != "" && m.id !in excluded
    ensures Item(score(m.id), m.id) in Candidates(a + [m] + b, score, excluded)
    decreases b
  {
    if b == [] {
      assert a + [m] + b == a + [m] && (a + [m])[..|a|] == a;
    } else {
      assert (a + [m] + b)[..|a + [m] + b| - 1] == a + [m] + b[..|b| - 1];
      CandidatesHas(a, m, b[..|b| - 1], score, excluded);
    }
  }

  lemma {:induction false} WithoutAppend(s: seq<Item>, t: seq<Item>, x: Item)
    ensures Without(s + t, x) == if x in s then Without(s, x) + t else s + Without(t, x)
  {
    if s == [] {
      assert s + t == t;
    } else {
      WithoutAppend(s[1..], t, x);
      WithoutAppendCons(s[0], s[1..], t, x);
      assert s == [s[0]] + s[1..];
    }
  }

  lemma WithoutAppendCons(y: Item, s: seq<Item>, t: seq<Item>, x: Item)
    requires Without(s + t, x) == if x in s then Without(s, x) + t else s + Without(t, x)
    ensures Without([y] + s + t, x) == if x in [y] + s then Without([y] + s, x) + t else [y] + s + Without(t, x)
  {
    hide Without;
    WithoutCons(y, s, x);
    WithoutCons(y, s + t, x);
    ConsAppend(y, s, t);
    if y != x && x in s {
      ConsAppend(y, Without(s, x), t);
    } else if y != x {
      ConsAppend(y, s, Without(t, x));
    }
  }

  lemma ConsAppend(y: Item, s: seq<Item>, t: seq<Item>)
    ensures [y] + s + t == [y] + (s + t)
  {
  }

  /** Rendezvous stability for a cluster: when a member leaves, a chunk not placed on it keeps
      its placement, and a chunk placed on it keeps its other targets in order and gains at
      most the member ranked next. */
  lemma PlacementStable(a: seq<Member>, m: Member, b: seq<Member>, score: NodeId -> nat, rf: nat, excluded: set<NodeId>)
    requires m.id != "" && m.id !in excluded
    requires forall o :: o in a || o in b ==> o.id != m.id
    ensures var now, later := View(a + [m] + b), View(a + b);
            && (m.id !in TargetIds(now, score, rf, excluded) ==>
                  TargetIds(later, score, rf, excluded) == TargetIds(now, score, rf, excluded))
            && (m.id in TargetIds(now, score, rf, excluded) ==>
                  TargetIds(later, score, rf, excluded)
                  == IdsWithout(TargetIds(now, score, rf + 1, excluded), m.id))
  {
    hide Rank, Candidates;
    var items := Candidates(a + [m] + b, score, excluded);
    var x := Item(score(m.id), m.id);
    CandidatesWithout(a, m, b, score, excluded);
    MemberLeaves(items, x, rf);
    var top := TopK(items, rf);
    RankSorts(items);
    assert m.id in Ids(top) ==> x in top by {
      if m.id in Ids(top) {
        var i :| 0 <= i < |top| && top[i].id == m.id;
        assert top[i] in multiset(Rank(items));
        assert top[i] in items;
        CandidateIsMember(a + [m] + b, score, excluded, top[i]);
      }
    }
    assert x in top ==> m.id in Ids(top) by {
      if x in top {
        var i :| 0 <= i < |top| && top[i] == x;
        assert Ids(top)[i] == m.id;
      }
    }
    var more := TopK(items, rf + 1);
    forall y | y in more ensures y == Item(score(y.id), y.id) {
      assert y in multiset(Rank(items));
      assert y in items;
      CandidateIsMember(a + [m] + b, score, excluded, y);
    }
    IdsOfWithout(more, x, score);
  }

  function IdsWithout(ids: seq<NodeId>, id: NodeId): seq<NodeId>
  {
    if ids == [] then [] else if ids[0] == id then ids[1..] else [ids[0]] + IdsWithout(ids[1..], id)
  }

  lemma {:induction false} IdsOfWithout(s: seq<Item>, x: Item, score: NodeId -> nat)
    requires x == Item(score(x.id), x.id) && forall y :: y in s ==> y == Item(score(y.id), y.id)
    ensures Ids(Without(s, x)) == IdsWithout(Ids(s), x.id)
  {
    if s == [] {
      assert Ids(s) == [];
    } else {
      assert s[0] in s;
      assert Ids(s)[1..] == Ids(s[1..]);
      if s[0] != x {
        IdsOfWithout(s[1..], x, score);
        assert Ids([s[0]] + Without(s[1..], x)) == [s[0].id] + Ids(Without(s[1..], x));
      }
    }
  }
}
