/** Placement and recovery together: a chunk stays recoverable as long as one of the nodes it was
    placed on stays in the cluster, whatever other nodes leave. */
module Durability {
  import opened Prelude
  import opened Hrw
  import Fetch

  /** The view after member m has left; a and b are the members before and after it. */
  datatype Departure = Departure(a: seq<Member>, m: Member, b: seq<Member>)
  {
    function Before(): View { View(a + [m] + b) }
    function After(): View { View(a + b) }
  }

  /** One departure after another. */
  ghost predicate Chain(v: View, departures: seq<Departure>, last: View)
    decreases |departures|
  {
    if departures == [] then v == last
    else departures[0].Before() == v && Chain(departures[0].After(), departures[1..], last)
  }

  lemma {:induction false} IneligibleLeaves(a: seq<Member>, m: Member, b: seq<Member>, score: NodeId -> nat, excluded: set<NodeId>)
    requires m.id == "" || m.id in excluded
    ensures Candidates(a + [m] + b, score, excluded) == Candidates(a + b, score, excluded)
    decreases |b|
  {
    if b == [] {
      assert a + [m] + b == a + [m] && a + b == a;
      assert (a + [m])[..|a|] == a;
      assert Candidates(a, score, excluded) + [] == Candidates(a, score, excluded);
    } else {
      var n := |b| - 1;
      assert (a + [m] + b)[..|a| + 1 + n] == a + [m] + b[..n];
      assert (a + b)[..|a| + n] == a + b[..n];
      IneligibleLeaves(a, m, b[..n], score, excluded);
    }
  }

  lemma {:induction false} OthersRemain(ids: seq<NodeId>, gone: NodeId, id: NodeId)
    requires id in ids && id != gone
    ensures id in IdsWithout(ids, gone)
  {
    if ids[0] != gone && ids[0] != id {
      assert id in ids[1..];
      OthersRemain(ids[1..], gone, id);
    }
  }

  lemma IdsOfPrefix(s: seq<Item>, t: seq<Item>, id: NodeId)
    requires s <= t && id in Ids(s)
    ensures id in Ids(t)
  {
    var i :| 0 <= i < |Ids(s)| && Ids(s)[i] == id;
    assert Ids(t)[i] == t[i].id == s[i].id;
  }

  /** A target stays a target when another member leaves. */
  lemma SurvivorStaysTarget(d: Departure, score: NodeId -> nat, rf: nat, excluded: set<NodeId>, id: NodeId)
    requires d.Before().Distinct() && id != d.m.id && id in TargetIds(d.Before(), score, rf, excluded)
    ensures id in TargetIds(d.After(), score, rf, excluded)
  {
    hide TopK, Candidates, Ids;
    var a, m, b := d.a, d.m, d.b;
    if m.id == "" || m.id in excluded {
      IneligibleLeaves(a, m, b, score, excluded);
    } else {
      OnlyOne(a, m, b);
      PlacementStable(a, m, b, score, rf, excluded);
      if m.id in TargetIds(d.Before(), score, rf, excluded) {
        var items := Candidates(d.Before().members, score, excluded);
        MoreReplicasExtend(items, rf);
        IdsOfPrefix(TopK(items, rf), TopK(items, rf + 1), id);
        OthersRemain(TargetIds(d.Before(), score, rf + 1, excluded), m.id, id);
      }
    }
  }

  lemma OnlyOne(a: seq<Member>, m: Member, b: seq<Member>)
    requires View(a + [m] + b).Distinct()
    ensures forall o :: o in a || o in b ==> o.id != m.id
    ensures View(a + b).Distinct()
  {
    var all := a + [m] + b;
    assert all[|a|] == m;
    forall o | o in a || o in b ensures o.id != m.id {
      if o in a {
        var i :| 0 <= i < |a| && a[i] == o;
        assert all[i] == o;
      } else {
        var i :| 0 <= i < |b| && b[i] == o;
        assert all[|a| + 1 + i] == o;
      }
    }
    var rest := a + b;
    forall i, j | 0 <= i < j < |rest| ensures rest[i].id != rest[j].id {
      assert rest[i] == all[if i < |a| then i else i + 1] && rest[j] == all[if j < |a| then j else j + 1];
    }
  }

  lemma {:induction false} SurvivorStaysThroughout(v: View, departures: seq<Departure>, last: View,
                                                  score: NodeId -> nat, rf: nat, excluded: set<NodeId>, t: Member)
    requires Chain(v, departures, last) && v.Distinct() && t in v.members && t.id in TargetIds(v, score, rf, excluded)
    requires forall d :: d in departures ==> d.m.id != t.id
    ensures last.Distinct() && t in last.members && t.id in TargetIds(last, score, rf, excluded)
    decreases |departures|
  {
    hide TargetIds;
    if departures != [] {
      var d := departures[0];
      assert d in departures;
      SurvivorStaysTarget(d, score, rf, excluded, t.id);
      OnlyOne(d.a, d.m, d.b);
      assert t in d.After().members;
      SurvivorStaysThroughout(d.After(), departures[1..], last, score, rf, excluded, t);
    }
  }

  /** The node hands out a valid copy of the chunk whenever it is asked. */
  ghost predicate Serves(w: Fetch.World, address: Fetch.Address, h: Hash)
  {
    forall rank: nat :: w.Accept(h, w.reply(rank, address, h)).Some?
  }

  function AddressList(members: seq<Member>): seq<Fetch.Address>
  {
    seq(|members|, i requires 0 <= i < |members| => members[i].address)
  }

  lemma {:induction false} FindMember(members: seq<Member>, id: NodeId) returns (r: nat)
    requires id in MemberIds(members)
    ensures r < |members| && members[r].id == id
  {
    var n := |members| - 1;
    if members[n].id == id {
      r := n;
    } else {
      r := FindMember(members[..n], id);
    }
  }

  lemma SameMember(v: View, s: Member, t: Member)
    requires v.Distinct() && s in v.members && t in v.members && s.id == t.id
    ensures s == t
  {
    var i :| 0 <= i < |v.members| && v.members[i] == s;
    var j :| 0 <= j < |v.members| && v.members[j] == t;
  }

  /** A chunk was placed on the rf best members of a view. Members then leave, in any number and
      order, but one of those it was placed on stays and still serves it. Then fetching with
      the targets of the new view recovers the chunk, and by replication unless it is local. */
  lemma SurvivesDepartures(v: View, departures: seq<Departure>, last: View, score: NodeId -> nat, rf: nat, excluded: set<NodeId>,
                           t: Member, w: Fetch.World, h: Hash)
    requires Chain(v, departures, last) && v.Distinct() && t in v.TargetsExcluding(score, rf, excluded)
    requires forall d :: d in departures ==> d.m.id != t.id
    requires w.remoteRecovery && w.replication && w.targets(h) == AddressList(last.TargetsExcluding(score, rf, excluded))
    requires Serves(w, t.address, h)
    ensures w.Resolve(h).Some?
    ensures w.FromStore(w.local, h).None? && w.FromP2p(h).None? ==> w.OriginOf(h) == Fetch.Replication
  {
    hide TargetIds, MemberIds, Chain, View.TargetsExcluding;
    TargetsSound(v, score, rf, excluded);
    TargetIsNamed(v.TargetsExcluding(score, rf, excluded), t);
    SurvivorStaysThroughout(v, departures, last, score, rf, excluded, t);
    TargetsSound(last, score, rf, excluded);
    var targets := last.TargetsExcluding(score, rf, excluded);
    var r := FindMember(targets, t.id);
    assert targets[r] in targets;
    SameMember(last, targets[r], t);
    assert w.targets(h)[r] == t.address;
    assert w.FromRank(h, r).Some?;
    Fetch.FromRanksMeaning(w, h, |w.targets(h)|);
  }

  lemma {:induction false} TargetIsNamed(members: seq<Member>, t: Member)
    requires t in members
    ensures t.id in MemberIds(members)
  {
    var n := |members| - 1;
    assert members == members[..n] + [members[n]];
    if t in members[..n] {
      TargetIsNamed(members[..n], t);
    }
  }
}
