/** Layered chunk recovery: local CAS, local P2P CAS, replicas by HRW rank, erasure packs. */
module Fetch {
  import opened Prelude

  type Blob = Bytes
  type Address = string

  datatype EcReply = NoPack | EcFailed | Recovered(raw: Bytes)

  /** Everything outside the service, fixed for one call. A replica is asked for a chunk at
      most once per rank, so its behaviour is a function of rank, address and chunk. */
  datatype World = World(
    hash: Hasher,
    decompress: Blob -> Option<Bytes>,
    local: map<Hash, Blob>,
    p2p: Option<map<Hash, Blob>>,
    remoteRecovery: bool,
    replication: bool,
    targets: Hash -> seq<Address>,
    reply: (nat, Address, Hash) -> Option<Blob>,
    ec: Option<Hash -> EcReply>)
  {
    /** Accepts a compressed chunk only if it unpacks to something with the right hash. */
    function Validate(h: Hash, blob: Blob): Option<Bytes>
    {
      match decompress(blob)
      case None => None
      case Some(raw) => if hash(raw) == h then Some(raw) else None
    }

    function FromStore(store: map<Hash, Blob>, h: Hash): Option<Bytes>
    {
      if h in store then Validate(h, store[h]) else None
    }

    /** No answer, no such chunk and a corrupt blob all count as nothing. */
    function Accept(h: Hash, answer: Option<Blob>): Option<Bytes>
    {
      if answer.None? then None else Validate(h, answer.value)
    }

    /** What the target of this rank contributes. */
    function FromRank(h: Hash, rank: nat): Option<Bytes>
    {
      if rank >= |targets(h)| then None else Accept(h, reply(rank, targets(h)[rank], h))
    }

    /** The first valid contribution among the ranks below k. */
    function FromRanks(h: Hash, k: nat): Option<Bytes>
    {
      if k == 0 then None
      else if FromRanks(h, k - 1).Some? then FromRanks(h, k - 1)
      else FromRank(h, k - 1)
    }

    function FromReplicas(h: Hash): Option<Bytes>
    {
      if remoteRecovery && replication then FromRanks(h, |targets(h)|) else None
    }

    function FromEc(h: Hash): Option<Bytes>
    {
      if ec.Some? && ec.value(h).Recovered? then Some(ec.value(h).raw) else None
    }

    function FromP2p(h: Hash): Option<Bytes>
    {
      if p2p.Some? then FromStore(p2p.value, h) else None
    }

    function OriginOf(h: Hash): Origin
    {
      if FromStore(local, h).Some? then LocalCas
      else if FromP2p(h).Some? then LocalP2p
      else if FromReplicas(h).Some? then Replication
      else if FromEc(h).Some? then Erasure
      else Nowhere
    }

    function Resolve(h: Hash): Option<Bytes>
    {
      match OriginOf(h)
      case LocalCas => FromStore(local, h)
      case LocalP2p => FromP2p(h)
      case Replication => FromReplicas(h)
      case Erasure => FromEc(h)
      case Nowhere => None
    }

    /** The erasure extractor returns only what was asked for. */
    ghost predicate EcSound()
    {
      forall h: Hash :: FromEc(h).Some? ==> hash(FromEc(h).value) == h
    }
  }

  datatype Origin = LocalCas | LocalP2p | Replication | Erasure | Nowhere

  // ---------------------------------------------------------------- counting with multiplicity

  /** How many entries of the request name a chunk of the set. */
  function Tally(requested: seq<Hash>, some: set<Hash>): nat
  {
    if requested == [] then 0
    else Tally(requested[..|requested| - 1], some) + if requested[|requested| - 1] in some then 1 else 0
  }

  lemma {:induction false} TallyUnion(requested: seq<Hash>, a: set<Hash>, b: set<Hash>)
    requires a !! b
    ensures Tally(requested, a + b) == Tally(requested, a) + Tally(requested, b)
  {
    if requested != [] {
      TallyUnion(requested[..|requested| - 1], a, b);
    }
  }

  lemma {:induction false} TallyAll(requested: seq<Hash>, all: set<Hash>)
    requires forall h :: h in requested ==> h in all
    ensures Tally(requested, all) == |requested|
  {
    if requested != [] {
      TallyAll(requested[..|requested| - 1], all);
    }
  }

  function Named(requested: seq<Hash>): set<Hash> { set h | h in requested }

  /** The chunks that come from this origin. */
  ghost function Within(w: World, chunks: set<Hash>, o: Origin): set<Hash>
  {
    set h | h in chunks && w.OriginOf(h) == o
  }

  /** Every entry of the request is counted under exactly one origin. */
  lemma Conservation(w: World, requested: seq<Hash>)
    ensures |requested| == Tally(requested, Within(w, Named(requested), LocalCas))
                         + Tally(requested, Within(w, Named(requested), LocalP2p))
                         + Tally(requested, Within(w, Named(requested), Replication))
                         + Tally(requested, Within(w, Named(requested), Erasure))
                         + Tally(requested, Within(w, Named(requested), Nowhere))
  {
    hide Tally;
    var a, b, c := Within(w, Named(requested), LocalCas), Within(w, Named(requested), LocalP2p), Within(w, Named(requested), Replication);
    var d, e := Within(w, Named(requested), Erasure), Within(w, Named(requested), Nowhere);
    TallyUnion(requested, a, b);
    TallyUnion(requested, a + b, c);
    TallyUnion(requested, a + b + c, d);
    TallyUnion(requested, a + b + c + d, e);
    TallyAll(requested, a + b + c + d + e);
  }

  // ---------------------------------------------------------------- what the layers mean

  lemma {:induction false} FromRanksMeaning(w: World, h: Hash, k: nat)
    ensures w.FromRanks(h, k).Some? <==> exists r: nat :: r < k && w.FromRank(h, r).Some?
    ensures w.FromRanks(h, k).Some? ==> w.hash(w.FromRanks(h, k).value) == h
  {
    if k > 0 {
      FromRanksMeaning(w, h, k - 1);
    }
  }

  /** A chunk that is not local is recovered by replication exactly when some target in its HRW
      list answers with a blob that unpacks to bytes with its hash. */
  lemma ReplicationIff(w: World, h: Hash)
    requires w.remoteRecovery && w.replication
    requires w.FromStore(w.local, h).None? && w.FromP2p(h).None?
    ensures w.OriginOf(h) == Replication <==>
            exists r: nat :: r < |w.targets(h)| && w.reply(r, w.targets(h)[r], h).Some?
                             && w.Validate(h, w.reply(r, w.targets(h)[r], h).value).Some?
  {
    FromRanksMeaning(w, h, |w.targets(h)|);
    if w.OriginOf(h) == Replication {
      var r: nat :| r < |w.targets(h)| && w.FromRank(h, r).Some?;
      assert w.reply(r, w.targets(h)[r], h).Some?;
    }
    if r: nat :| r < |w.targets(h)| && w.reply(r, w.targets(h)[r], h).Some?
                 && w.Validate(h, w.reply(r, w.targets(h)[r], h).value).Some?
    {
      assert w.FromRank(h, r).Some?;
    }
  }

  /** Whatever is returned hashes to its key. */
  lemma ResolvedBytesAreRight(w: World, h: Hash)
    requires w.EcSound() && w.Resolve(h).Some?
    ensures w.hash(w.Resolve(h).value) == h
  {
    FromRanksMeaning(w, h, |w.targets(h)|);
  }

  /** Ranks past the end of the list change nothing. */
  lemma {:induction false} RanksExhausted(w: World, h: Hash, k: nat)
    requires k >= |w.targets(h)|
    ensures w.FromRanks(h, k) == w.FromRanks(h, |w.targets(h)|)
  {
    if k > |w.targets(h)| {
      RanksExhausted(w, h, k - 1);
    }
  }

  // ---------------------------------------------------------------- the service

  type Results = map<Hash, Option<Bytes>>

  /** Chunks still without an answer before rank k is asked. */
  ghost function OpenAt(w: World, missing: set<Hash>, k: nat): set<Hash>
  {
    set h | h in missing && w.targets(h) != [] && w.FromRanks(h, k).None?
  }

  /** Answers known before rank k is asked: recovered bytes, and failures for want of targets. */
  ghost function KnownAt(w: World, missing: set<Hash>, k: nat): Results
  {
    map h | h in missing - OpenAt(w, missing, k) :: w.FromRanks(h, k)
  }

  ghost function RecoveredAt(w: World, missing: set<Hash>, k: nat): set<Hash>
  {
    set h | h in missing && w.FromRanks(h, k).Some?
  }

  ghost predicate Grouped(w: World, open: set<Hash>, rank: nat, groups: map<Address, set<Hash>>)
  {
    && (forall a, h: Hash :: a in groups && h in groups[a] ==> h in open && rank < |w.targets(h)| && w.targets(h)[rank] == a)
    && (forall h: Hash :: h in open && rank < |w.targets(h)| ==> w.targets(h)[rank] in groups && h in groups[w.targets(h)[rank]])
  }

  /** One batch per address: the open chunks whose target of this rank lives there. */
  method GroupByTarget(w: World, open: set<Hash>, rank: nat) returns (groups: map<Address, set<Hash>>)
    ensures Grouped(w, open, rank, groups)
  {
    hide Joined;
    groups := map[];
    var todo := open;
    ghost var done: set<Hash> := {};
    while todo != {}
      invariant todo <= open && done == open - todo && Grouped(w, done, rank, groups)
      decreases |todo|
    {
      var h :| h in todo;
      GroupStep(w, done, h, rank, groups);
      if rank < |w.targets(h)| {
        groups := Joined(groups, w.targets(h)[rank], h);
      }
      todo, done := todo - {h}, done + {h};
    }
    assert done == open;
  }

  function Joined(groups: map<Address, set<Hash>>, a: Address, h: Hash): map<Address, set<Hash>>
  {
    groups[a := (if a in groups then groups[a] else {}) + {h}]
  }

  lemma GroupStep(w: World, done: set<Hash>, h: Hash, rank: nat, groups: map<Address, set<Hash>>)
    requires Grouped(w, done, rank, groups)
    ensures Grouped(w, done + {h}, rank, if rank < |w.targets(h)| then Joined(groups, w.targets(h)[rank], h) else groups)
  {
  }

  ghost function Got(w: World, group: set<Hash>, rank: nat): set<Hash>
  {
    set h | h in group && w.FromRank(h, rank).Some?
  }

  ghost function Answers(w: World, got: set<Hash>, rank: nat): Results
  {
    map h | h in got :: w.FromRank(h, rank)
  }

  /** multiplicity says how often each chunk was requested. */
  ghost predicate Counts(requested: seq<Hash>, multiplicity: map<Hash, nat>)
  {
    multiplicity.Keys == Named(requested) && forall h :: h in requested ==> multiplicity[h] == Tally(requested, {h})
  }

  lemma CountOf(requested: seq<Hash>, multiplicity: map<Hash, nat>, h: Hash)
    requires Counts(requested, multiplicity) && h in Named(requested)
    ensures h in multiplicity && multiplicity[h] == Tally(requested, {h})
  {
  }

  lemma TallyEmpty(requested: seq<Hash>)
    ensures Tally(requested, {}) == 0
  {
    TallyUnion(requested, {}, {});
  }

  lemma GotNothing(w: World, requested: seq<Hash>, rank: nat, open: set<Hash>, results: Results)
    ensures Got(w, {}, rank) == {} && Tally(requested, Got(w, {}, rank)) == 0
    ensures open - Got(w, {}, rank) == open && results + Answers(w, Got(w, {}, rank), rank) == results
  {
    TallyEmpty(requested);
  }

  /** Two disjoint parts of a round may be accounted for one after the other. */
  lemma GotBoth(w: World, requested: seq<Hash>, rank: nat, a: set<Hash>, b: set<Hash>, open: set<Hash>, results: Results)
    requires a !! b
    ensures open - Got(w, a, rank) - Got(w, b, rank) == open - Got(w, a + b, rank)
    ensures results + Answers(w, Got(w, a, rank), rank) + Answers(w, Got(w, b, rank), rank)
            == results + Answers(w, Got(w, a + b, rank), rank)
    ensures Tally(requested, Got(w, a + b, rank)) == Tally(requested, Got(w, a, rank)) + Tally(requested, Got(w, b, rank))
  {
    hide Tally;
    assert Got(w, a + b, rank) == Got(w, a, rank) + Got(w, b, rank);
    TallyUnion(requested, Got(w, a, rank), Got(w, b, rank));
  }

  lemma OthersGiveNothing(w: World, open: set<Hash>, done: set<Hash>, rank: nat)
    requires done == set h | h in open && rank < |w.targets(h)|
    ensures Got(w, done, rank) == Got(w, open, rank)
  {
  }

  /** One chunk of a round. */
  lemma GotOne(w: World, requested: seq<Hash>, rank: nat, h: Hash, open: set<Hash>, results: Results)
    ensures var raw := w.FromRank(h, rank);
            && Got(w, {h}, rank) == (if raw.Some? then {h} else {})
            && results + Answers(w, Got(w, {h}, rank), rank) == (if raw.Some? then results[h := raw] else results)
            && Tally(requested, Got(w, {h}, rank)) == if raw.Some? then Tally(requested, {h}) else 0
  {
    hide Tally;
    TallyEmpty(requested);
  }

  /** One more chunk of a batch. */
  lemma GotNext(w: World, requested: seq<Hash>, multiplicity: map<Hash, nat>, rank: nat, done: set<Hash>, h: Hash, open: set<Hash>, results: Results)
    requires Counts(requested, multiplicity) && h in Named(requested) && h !in done
    ensures h in multiplicity
    ensures var raw := w.FromRank(h, rank);
            && open - Got(w, done + {h}, rank) == (if raw.Some? then open - Got(w, done, rank) - {h} else open - Got(w, done, rank))
            && results + Answers(w, Got(w, done + {h}, rank), rank)
               == (if raw.Some? then (results + Answers(w, Got(w, done, rank), rank))[h := raw] else results + Answers(w, Got(w, done, rank), rank))
            && Tally(requested, Got(w, done + {h}, rank))
               == Tally(requested, Got(w, done, rank)) + if raw.Some? then multiplicity[h] else 0
  {
    hide Tally, Got, Answers, Counts;
    CountOf(requested, multiplicity, h);
    GotBoth(w, requested, rank, done, {h}, open, results);
    GotOne(w, requested, rank, h, open - Got(w, done, rank), results + Answers(w, Got(w, done, rank), rank));
  }

  lemma RoundStep(w: World, missing: set<Hash>, rank: nat)
    ensures var open := OpenAt(w, missing, rank);
            var got := Got(w, open, rank);
            && OpenAt(w, missing, rank + 1) == open - got
            && KnownAt(w, missing, rank + 1) == KnownAt(w, missing, rank) + Answers(w, got, rank)
            && RecoveredAt(w, missing, rank + 1) == RecoveredAt(w, missing, rank) + got
            && RecoveredAt(w, missing, rank) !! got
  {
    forall h | h in missing ensures w.targets(h) == [] ==> w.FromRanks(h, rank).None? && w.FromRank(h, rank).None? {
      FromRanksMeaning(w, h, rank);
    }
  }

  class Service {
    var requestedChunks: nat
    var fromLocal: nat
    var fromP2p: nat
    var fromReplication: nat
    var fromEc: nat
    var failed: nat

    constructor ()
      ensures requestedChunks == fromLocal == fromP2p == fromReplication == fromEc == failed == 0
    {
      requestedChunks, fromLocal, fromP2p, fromReplication, fromEc, failed := 0, 0, 0, 0, 0, 0;
    }

    /** The answers of one batch; chunks answered validly are no longer open. */
    method AcceptBatch(w: World, requested: seq<Hash>, multiplicity: map<Hash, nat>,
                       address: Address, group: set<Hash>, rank: nat, open: set<Hash>, results: Results)
      returns (open': set<Hash>, results': Results)
      requires Counts(requested, multiplicity) && group <= Named(requested)
      requires forall h :: h in group ==> rank < |w.targets(h)| && w.targets(h)[rank] == address
      modifies this`fromReplication
      ensures open' == open - Got(w, group, rank)
      ensures results' == results + Answers(w, Got(w, group, rank), rank)
      ensures fromReplication == old(fromReplication) + Tally(requested, Got(w, group, rank))
    {
      hide Tally, Got, Answers, Counts;
      open', results' := open, results;
      var todo := group;
      ghost var done: set<Hash> := {};
      GotNothing(w, requested, rank, open, results);
      while todo != {}
        invariant todo <= group && done == group - todo
        invariant open' == open - Got(w, done, rank)
        invariant results' == results + Answers(w, Got(w, done, rank), rank)
        invariant fromReplication == old(fromReplication) + Tally(requested, Got(w, done, rank))
        decreases |todo|
      {
        var h :| h in todo;
        GotNext(w, requested, multiplicity, rank, done, h, open, results);
        todo, done := todo - {h}, done + {h};
        var raw := w.Accept(h, w.reply(rank, address, h));
        assert raw == w.FromRank(h, rank);
        if raw.Some? {
          results' := results'[h := raw];
          fromReplication := fromReplication + multiplicity[h];
          open' := open' - {h};
        }
      }
      assert done == group;
    }

    /** All batches of one rank, in any order. */
    method AskRank(w: World, requested: seq<Hash>, multiplicity: map<Hash, nat>, groups: map<Address, set<Hash>>,
                   rank: nat, open: set<Hash>, results: Results)
      returns (open': set<Hash>, results': Results)
      requires Counts(requested, multiplicity) && open <= Named(requested) && Grouped(w, open, rank, groups)
      modifies this`fromReplication
      ensures open' == open - Got(w, open, rank)
      ensures results' == results + Answers(w, Got(w, open, rank), rank)
      ensures fromReplication == old(fromReplication) + Tally(requested, Got(w, open, rank))
    {
      hide Tally, Got, Answers;
      open', results' := open, results;
      var todo := groups.Keys;
      ghost var done: set<Hash> := {};
      GotNothing(w, requested, rank, open, results);
      while todo != {}
        invariant todo <= groups.Keys && done <= open
        invariant forall h: Hash :: h in done <==> h in open && rank < |w.targets(h)| && w.targets(h)[rank] !in todo
        invariant open' == open - Got(w, done, rank)
        invariant results' == results + Answers(w, Got(w, done, rank), rank)
        invariant fromReplication == old(fromReplication) + Tally(requested, Got(w, done, rank))
        decreases |todo|
      {
        var a :| a in todo;
        ghost var group := groups[a];
        GotBoth(w, requested, rank, done, group, open, results);
        open', results' := AcceptBatch(w, requested, multiplicity, a, groups[a], rank, open', results');
        todo, done := todo - {a}, done + group;
      }
      OthersGiveNothing(w, open, done, rank);
    }

    /** Rank after rank until nothing is open or no list goes any further. */
    method FetchRemote(w: World, requested: seq<Hash>, multiplicity: map<Hash, nat>, missing: set<Hash>) returns (results: Results)
      requires Counts(requested, multiplicity) && missing <= Named(requested)
      modifies this`fromReplication
      ensures results == ReplicaResults(w, missing)
      ensures fromReplication == old(fromReplication) + Tally(requested, Replicated(w, missing))
    {
      hide Tally, OpenAt, KnownAt, RecoveredAt, Got, Answers;
      TallyEmpty(requested);
      if !(w.remoteRecovery && w.replication) {
        assert Replicated(w, missing) == {};
        return map h | h in missing :: None;
      }
      var open := set h | h in missing && w.targets(h) != [];
      results := map h | h in missing && w.targets(h) == [] :: None;
      BeforeRounds(w, missing);
      var depth := Deepest(w, open);
      ghost var all := open;
      var rank := 0;
      while rank < depth && open != {}
        invariant rank <= depth && open <= all && open == OpenAt(w, missing, rank) && results == KnownAt(w, missing, rank)
        invariant fromReplication == old(fromReplication) + Tally(requested, RecoveredAt(w, missing, rank))
        decreases depth - rank
      {
        var groups := GroupByTarget(w, open, rank);
        if groups == map[] {
          break;
        }
        RoundStep(w, missing, rank);
        TallyUnion(requested, RecoveredAt(w, missing, rank), Got(w, open, rank));
        open, results := AskRank(w, requested, multiplicity, groups, rank, open, results);
        rank := rank + 1;
      }
      assert forall h :: h in open ==> |w.targets(h)| <= rank;
      AfterRounds(w, missing, rank);
      results := results + map h | h in open :: None;
    }

    /** Erasure packs for what replication could not deliver. */
    method RecoverWithEc(w: World, requested: seq<Hash>, multiplicity: map<Hash, nat>, missing: set<Hash>, results: Results)
      returns (results': Results)
      requires Counts(requested, multiplicity) && missing <= Named(requested)
      requires results == ReplicaResults(w, missing)
      modifies this`fromEc
      ensures results' == RemoteResults(w, missing, missing)
      ensures fromEc == old(fromEc) + Tally(requested, FromPacks(w, missing))
    {
      hide Tally, FromPacks, RemoteResults;
      results' := results;
      var todo := missing;
      ghost var done: set<Hash> := {};
      NoPacksYet(w, requested, missing);
      while todo != {}
        invariant todo <= missing && done == missing - todo
        invariant results' == RemoteResults(w, missing, done)
        invariant fromEc == old(fromEc) + Tally(requested, FromPacks(w, done))
        decreases |todo|
      {
        var h :| h in todo;
        PackStep(w, requested, missing, done, h);
        todo, done := todo - {h}, done + {h};
        if results'[h].None? && w.ec.Some? {
          var value := w.ec.value(h);
          if value.Recovered? {
            results' := results'[h := Some(value.raw)];
            fromEc := fromEc + multiplicity[h];
          }
        }
      }
      assert done == missing;
    }

    /** The two local stores; returns what they hold and the chunks still missing. */
    method FetchLocal(w: World, requested: seq<Hash>, multiplicity: map<Hash, nat>) returns (results: Results, missing: set<Hash>)
      requires Counts(requested, multiplicity)
      modifies this`fromLocal, this`fromP2p
      ensures missing == Missing(w, Named(requested)) && results == LocalResults(w, Named(requested))
      ensures fromLocal == old(fromLocal) + Tally(requested, Within(w, Named(requested), LocalCas))
      ensures fromP2p == old(fromP2p) + Tally(requested, Within(w, Named(requested), LocalP2p))
    {
      hide Tally, Missing, LocalResults, Within;
      results, missing := map[], {};
      var todo := multiplicity.Keys;
      ghost var done: set<Hash> := {};
      NothingLocalYet(w, requested);
      while todo != {}
        invariant todo <= multiplicity.Keys && done == multiplicity.Keys - todo
        invariant missing == Missing(w, done) && results == LocalResults(w, done)
        invariant fromLocal == old(fromLocal) + Tally(requested, Within(w, done, LocalCas))
        invariant fromP2p == old(fromP2p) + Tally(requested, Within(w, done, LocalP2p))
        decreases |todo|
      {
        var h :| h in todo;
        LocalStep(w, requested, done, h);
        todo, done := todo - {h}, done + {h};
        var raw := w.FromStore(w.local, h);
        if raw.Some? {
          results := results[h := raw];
          fromLocal := fromLocal + multiplicity[h];
        } else {
          var other := w.FromP2p(h);
          if other.Some? {
            results := results[h := other];
            fromP2p := fromP2p + multiplicity[h];
          } else {
            missing := missing + {h};
          }
        }
      }
      assert done == Named(requested);
    }

    /** Every requested chunk gets an answer, each from the first layer that has it, and each
        counter grows by the number of request entries answered by its layer. */
    method FetchMany(w: World, requested: seq<Hash>) returns (results: Results)
      modifies this
      ensures results == map h | h in Named(requested) :: w.Resolve(h)
      ensures requestedChunks == old(requestedChunks) + |requested|
      ensures fromLocal == old(fromLocal) + Tally(requested, Within(w, Named(requested), LocalCas))
      ensures fromP2p == old(fromP2p) + Tally(requested, Within(w, Named(requested), LocalP2p))
      ensures fromReplication == old(fromReplication) + Tally(requested, Within(w, Named(requested), Replication))
      ensures fromEc == old(fromEc) + Tally(requested, Within(w, Named(requested), Erasure))
      ensures failed == old(failed) + Tally(requested, Within(w, Named(requested), Nowhere))
    {
      hide Tally, Within, Missing, LocalResults, RemoteResults, ReplicaResults, Replicated, FromPacks, Unanswered;
      requestedChunks := requestedChunks + |requested|;
      var multiplicity := CountRequests(requested);
      var missing: set<Hash>;
      results, missing := FetchLocal(w, requested, multiplicity);
      var remote := FetchRemote(w, requested, multiplicity, missing);
      remote := RecoverWithEc(w, requested, multiplicity, missing, remote);
      LayersAreOrigins(w, Named(requested));
      var lost := SumMultiplicity(requested, multiplicity, Unanswered(missing, remote));
      failed := failed + lost;
      results := results + remote;
    }
  }

  function Unanswered(chunks: set<Hash>, results: Results): (none: set<Hash>)
    ensures none <= chunks
  {
    set h | h in chunks && h in results && results[h].None?
  }

  predicate IsLocal(w: World, h: Hash)
  {
    w.FromStore(w.local, h).Some? || w.FromP2p(h).Some?
  }

  ghost function Missing(w: World, chunks: set<Hash>): (missing: set<Hash>)
    ensures missing <= chunks
  {
    set h | h in chunks && !IsLocal(w, h)
  }

  ghost function LocalResults(w: World, chunks: set<Hash>): Results
  {
    map h | h in chunks && IsLocal(w, h) :: w.Resolve(h)
  }

  lemma NothingLocalYet(w: World, requested: seq<Hash>)
    ensures Missing(w, {}) == {} && LocalResults(w, {}) == map[]
    ensures Tally(requested, Within(w, {}, LocalCas)) == 0 && Tally(requested, Within(w, {}, LocalP2p)) == 0
  {
    TallyEmpty(requested);
    assert Within(w, {}, LocalCas) == {} && Within(w, {}, LocalP2p) == {};
  }

  lemma WithinStep(w: World, requested: seq<Hash>, done: set<Hash>, h: Hash, o: Origin)
    requires h !in done
    ensures Tally(requested, Within(w, done + {h}, o))
            == Tally(requested, Within(w, done, o)) + if w.OriginOf(h) == o then Tally(requested, {h}) else 0
  {
    hide Tally;
    if w.OriginOf(h) == o {
      assert Within(w, done + {h}, o) == Within(w, done, o) + {h};
      TallyUnion(requested, Within(w, done, o), {h});
    } else {
      assert Within(w, done + {h}, o) == Within(w, done, o);
    }
  }

  lemma LocalStep(w: World, requested: seq<Hash>, done: set<Hash>, h: Hash)
    requires h !in done
    ensures var raw, other := w.FromStore(w.local, h), w.FromP2p(h);
            && Missing(w, done + {h}) == (if raw.Some? || other.Some? then Missing(w, done) else Missing(w, done) + {h})
            && LocalResults(w, done + {h}) == (if raw.Some? then LocalResults(w, done)[h := raw]
                                               else if other.Some? then LocalResults(w, done)[h := other]
                                               else LocalResults(w, done))
            && Tally(requested, Within(w, done + {h}, LocalCas))
               == Tally(requested, Within(w, done, LocalCas)) + (if raw.Some? then Tally(requested, {h}) else 0)
            && Tally(requested, Within(w, done + {h}, LocalP2p))
               == Tally(requested, Within(w, done, LocalP2p)) + if raw.None? && other.Some? then Tally(requested, {h}) else 0
  {
    hide Tally;
    WithinStep(w, requested, done, h, LocalCas);
    WithinStep(w, requested, done, h, LocalP2p);
  }

  ghost function ReplicaResults(w: World, missing: set<Hash>): Results
  {
    map h | h in missing :: w.FromReplicas(h)
  }

  ghost function Replicated(w: World, missing: set<Hash>): set<Hash>
  {
    set h | h in missing && w.FromReplicas(h).Some?
  }

  ghost function Remote(w: World, h: Hash): Option<Bytes>
  {
    if w.FromReplicas(h).Some? then w.FromReplicas(h) else w.FromEc(h)
  }

  /** Results after erasure recovery has looked at the chunks in done. */
  ghost function RemoteResults(w: World, missing: set<Hash>, done: set<Hash>): Results
  {
    map h | h in missing :: if h in done then Remote(w, h) else w.FromReplicas(h)
  }

  ghost function FromPacks(w: World, done: set<Hash>): set<Hash>
  {
    set h | h in done && w.FromReplicas(h).None? && w.FromEc(h).Some?
  }

  lemma NoPacksYet(w: World, requested: seq<Hash>, missing: set<Hash>)
    ensures RemoteResults(w, missing, {}) == ReplicaResults(w, missing) && Tally(requested, FromPacks(w, {})) == 0
  {
    TallyEmpty(requested);
    assert FromPacks(w, {}) == {};
  }

  lemma PackStep(w: World, requested: seq<Hash>, missing: set<Hash>, done: set<Hash>, h: Hash)
    requires h in missing && h !in done
    ensures var before := RemoteResults(w, missing, done);
            var helps := before[h].None? && w.ec.Some? && w.ec.value(h).Recovered?;
            && h in before
            && RemoteResults(w, missing, done + {h}) == (if helps then before[h := Some(w.ec.value(h).raw)] else before)
            && Tally(requested, FromPacks(w, done + {h}))
               == Tally(requested, FromPacks(w, done)) + if helps then Tally(requested, {h}) else 0
  {
    hide Tally;
    if w.FromReplicas(h).None? && w.FromEc(h).Some? {
      assert FromPacks(w, done + {h}) == FromPacks(w, done) + {h};
      TallyUnion(requested, FromPacks(w, done), {h});
    } else {
      assert FromPacks(w, done + {h}) == FromPacks(w, done);
    }
  }

  /** The sets the layers work on are the sets of the origins. */
  lemma LayersAreOrigins(w: World, all: set<Hash>)
    ensures var missing := Missing(w, all);
            && Replicated(w, missing) == Within(w, all, Replication)
            && FromPacks(w, missing) == Within(w, all, Erasure)
            && Unanswered(missing, RemoteResults(w, missing, missing)) == Within(w, all, Nowhere)
            && LocalResults(w, all) + RemoteResults(w, missing, missing) == map h | h in all :: w.Resolve(h)
  {
  }

  method CountRequests(requested: seq<Hash>) returns (multiplicity: map<Hash, nat>)
    ensures Counts(requested, multiplicity)
  {
    multiplicity := map[];
    for i := 0 to |requested|
      invariant Counts(requested[..i], multiplicity)
    {
      var h := requested[i];
      CountsStep(requested, i, multiplicity);
      multiplicity := multiplicity[h := (if h in multiplicity then multiplicity[h] else 0) + 1];
    }
    assert requested[..|requested|] == requested;
  }

  lemma CountsStep(requested: seq<Hash>, i: nat, multiplicity: map<Hash, nat>)
    requires i < |requested| && Counts(requested[..i], multiplicity)
    ensures var h := requested[i];
            Counts(requested[..i + 1], multiplicity[h := (if h in multiplicity then multiplicity[h] else 0) + 1])
  {
    var h := requested[i];
    assert requested[..i + 1] == requested[..i] + [h];
    assert requested[..i + 1][..i] == requested[..i];
    if h !in multiplicity {
      TallyAbsent(requested[..i], h);
    }
  }

  lemma {:induction false} TallyAbsent(requested: seq<Hash>, h: Hash)
    requires h !in requested
    ensures Tally(requested, {h}) == 0
  {
    if requested != [] {
      TallyAbsent(requested[..|requested| - 1], h);
    }
  }

  method SumMultiplicity(requested: seq<Hash>, multiplicity: map<Hash, nat>, chunks: set<Hash>) returns (n: nat)
    requires Counts(requested, multiplicity) && chunks <= Named(requested)
    ensures n == Tally(requested, chunks)
  {
    hide Tally;
    n := 0;
    var todo := chunks;
    ghost var done: set<Hash> := {};
    TallyEmpty(requested);
    while todo != {}
      invariant todo <= chunks && done == chunks - todo && n == Tally(requested, done)
      decreases |todo|
    {
      var h :| h in todo;
      TallyUnion(requested, done, {h});
      n := n + multiplicity[h];
      todo, done := todo - {h}, done + {h};
    }
    assert done == chunks;
  }

  /** The longest target list among the chunks. */
  method Deepest(w: World, open: set<Hash>) returns (depth: nat)
    ensures forall h :: h in open ==> |w.targets(h)| <= depth
  {
    depth := 0;
    var todo := open;
    while todo != {}
      invariant todo <= open && forall h :: h in open - todo ==> |w.targets(h)| <= depth
      decreases |todo|
    {
      var h :| h in todo;
      todo := todo - {h};
      depth := Max(depth, |w.targets(h)|);
    }
  }

  /** An answer, once found, stays the answer. */
  lemma {:induction false} AnswerStays(w: World, h: Hash, k: nat, m: nat)
    requires k <= m && w.FromRanks(h, k).Some?
    ensures w.FromRanks(h, m) == w.FromRanks(h, k)
  {
    if k < m {
      AnswerStays(w, h, k, m - 1);
    }
  }

  lemma BeforeRounds(w: World, missing: set<Hash>)
    ensures OpenAt(w, missing, 0) == set h | h in missing && w.targets(h) != []
    ensures KnownAt(w, missing, 0) == map h | h in missing && w.targets(h) == [] :: None
    ensures RecoveredAt(w, missing, 0) == {}
  {
  }

  /** Once the lists of all open chunks are used up, the state of the rounds is the answer. */
  lemma AfterRounds(w: World, missing: set<Hash>, rank: nat)
    requires w.remoteRecovery && w.replication
    requires forall h :: h in OpenAt(w, missing, rank) ==> |w.targets(h)| <= rank
    ensures KnownAt(w, missing, rank) + (map h | h in OpenAt(w, missing, rank) :: None) == ReplicaResults(w, missing)
    ensures RecoveredAt(w, missing, rank) == Replicated(w, missing)
  {
    forall h | h in missing ensures w.FromRanks(h, rank) == w.FromReplicas(h) {
      if |w.targets(h)| <= rank {
        RanksExhausted(w, h, rank);
      } else {
        AnswerStays(w, h, rank, |w.targets(h)|);
      }
    }
  }
}
