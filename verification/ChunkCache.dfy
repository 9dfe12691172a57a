/** The caches backup workers share, and the decisions taken with them. */
module ChunkCache {
  import opened Prelude
  import opened ProtectionPolicy

  const SAMPLING := 1024

  /** A boolean cache that is emptied when it is found too full, which is looked at only every
      SAMPLING writes. */
  class FastBoolCache {
    const maxItems: nat
    var data: map<Hash, bool>
    var writeOps: nat

    /** Between two looks the cache may grow by one entry for each write. */
    ghost predicate Bounded()
      reads this
    {
      |data| <= maxItems + writeOps % SAMPLING
    }

    constructor (maxItems: int)
      ensures this.maxItems == Max(maxItems, 1) && data == map[] && writeOps == 0 && Bounded()
    {
      this.maxItems := Max(maxItems, 1);
      data, writeOps := map[], 0;
    }

    method Get(key: Hash) returns (value: Option<bool>)
      ensures value == if key in data then Some(data[key]) else None
    {
      value := if key in data then Some(data[key]) else None;
    }

    /** Either the entry is added, or the whole cache is dropped. */
    method Set(key: Hash, value: bool)
      requires Bounded()
      modifies this`data, this`writeOps
      ensures Bounded()
      ensures data == old(data)[key := value] || data == map[]
      ensures data == map[] <==> (old(writeOps) + 1) % SAMPLING == 0 && |old(data)[key := value]| > maxItems
      ensures writeOps == if data == map[] then 0 else old(writeOps) + 1
    {
      GrowsByOne(data, key, value);
      NextRemainder(writeOps);
      data := data[key := value];
      writeOps := writeOps + 1;
      assert key in data;
      if writeOps % SAMPLING == 0 && |data| > maxItems {
        data := map[];
        writeOps := 0;
      }
    }

    method Clear()
      modifies this`data, this`writeOps
      ensures data == map[] && writeOps == 0 && Bounded()
    {
      data, writeOps := map[], 0;
    }
  }

  lemma GrowsByOne(data: map<Hash, bool>, key: Hash, value: bool)
    ensures |data[key := value]| <= |data| + 1
  {
    var keys := data.Keys;
    assert data[key := value].Keys == keys + {key};
    assert |data| == |keys| && |data[key := value]| == |data[key := value].Keys|;
    if key in keys {
      assert keys + {key} == keys;
    }
  }

  lemma NextRemainder(n: nat)
    ensures (n + 1) % SAMPLING == if n % SAMPLING == SAMPLING - 1 then 0 else n % SAMPLING + 1
  {
  }

  // ---------------------------------------------------------------- decisions

  datatype Decision = Process | SkipLocal | SkipSynced

  datatype Policy = Policy(fastPath: bool, safeMode: bool, allowRemote: bool, rf: nat, epoch: Option<Epoch>)

  predicate Evidence(policy: Policy, rows: map<Hash, Record>, key: Hash)
  {
    Sufficient(if key in rows then Some(rows[key]) else None, policy.rf, policy.epoch)
  }

  /** The decision by looking at the store and the catalog, without any cache. */
  function Uncached(policy: Policy, present: set<Hash>, rows: map<Hash, Record>, key: Hash): Decision
  {
    if policy.safeMode || !policy.fastPath then Process
    else if key in present then SkipLocal
    else if policy.allowRemote && Evidence(policy, rows, key) then SkipSynced
    else Process
  }

  /** What the caches hold is true of the store and of the catalog. */
  ghost predicate Agrees(data: map<Hash, bool>, present: iset<Hash>)
  {
    forall k :: k in data ==> (data[k] <==> k in present)
  }

  ghost function Protected(policy: Policy, rows: map<Hash, Record>): iset<Hash>
  {
    iset k: Hash | Evidence(policy, rows, k)
  }

  ghost function Stored(present: set<Hash>): iset<Hash>
  {
    iset k: Hash | k in present
  }

  /** Asks the cache first and remembers what the store says. */
  method ExistsLocal(present: set<Hash>, key: Hash, local: FastBoolCache) returns (here: bool)
    requires local.Bounded() && Agrees(local.data, Stored(present))
    modifies local`data, local`writeOps
    ensures here == (key in present)
    ensures local.Bounded() && Agrees(local.data, Stored(present))
  {
    var cached := local.Get(key);
    if cached.Some? {
      return cached.value;
    }
    here := key in present;
    local.Set(key, here);
  }

  method IsRemotelyProtected(policy: Policy, rows: map<Hash, Record>, key: Hash, remote: FastBoolCache) returns (yes: bool)
    requires remote.Bounded() && Agrees(remote.data, Protected(policy, rows))
    modifies remote`data, remote`writeOps
    ensures yes == Evidence(policy, rows, key)
    ensures remote.Bounded() && Agrees(remote.data, Protected(policy, rows))
  {
    hide Evidence;
    var cached := remote.Get(key);
    if cached.Some? {
      return cached.value;
    }
    yes := Evidence(policy, rows, key);
    remote.Set(key, yes);
  }

  /** With a single worker the cached decision is the uncached one, and the caches stay true. */
  method Decide(policy: Policy, present: set<Hash>, rows: map<Hash, Record>, key: Hash, local: FastBoolCache, remote: FastBoolCache)
    returns (d: Decision)
    requires local != remote && local.Bounded() && remote.Bounded()
    requires Agrees(local.data, Stored(present)) && Agrees(remote.data, Protected(policy, rows))
    modifies local`data, local`writeOps, remote`data, remote`writeOps
    ensures d == Uncached(policy, present, rows, key)
    ensures local.Bounded() && remote.Bounded()
    ensures Agrees(local.data, Stored(present)) && Agrees(remote.data, Protected(policy, rows))
  {
    hide Evidence, Agrees;
    if policy.safeMode || !policy.fastPath {
      return Process;
    }
    var known := ExistsLocal(present, key, local);
    if known {
      return SkipLocal;
    }
    if policy.allowRemote {
      var protected := IsRemotelyProtected(policy, rows, key, remote);
      if protected {
        return SkipSynced;
      }
    }
    return Process;
  }

  /** After a chunk has been put, its entry is overwritten, so a worker sees its own writes. */
  method NotePut(ghost present: set<Hash>, key: Hash, local: FastBoolCache)
    requires local.Bounded() && Agrees(local.data, Stored(present))
    modifies local`data, local`writeOps
    ensures local.Bounded() && Agrees(local.data, Stored(present + {key}))
  {
    local.Set(key, true);
  }
}
