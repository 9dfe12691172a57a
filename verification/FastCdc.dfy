/** Content-defined cut points: the rolling Gear scan of the native iterator, the cut sequence
    it produces, and how that sequence reacts to edits of the data. */
module FastCdc {
  import opened Prelude
  import opened GearMasks

  const WORD: nat := 0x1_0000_0000_0000_0000

  type Word = w: int | 0 <= w < WORD

  type GearTable = g: seq<Word> | |g| == 256 witness seq(256, i => 0)

  /** Sizes and masks of one iterator. Every property holds for every Gear table. */
  datatype Params = Params(min: nat, avg: nat, max: nat, masks: Masks, gear: GearTable)
  {
    ghost predicate Valid()
    {
      && 1 <= min <= avg <= max
      && masks.pre < Pow2(WINDOW_BITS) && masks.post < Pow2(WINDOW_BITS)
    }
  }

  /** One rolling step in 64-bit arithmetic. */
  function Roll(fp: Word, b: Byte, gear: GearTable): Word
  {
    (2 * fp + gear[b]) % WORD
  }

  /** The fingerprint of a run of bytes, computed from scratch. */
  function Fingerprint(s: Bytes, gear: GearTable): Word
  {
    if s == [] then 0 else Roll(Fingerprint(s[..|s| - 1], gear), s[|s| - 1], gear)
  }

  /** The selective mask rules below the average size, the relaxed one from there on. */
  function MaskAt(p: Params, length: nat): nat
  {
    if length < p.avg then p.masks.pre else p.masks.post
  }

  function MaxSplit(data: Bytes, start: nat, p: Params): nat
  {
    Min(start + p.max, |data|)
  }

  /** Whether a chunk starting at start may end, by content, at c. */
  predicate Judged(data: Bytes, start: nat, c: nat, p: Params)
    requires p.min >= 1 && start + p.min <= c <= |data|
  {
    AndIsZero(Fingerprint(data[start + p.min - 1..c], p.gear), MaskAt(p, c - start))
  }

  /** What the end of a chunk is, without reference to any scan: the first position judged a
      cut in [start + min, limit), or limit when there is none. */
  ghost predicate IsChunkEnd(data: Bytes, start: nat, c: nat, p: Params)
    requires p.Valid() && start + p.min < |data|
  {
    && start + p.min <= c <= MaxSplit(data, start, p)
    && (c < MaxSplit(data, start, p) ==> Judged(data, start, c, p))
    && forall d :: start + p.min <= d < c ==> !Judged(data, start, d, p)
  }

  function FirstCut(data: Bytes, start: nat, c: nat, p: Params): nat
    requires p.min >= 1 && start + p.min <= c <= MaxSplit(data, start, p)
    decreases MaxSplit(data, start, p) - c
  {
    if c == MaxSplit(data, start, p) then c
    else if Judged(data, start, c, p) then c
    else FirstCut(data, start, c + 1, p)
  }

  lemma {:induction false} FirstCutIsChunkEnd(data: Bytes, start: nat, c: nat, p: Params)
    requires p.Valid() && start + p.min < |data|
    requires start + p.min <= c <= MaxSplit(data, start, p)
    requires forall d :: start + p.min <= d < c ==> !Judged(data, start, d, p)
    ensures IsChunkEnd(data, start, FirstCut(data, start, c, p), p)
    decreases MaxSplit(data, start, p) - c
  {
    hide AndIsZero, Fingerprint, Roll;
    if c < MaxSplit(data, start, p) && !Judged(data, start, c, p) {
      FirstCutIsChunkEnd(data, start, c + 1, p);
    }
  }

  /** The next cut after start. */
  function NextSplit(data: Bytes, start: nat, p: Params): (c: nat)
    requires 1 <= p.min <= p.max && start < |data|
  {
    if |data| - start <= p.min then |data| else FirstCut(data, start, start + p.min, p)
  }

  lemma NextSplitBounds(data: Bytes, start: nat, p: Params)
    requires p.Valid() && start < |data|
    ensures start < NextSplit(data, start, p) <= Min(start + p.max, |data|)
    ensures NextSplit(data, start, p) < |data| ==> start + p.min <= NextSplit(data, start, p)
    ensures |data| - start > p.min ==> IsChunkEnd(data, start, NextSplit(data, start, p), p)
  {
    if |data| - start > p.min {
      FirstCutIsChunkEnd(data, start, start + p.min, p);
    }
  }

  // ---------------------------------------------------------------- the native iterator

  /** The two scanning loops, one fingerprint carried through both. */
  method NextBoundary(data: Bytes, start: nat, p: Params) returns (c: nat)
    requires p.Valid() && start + p.min < |data|
    ensures c == NextSplit(data, start, p)
  {
    hide AndIsZero, Roll, FirstCut, Fingerprint, MaskAt;
    var maxSplit := start + p.max;
    if maxSplit > |data| {
      maxSplit := |data|;
    }
    var normalSplit := start + p.avg;
    if normalSplit > maxSplit {
      normalSplit := maxSplit;
    }
    assert maxSplit == MaxSplit(data, start, p);
    c := start + p.min;
    var fp: Word := 0;
    ghost var answer := FirstCut(data, start, c, p);
    assert data[c - 1..c - 1] == [];
    NothingAbsorbed(p);
    while c < normalSplit
      invariant start + p.min <= c <= maxSplit
      invariant fp == Fingerprint(data[start + p.min - 1..c - 1], p.gear)
      invariant answer == FirstCut(data, start, c, p)
    {
      ScanStep(data, start, c, fp, p);
      MaskBySize(p, c - start);
      fp := Roll(fp, data[c - 1], p.gear);
      if AndIsZero(fp, p.masks.pre) {
        return;
      }
      c := c + 1;
    }
    while c < maxSplit
      invariant start + p.min <= c <= maxSplit && c >= normalSplit
      invariant fp == Fingerprint(data[start + p.min - 1..c - 1], p.gear)
      invariant answer == FirstCut(data, start, c, p)
    {
      ScanStep(data, start, c, fp, p);
      MaskBySize(p, c - start);
      fp := Roll(fp, data[c - 1], p.gear);
      if AndIsZero(fp, p.masks.post) {
        return;
      }
      c := c + 1;
    }
    ScanEnds(data, start, p);
  }

  lemma NothingAbsorbed(p: Params)
    ensures Fingerprint([], p.gear) == 0
  {
  }

  lemma MaskBySize(p: Params, size: nat)
    ensures MaskAt(p, size) == if size < p.avg then p.masks.pre else p.masks.post
  {
  }

  lemma ScanEnds(data: Bytes, start: nat, p: Params)
    requires p.Valid() && start + p.min < |data|
    ensures FirstCut(data, start, MaxSplit(data, start, p), p) == MaxSplit(data, start, p)
  {
  }

  /** One turn of either loop: the rolled fingerprint is the one computed from scratch, and it
      decides whether the scan stops at c. */
  lemma ScanStep(data: Bytes, start: nat, c: nat, fp: Word, p: Params)
    requires p.min >= 1 && start + p.min <= c < MaxSplit(data, start, p)
    requires fp == Fingerprint(data[start + p.min - 1..c - 1], p.gear)
    ensures Roll(fp, data[c - 1], p.gear) == Fingerprint(data[start + p.min - 1..c], p.gear)
    ensures FirstCut(data, start, c, p)
            == if AndIsZero(Roll(fp, data[c - 1], p.gear), MaskAt(p, c - start)) then c
               else FirstCut(data, start, c + 1, p)
  {
    FingerprintExtends(data, start + p.min - 1, c, p);
  }

  lemma FingerprintExtends(data: Bytes, lo: nat, c: nat, p: Params)
    requires lo < c <= |data|
    ensures Fingerprint(data[lo..c], p.gear) == Roll(Fingerprint(data[lo..c - 1], p.gear), data[c - 1], p.gear)
  {
    assert data[lo..c][..c - lo - 1] == data[lo..c - 1];
  }

  /** All cuts after start, the last one at the end of the data. */
  function CutsFrom(data: Bytes, start: nat, p: Params): (cuts: seq<nat>)
    requires p.Valid() && start <= |data|
    decreases |data| - start
  {
    if start == |data| then []
    else
      NextSplitBounds(data, start, p);
      var c := NextSplit(data, start, p);
      [c] + CutsFrom(data, c, p)
  }

  /** The lazy iterator: each call advances last_split to the next cut, or reports the end. */
  class BoundaryIterator {
    const data: Bytes
    const p: Params
    var lastSplit: nat

    ghost predicate Valid()
      reads this
    {
      p.Valid() && lastSplit <= |data|
    }

    /** The cuts still to be delivered. */
    ghost function Remaining(): seq<nat>
      requires Valid()
      reads this
    {
      CutsFrom(data, lastSplit, p)
    }

    constructor (data: Bytes, p: Params)
      requires p.Valid()
      ensures Valid() && this.data == data && this.p == p
      ensures lastSplit == 0 && Remaining() == CutsFrom(data, 0, p)
    {
      this.data := data;
      this.p := p;
      this.lastSplit := 0;
    }

    method Next() returns (r: Option<nat>)
      requires Valid()
      modifies this
      ensures Valid()
      ensures old(lastSplit) == |data| ==> r == None && lastSplit == |data|
      ensures old(lastSplit) < |data| ==>
                r == Some(NextSplit(data, old(lastSplit), p)) && lastSplit == r.value
      ensures old(Remaining()) == (if r.None? then [] else [r.value]) + Remaining()
    {
      if lastSplit >= |data| {
        return None;
      }
      NextSplitBounds(data, lastSplit, p);
      if |data| - lastSplit <= p.min {
        lastSplit := |data|;
        return Some(|data|);
      }
      var split := NextBoundary(data, lastSplit, p);
      lastSplit := split;
      return Some(split);
    }
  }

  // ---------------------------------------------------------------- partition and bounds

  /** The chunk contents cut out by CutsFrom. */
  function ChunksFrom(data: Bytes, start: nat, p: Params): (chunks: seq<Bytes>)
    requires p.Valid() && start <= |data|
    decreases |data| - start
  {
    if start == |data| then []
    else
      NextSplitBounds(data, start, p);
      var c := NextSplit(data, start, p);
      [data[start..c]] + ChunksFrom(data, c, p)
  }

  /** Start of the i-th chunk. */
  function ChunkStart(cuts: seq<nat>, start: nat, i: nat): nat
    requires i <= |cuts|
  {
    if i == 0 then start else cuts[i - 1]
  }

  /** Cuts strictly increase and end at the end of the data; every chunk but the last has a
      length in [min, max] and the last one in (0, max]. */
  ghost predicate GoodCuts(cuts: seq<nat>, start: nat, end: nat, p: Params)
  {
    && (start < end ==> cuts != [] && cuts[|cuts| - 1] == end)
    && (forall i {:trigger ChunkStart(cuts, start, i)} :: 0 <= i < |cuts| ==>
          && ChunkStart(cuts, start, i) < cuts[i] <= end
          && cuts[i] <= ChunkStart(cuts, start, i) + p.max
          && (i < |cuts| - 1 ==> ChunkStart(cuts, start, i) + p.min <= cuts[i]))
  }

  lemma {:induction false} CutsBounds(data: Bytes, start: nat, p: Params)
    requires p.Valid() && start <= |data|
    ensures GoodCuts(CutsFrom(data, start, p), start, |data|, p)
    decreases |data| - start
  {
    hide AndIsZero, Fingerprint, Roll;
    if start < |data| {
      NextSplitBounds(data, start, p);
      var c := NextSplit(data, start, p);
      CutsBounds(data, c, p);
      GoodCutsCons(c, CutsFrom(data, c, p), start, |data|, p);
    }
  }

  lemma GoodCutsCons(c: nat, rest: seq<nat>, start: nat, end: nat, p: Params)
    requires start < c <= end && c <= start + p.max && (c < end ==> start + p.min <= c)
    requires GoodCuts(rest, c, end, p) && (c == end ==> rest == [])
    ensures GoodCuts([c] + rest, start, end, p)
  {
    var cuts := [c] + rest;
    assert cuts[|cuts| - 1] == end by {
      assert cuts[|cuts| - 1] == if rest == [] then c else rest[|rest| - 1];
    }
    forall i {:trigger ChunkStart(cuts, start, i)} | 0 <= i < |cuts|
      ensures ChunkStart(cuts, start, i) < cuts[i] <= end
      ensures cuts[i] <= ChunkStart(cuts, start, i) + p.max
      ensures i < |cuts| - 1 ==> ChunkStart(cuts, start, i) + p.min <= cuts[i]
    {
      if i > 0 {
        assert cuts[i] == rest[i - 1] && ChunkStart(cuts, start, i) == ChunkStart(rest, c, i - 1);
      }
    }
  }

  lemma {:induction false} ChunksNotEmpty(data: Bytes, start: nat, i: nat, p: Params)
    requires p.Valid() && start <= |data| && i < |ChunksFrom(data, start, p)|
    ensures ChunksFrom(data, start, p)[i] != []
    decreases |data| - start
  {
    hide NextSplit;
    NextSplitBounds(data, start, p);
    if i > 0 {
      ChunksNotEmpty(data, NextSplit(data, start, p), i - 1, p);
    }
  }

  /** The chunks concatenate to the data. */
  lemma {:induction false} ChunksConcatenate(data: Bytes, start: nat, p: Params)
    requires p.Valid() && start <= |data|
    ensures Flatten(ChunksFrom(data, start, p)) == data[start..]
    decreases |data| - start
  {
    hide AndIsZero, Fingerprint, Roll;
    if start < |data| {
      NextSplitBounds(data, start, p);
      var c := NextSplit(data, start, p);
      ChunksConcatenate(data, c, p);
      assert ChunksFrom(data, start, p)[1..] == ChunksFrom(data, c, p);
      assert data[start..c] + data[c..] == data[start..];
    }
  }

  /** Chunk i is the data between cut i-1 and cut i. */
  lemma {:induction false} ChunkIsSlice(data: Bytes, start: nat, i: nat, p: Params)
    requires p.Valid() && start <= |data| && i < |CutsFrom(data, start, p)|
    ensures |ChunksFrom(data, start, p)| == |CutsFrom(data, start, p)|
    ensures var cuts := CutsFrom(data, start, p);
            start <= ChunkStart(cuts, start, i) <= cuts[i] <= |data|
            && ChunksFrom(data, start, p)[i] == data[ChunkStart(cuts, start, i)..cuts[i]]
    decreases i
  {
    hide AndIsZero, Fingerprint, Roll;
    NextSplitBounds(data, start, p);
    ChunkCount(data, start, p);
    if i > 0 {
      ChunkIsSlice(data, NextSplit(data, start, p), i - 1, p);
    }
  }

  lemma {:induction false} ChunkCount(data: Bytes, start: nat, p: Params)
    requires p.Valid() && start <= |data|
    ensures |ChunksFrom(data, start, p)| == |CutsFrom(data, start, p)|
    decreases |data| - start
  {
    hide AndIsZero, Fingerprint, Roll;
    if start < |data| {
      NextSplitBounds(data, start, p);
      ChunkCount(data, NextSplit(data, start, p), p);
    }
  }

  // ---------------------------------------------------------------- locality

  /** The at most max bytes a chunk starting at start can consist of. */
  function Reach(data: Bytes, start: nat, p: Params): Bytes
    requires start <= |data|
  {
    data[start..MaxSplit(data, start, p)]
  }

  lemma SliceOfReach(data: Bytes, start: nat, k: nat, p: Params)
    requires 1 <= p.min <= k && start <= |data| && k <= |Reach(data, start, p)|
    ensures data[start + p.min - 1..start + k] == Reach(data, start, p)[p.min - 1..k]
  {
    SubSlice(data, start, MaxSplit(data, start, p), p.min - 1, k);
  }

  lemma {:induction false} FirstCutByReach(d1: Bytes, s1: nat, d2: Bytes, s2: nat, k: nat, p: Params)
    requires p.Valid() && s1 <= |d1| && s2 <= |d2|
    requires Reach(d1, s1, p) == Reach(d2, s2, p)
    requires p.min <= k <= |Reach(d1, s1, p)|
    ensures FirstCut(d1, s1, s1 + k, p) - s1 == FirstCut(d2, s2, s2 + k, p) - s2
    decreases |Reach(d1, s1, p)| - k
  {
    hide AndIsZero, Fingerprint, Roll;
    var r := Reach(d1, s1, p);
    if k < |r| {
      SliceOfReach(d1, s1, k, p);
      SliceOfReach(d2, s2, k, p);
      assert Judged(d1, s1, s1 + k, p) == Judged(d2, s2, s2 + k, p);
      FirstCutByReach(d1, s1, d2, s2, k + 1, p);
    }
  }

  /** The length of the next chunk is a function of the next max bytes alone, whatever comes
      before the chunk, whatever follows those bytes, and wherever in the file it starts. */
  lemma NextSplitByReach(d1: Bytes, s1: nat, d2: Bytes, s2: nat, p: Params)
    requires p.Valid() && s1 < |d1| && s2 < |d2|
    requires Reach(d1, s1, p) == Reach(d2, s2, p)
    ensures NextSplit(d1, s1, p) - s1 == NextSplit(d2, s2, p) - s2
  {
    hide AndIsZero, Fingerprint, Roll;
    var r := Reach(d1, s1, p);
    assert |r| == Min(p.max, |d1| - s1) == Min(p.max, |d2| - s2);
    if |d1| - s1 > p.min && |d2| - s2 > p.min {
      FirstCutByReach(d1, s1, d2, s2, p.min, p);
    }
  }

  /** Files that share a prefix reaching start + max have the same next cut after start. */
  lemma SharedPrefixNextCut(d1: Bytes, d2: Bytes, start: nat, p: Params)
    requires p.Valid()
    requires start + p.max <= |d1| && start + p.max <= |d2|
    requires d1[..start + p.max] == d2[..start + p.max]
    ensures NextSplit(d1, start, p) == NextSplit(d2, start, p)
  {
    assert Reach(d1, start, p) == d1[..start + p.max][start..];
    assert Reach(d2, start, p) == d2[..start + p.max][start..];
    NextSplitByReach(d1, start, d2, start, p);
  }

  /** Every chunk that starts at least max bytes before the end of a common prefix is a chunk
      of both files. */
  lemma {:induction false} SharedPrefixCuts(d1: Bytes, d2: Bytes, start: nat, shared: nat, i: nat, p: Params)
    requires p.Valid() && start <= shared <= |d1| && shared <= |d2|
    requires d1[..shared] == d2[..shared]
    requires i < |CutsFrom(d1, start, p)|
    requires ChunkStart(CutsFrom(d1, start, p), start, i) + p.max <= shared
    ensures i < |CutsFrom(d2, start, p)| && CutsFrom(d1, start, p)[i] == CutsFrom(d2, start, p)[i]
    decreases i
  {
    hide NextSplit, CutsFrom;
    StartsIncrease(d1, start, i, p);
    assert d1[..start + p.max] == d1[..shared][..start + p.max];
    assert d2[..start + p.max] == d2[..shared][..start + p.max];
    SharedPrefixNextCut(d1, d2, start, p);
    FirstCutOf(d1, start, p);
    FirstCutOf(d2, start, p);
    var c := NextSplit(d1, start, p);
    if i > 0 {
      StartsIncrease(d1, c, i - 1, p);
      SharedPrefixCuts(d1, d2, c, shared, i - 1, p);
    }
  }

  lemma FirstCutOf(data: Bytes, start: nat, p: Params)
    requires p.Valid() && start < |data|
    ensures start < NextSplit(data, start, p) <= |data|
    ensures CutsFrom(data, start, p) == [NextSplit(data, start, p)] + CutsFrom(data, NextSplit(data, start, p), p)
  {
    NextSplitBounds(data, start, p);
  }

  lemma {:induction false} StartsIncrease(data: Bytes, start: nat, i: nat, p: Params)
    requires p.Valid() && start <= |data| && i < |CutsFrom(data, start, p)|
    ensures start <= ChunkStart(CutsFrom(data, start, p), start, i)
    decreases i
  {
    hide AndIsZero, Fingerprint, Roll;
    if i > 0 {
      NextSplitBounds(data, start, p);
      StartsIncrease(data, NextSplit(data, start, p), i - 1, p);
    }
  }

  // ---------------------------------------------------------------- resynchronisation

  lemma {:induction false} SuffixDeterminesCuts(d1: Bytes, s1: nat, d2: Bytes, s2: nat, p: Params)
    requires p.Valid() && s1 <= |d1| && s2 <= |d2|
    requires d1[s1..] == d2[s2..]
    ensures |CutsFrom(d1, s1, p)| == |CutsFrom(d2, s2, p)|
    ensures forall i :: 0 <= i < |CutsFrom(d1, s1, p)| ==>
              CutsFrom(d1, s1, p)[i] - s1 == CutsFrom(d2, s2, p)[i] - s2
    ensures ChunksFrom(d1, s1, p) == ChunksFrom(d2, s2, p)
    decreases |d1| - s1
  {
    hide Judged, FirstCut, NextSplit;
    assert |d1| - s1 == |d2| - s2;
    if s1 < |d1| {
      var n := Min(p.max, |d1| - s1);
      assert Reach(d1, s1, p) == d1[s1..][..n];
      assert Reach(d2, s2, p) == d2[s2..][..n];
      NextSplitByReach(d1, s1, d2, s2, p);
      NextSplitBounds(d1, s1, p);
      NextSplitBounds(d2, s2, p);
      var c1, c2 := NextSplit(d1, s1, p), NextSplit(d2, s2, p);
      assert d1[c1..] == d1[s1..][c1 - s1..];
      assert d2[c2..] == d2[s2..][c2 - s2..];
      assert d1[s1..c1] == d1[s1..][..c1 - s1];
      assert d2[s2..c2] == d2[s2..][..c2 - s2];
      SuffixDeterminesCuts(d1, c1, d2, c2, p);
    }
  }

  /** Scanning from any cut yields the rest of the same cut sequence. */
  lemma {:induction false} CutsResume(data: Bytes, start: nat, i: nat, p: Params)
    requires p.Valid() && start <= |data| && i < |CutsFrom(data, start, p)|
    ensures CutsFrom(data, start, p)[i] <= |data|
    ensures CutsFrom(data, start, p)[i + 1..] == CutsFrom(data, CutsFrom(data, start, p)[i], p)
    ensures |ChunksFrom(data, start, p)| == |CutsFrom(data, start, p)|
    ensures ChunksFrom(data, start, p)[i + 1..] == ChunksFrom(data, CutsFrom(data, start, p)[i], p)
    decreases i
  {
    hide AndIsZero, Fingerprint, Roll;
    ChunkCount(data, start, p);
    CutsBounds(data, start, p);
    NextSplitBounds(data, start, p);
    var c := NextSplit(data, start, p);
    assert CutsFrom(data, start, p)[1..] == CutsFrom(data, c, p);
    assert ChunksFrom(data, start, p)[1..] == ChunksFrom(data, c, p);
    if i > 0 {
      CutsResume(data, c, i - 1, p);
      assert CutsFrom(data, start, p)[i + 1..] == CutsFrom(data, c, p)[i..];
      assert ChunksFrom(data, start, p)[i + 1..] == ChunksFrom(data, c, p)[i..];
    }
  }

  /** Once two files agree from a cut of the one and a cut of the other onward, all later cuts
      coincide up to the shift and all later chunks are the same bytes. */
  lemma Resynchronise(d1: Bytes, i1: nat, d2: Bytes, i2: nat, p: Params)
    requires p.Valid()
    requires i1 < |CutsFrom(d1, 0, p)| && i2 < |CutsFrom(d2, 0, p)|
    requires CutsFrom(d1, 0, p)[i1] <= |d1| && CutsFrom(d2, 0, p)[i2] <= |d2|
    requires d1[CutsFrom(d1, 0, p)[i1]..] == d2[CutsFrom(d2, 0, p)[i2]..]
    ensures var cuts1, cuts2 := CutsFrom(d1, 0, p), CutsFrom(d2, 0, p);
            && |cuts1| - i1 == |cuts2| - i2
            && forall k :: i1 <= k < |cuts1| ==> cuts1[k] + cuts2[i2] == cuts2[k - i1 + i2] + cuts1[i1]
    ensures |ChunksFrom(d1, 0, p)| == |CutsFrom(d1, 0, p)|
    ensures |ChunksFrom(d2, 0, p)| == |CutsFrom(d2, 0, p)|
    ensures ChunksFrom(d1, 0, p)[i1 + 1..] == ChunksFrom(d2, 0, p)[i2 + 1..]
  {
    hide NextSplit, CutsFrom, ChunksFrom;
    var cuts1, cuts2 := CutsFrom(d1, 0, p), CutsFrom(d2, 0, p);
    CutsResume(d1, 0, i1, p);
    CutsResume(d2, 0, i2, p);
    var rest1, rest2 := cuts1[i1 + 1..], cuts2[i2 + 1..];
    SuffixDeterminesCuts(d1, cuts1[i1], d2, cuts2[i2], p);
    forall k | i1 <= k < |cuts1|
      ensures cuts1[k] + cuts2[i2] == cuts2[k - i1 + i2] + cuts1[i1]
    {
      if k > i1 {
        assert cuts1[k] == rest1[k - i1 - 1];
        assert cuts2[k - i1 + i2] == rest2[k - i1 - 1];
      }
    }
  }

  /** Replacing the middle of a file: the chunks that start max bytes or more before the edit
      are kept where they are, and from any pair of corresponding cuts behind the edit on, the
      chunks are kept too. */
  lemma EditIsLocal(before: Bytes, x: Bytes, y: Bytes, after: Bytes, i: nat, i1: nat, i2: nat, p: Params)
    requires p.Valid()
    requires var d1, d2 := before + x + after, before + y + after;
             var cuts1, cuts2 := CutsFrom(d1, 0, p), CutsFrom(d2, 0, p);
             && i < |cuts1| && ChunkStart(cuts1, 0, i) + p.max <= |before|
             && i1 < |cuts1| && i2 < |cuts2|
             && |before + x| <= cuts1[i1] <= |d1|
             && cuts2[i2] - |before + y| == cuts1[i1] - |before + x|
    ensures var d1, d2 := before + x + after, before + y + after;
            && i < |CutsFrom(d2, 0, p)| && CutsFrom(d1, 0, p)[i] == CutsFrom(d2, 0, p)[i]
            && |ChunksFrom(d1, 0, p)| > i1 && |ChunksFrom(d2, 0, p)| > i2
            && ChunksFrom(d1, 0, p)[i1 + 1..] == ChunksFrom(d2, 0, p)[i2 + 1..]
  {
    hide AndIsZero, Fingerprint, Roll;
    var d1, d2 := before + x + after, before + y + after;
    assert d1[..|before|] == before == d2[..|before|];
    SharedPrefixCuts(d1, d2, 0, |before|, i, p);
    var off := CutsFrom(d1, 0, p)[i1] - |before + x|;
    assert d1[|before + x| + off..] == after[off..];
    assert d2[|before + y| + off..] == after[off..];
    Resynchronise(d1, i1, d2, i2, p);
  }

  // ---------------------------------------------------------------- Gear window

  lemma {:induction false} WordIsPow2(j: nat)
    requires j <= 64
    ensures WORD == Pow2(64) && WORD % Pow2(j) == 0
  {
    HighPowers();
    assert Pow2(52) == 0x10_0000_0000_0000;
    assert Pow2(60) == 0x1000_0000_0000_0000;
    assert Pow2(64) == WORD;
    Pow2Divides(j, 64);
  }

  lemma {:induction false} Pow2Divides(a: nat, b: nat)
    requires a <= b
    ensures Pow2(b) % Pow2(a) == 0
  {
    if a < b {
      Pow2Divides(a, b - 1);
      var q := Pow2(b - 1) / Pow2(a);
      assert Pow2(b - 1) == q * Pow2(a) + Pow2(b - 1) % Pow2(a);
      assert Pow2(b) == (2 * q) * Pow2(a) + 0;
      ModUnique(Pow2(b), Pow2(a), 2 * q, 0);
    } else {
      ModUnique(Pow2(a), Pow2(a), 1, 0);
    }
  }

  /** Reducing modulo a multiple first does not change the residue. */
  lemma ModOfMod(a: nat, big: nat, small: nat)
    requires small > 0 && big > 0 && big % small == 0
    ensures (a % big) % small == a % small
  {
    var q, r := a / big, a % big;
    var k := big / small;
    assert big == k * small;
    assert a == q * (k * small) + r;
    assert r == (r / small) * small + r % small;
    assert a == (q * k + r / small) * small + r % small;
    ModUnique(a, small, q * k + r / small, r % small);
  }

  /** One rolling step turns agreement on the low j-1 bits into agreement on the low j bits. */
  lemma RollLowBits(f: Word, g: Word, b: Byte, gear: GearTable, j: nat)
    requires 0 < j <= 64 && f % Pow2(j - 1) == g % Pow2(j - 1)
    ensures Roll(f, b, gear) % Pow2(j) == Roll(g, b, gear) % Pow2(j)
  {
    WordIsPow2(j);
    var t := gear[b];
    ModOfMod(2 * f + t, WORD, Pow2(j));
    ModOfMod(2 * g + t, WORD, Pow2(j));
    DoubleResidue(f, t, Pow2(j - 1));
    DoubleResidue(g, t, Pow2(j - 1));
  }

  /** 2f + t modulo 2m depends on f only through f modulo m. */
  lemma DoubleResidue(f: nat, t: nat, m: nat)
    requires m > 0
    ensures (2 * f + t) % (2 * m) == (2 * (f % m) + t) % (2 * m)
  {
    var z := 2 * (f % m) + t;
    var q, r := z / (2 * m), z % (2 * m);
    assert z == q * (2 * m) + r;
    assert f == (f / m) * m + f % m;
    assert 2 * f + t == (f / m) * (2 * m) + z;
    assert 2 * f + t == (f / m + q) * (2 * m) + r;
    ModUnique(2 * f + t, 2 * m, f / m + q, r);
  }

  lemma {:induction false} FingerprintForgets(u: Bytes, v: Bytes, w: Bytes, gear: GearTable)
    requires |w| <= 64
    ensures Fingerprint(u + w, gear) % Pow2(|w|) == Fingerprint(v + w, gear) % Pow2(|w|)
    decreases |w|
  {
    if w != [] {
      var n := |w| - 1;
      assert (u + w)[..|u + w| - 1] == u + w[..n] && (v + w)[..|v + w| - 1] == v + w[..n];
      FingerprintForgets(u, v, w[..n], gear);
      RollLowBits(Fingerprint(u + w[..n], gear), Fingerprint(v + w[..n], gear), w[n], gear, |w|);
    }
  }

  /** The Gear window: once 48 bytes have been absorbed, the judgement at a candidate depends
      on nothing but the 48 bytes before it and on which mask is in force. */
  lemma GearWindow(d1: Bytes, s1: nat, c1: nat, d2: Bytes, s2: nat, c2: nat, p: Params)
    requires p.Valid()
    requires s1 + p.min - 1 + WINDOW_BITS <= c1 <= |d1| && s1 + p.min <= c1
    requires s2 + p.min - 1 + WINDOW_BITS <= c2 <= |d2| && s2 + p.min <= c2
    requires d1[c1 - WINDOW_BITS..c1] == d2[c2 - WINDOW_BITS..c2]
    requires MaskAt(p, c1 - s1) == MaskAt(p, c2 - s2)
    ensures Judged(d1, s1, c1, p) == Judged(d2, s2, c2, p)
  {
    var w := d1[c1 - WINDOW_BITS..c1];
    var u, v := d1[s1 + p.min - 1..c1 - WINDOW_BITS], d2[s2 + p.min - 1..c2 - WINDOW_BITS];
    assert d1[s1 + p.min - 1..c1] == u + w;
    assert d2[s2 + p.min - 1..c2] == v + w;
    FingerprintForgets(u, v, w, p.gear);
    AndIsZeroLowBits(Fingerprint(u + w, p.gear), Fingerprint(v + w, p.gear), MaskAt(p, c1 - s1), WINDOW_BITS);
  }
}
