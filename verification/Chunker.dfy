/** The Python side of chunking: parameter validation, the shortcut for small files and the
    loop over native boundaries. */
module Chunker {
  import opened Prelude
  import opened GearMasks
  import opened FastCdc

  datatype Error = BadConfig | CannotMap | MasksRejected | CutNotIncreasing | CutBeyondEof

  datatype Chunk = Chunk(hash: Hash, data: Bytes)

  datatype Config = Config(avg: nat, min: nat, max: nat)
  {
    ghost predicate Valid()
    {
      1 <= min <= avg <= max && IsPowerOfTwo(avg)
    }

    /** The native iterator's parameters for this configuration. */
    function Native(gear: GearTable): Params
    {
      Params(min, avg, max, MasksOf(avg), gear)
    }
  }

  /** The constructor: accepted exactly when the sizes are ordered and the average is a power
      of two. */
  method MakeConfig(avg: int, min: int, max: int) returns (r: Result<Config, Error>)
    ensures r.Ok? <==> 1 <= min <= avg <= max && IsPowerOfTwo(avg)
    ensures r.Ok? ==> r.value == Config(avg, min, max) && r.value.Valid()
  {
    if avg <= 0 {
      return Err(BadConfig);
    }
    PowerOfTwoTest(avg);
    if !AndIsZero(avg, avg - 1) || min <= 0 || avg < min || max < avg {
      return Err(BadConfig);
    }
    return Ok(Config(avg, min, max));
  }

  function Contents(chunks: seq<Chunk>): seq<Bytes>
  {
    seq(|chunks|, i requires 0 <= i < |chunks| => chunks[i].data)
  }

  ghost predicate Hashed(chunks: seq<Chunk>, hash: Hasher)
  {
    forall c :: c in chunks ==> c.hash == hash(c.data)
  }

  lemma NativeValid(cfg: Config, gear: GearTable)
    requires cfg.Valid() && AcceptedAverage(cfg.avg)
    ensures cfg.Native(gear).Valid()
  {
    MasksOfAccepted(cfg.avg);
  }

  /** A file no longer than min is a single chunk for the native iterator too. */
  lemma SmallFileIsOneChunk(data: Bytes, p: Params)
    requires p.Valid() && 0 < |data| <= p.min
    ensures ChunksFrom(data, 0, p) == [data]
  {
    assert NextSplit(data, 0, p) == |data|;
    assert ChunksFrom(data, |data|, p) == [];
    assert data[0..|data|] == data;
  }

  /** What the file system answers while one file is chunked: its size, the bytes of the small read,
      its size once more if that read showed that it grew, and the bytes mapped. */
  datatype Looks = Looks(size: nat, early: Bytes, sizeAgain: nat, mapped: Bytes)
  {
    /** The small-file path is taken to its end. */
    predicate Small(min: nat) { size <= min && (size == 0 || |early| <= min) }

    /** The size the boundary loop goes by. */
    function FileSize(min: nat): nat { if size <= min then sizeAgain else size }
  }

  /** A file that does not change meanwhile. */
  function Stable(data: Bytes, min: nat): Looks
  {
    Looks(|data|, data[..Min(|data|, min + 1)], |data|, data)
  }

  /** Chunks one file, which may change between the looks. Small files are one chunk. Of a mapped
      file, the chunks are the native cut sequence; it is refused exactly when nothing can be
      mapped, when the average size is one the native module does not take, or when more was
      mapped than the size said; and when less was mapped, an empty chunk comes last. The other
      sanity check of the loop never fails. */
  method ChunkStream(cfg: Config, gear: GearTable, looks: Looks, hash: Hasher)
    returns (r: Result<seq<Chunk>, Error>)
    requires cfg.Valid()
    ensures looks.Small(cfg.min) ==>
              r == Ok(if looks.size == 0 || looks.early == [] then [] else [Chunk(hash(looks.early), looks.early)])
    ensures !looks.Small(cfg.min) ==>
              && (r.Ok? <==> looks.mapped != [] && AcceptedAverage(cfg.avg) && |looks.mapped| <= looks.FileSize(cfg.min))
              && (r.Err? ==> r.error == if looks.mapped == [] then CannotMap
                                        else if !AcceptedAverage(cfg.avg) then MasksRejected else CutBeyondEof)
              && (r.Ok? ==>
                    && cfg.Native(gear).Valid() && Hashed(r.value, hash)
                    && Contents(r.value) == ChunksFrom(looks.mapped, 0, cfg.Native(gear))
                                            + (if |looks.mapped| < looks.FileSize(cfg.min) then [[]] else [])
                    && Flatten(Contents(r.value)) == looks.mapped
                    && ([] in Contents(r.value) <==> |looks.mapped| < looks.FileSize(cfg.min)))
  {
    var fileSize := looks.size;
    if fileSize == 0 {
      return Ok([]);
    }
    if fileSize <= cfg.min {
      if |looks.early| <= cfg.min {
        return Ok(if looks.early == [] then [] else [Chunk(hash(looks.early), looks.early)]);
      }
      fileSize := looks.sizeAgain;
    }
    if looks.mapped == [] {
      return Err(CannotMap);
    }
    var masks := BuildMasks(cfg.avg);
    if masks.None? {
      return Err(MasksRejected);
    }
    NativeValid(cfg, gear);
    r := ChunkByBoundaries(cfg.Native(gear), looks.mapped, fileSize, hash);
  }

  /** A file that does not change: every chunk carries its own hash and the chunks concatenate to
      the file. Whenever the native module accepts the average size the result is the native cut
      sequence, on the small-file path as well. An average that is a power of two but outside
      [8, 2^46] is refused only for files longer than min, because the small-file path never
      consults the native module. */
  method ChunkStableFile(cfg: Config, gear: GearTable, data: Bytes, hash: Hasher)
    returns (r: Result<seq<Chunk>, Error>)
    requires cfg.Valid()
    ensures r.Ok? <==> |data| <= cfg.min || AcceptedAverage(cfg.avg)
    ensures r.Err? ==> r.error == MasksRejected
    ensures 0 < |data| <= cfg.min ==> r == Ok([Chunk(hash(data), data)])
    ensures r.Ok? ==> Hashed(r.value, hash) && Flatten(Contents(r.value)) == data
    ensures r.Ok? && AcceptedAverage(cfg.avg) ==>
              cfg.Native(gear).Valid() && Contents(r.value) == ChunksFrom(data, 0, cfg.Native(gear))
  {
    var p := cfg.Native(gear);
    if AcceptedAverage(cfg.avg) {
      NativeValid(cfg, gear);
    }
    r := ChunkStream(cfg, gear, Stable(data, cfg.min), hash);
    if 0 < |data| <= cfg.min {
      assert data[..|data|] == data;
      assert Contents(r.value) == [data];
      FlattenSnoc([], data);
      assert [] + [data] == [data];
      if AcceptedAverage(cfg.avg) {
        SmallFileIsOneChunk(data, p);
      }
    }
  }

  /** Such a configuration exists: the constructor takes it, the native module does not, so a
      file of one byte is chunked and a file of two bytes is refused. */
  method TooSmallAverage(gear: GearTable, one: Byte, two: Byte, hash: Hasher)
    returns (cfg: Result<Config, Error>, short: Result<seq<Chunk>, Error>, long: Result<seq<Chunk>, Error>)
    ensures cfg == Ok(Config(4, 1, 4))
    ensures short == Ok([Chunk(hash([one]), [one])])
    ensures long == Err(MasksRejected)
  {
    FourIsNotAccepted();
    cfg := MakeConfig(4, 1, 4);
    short := ChunkStableFile(cfg.value, gear, [one], hash);
    long := ChunkStableFile(cfg.value, gear, [one, two], hash);
  }

  /** Files that change between the looks at them: one that has shrunk from three bytes to two ends
      with an empty chunk, and one that has grown from two bytes to three is refused. */
  method ChangingFiles(gear: GearTable, data: Bytes, hash: Hasher)
    returns (shrunk: Result<seq<Chunk>, Error>, grown: Result<seq<Chunk>, Error>)
    requires |data| == 3
    ensures shrunk.Ok? && shrunk.value != [] && shrunk.value[|shrunk.value| - 1] == Chunk(hash([]), [])
    ensures grown == Err(CutBeyondEof)
  {
    EightIsAccepted();
    var cfg := Config(8, 1, 8);
    shrunk := ChunkStream(cfg, gear, Looks(3, [], 2, data[..2]), hash);
    var last := |shrunk.value| - 1;
    assert Contents(shrunk.value)[last] == [] && shrunk.value[last] in shrunk.value;
    grown := ChunkStream(cfg, gear, Looks(2, [], 3, data), hash);
  }

  lemma EightIsAccepted()
    ensures Config(8, 1, 8).Valid() && AcceptedAverage(8)
  {
    assert Pow2(3) == 8;
    assert Log2(8) == 3;
  }

  lemma FourIsNotAccepted()
    ensures Config(4, 1, 4).Valid() && !AcceptedAverage(4)
  {
    assert Pow2(2) == 4;
    assert Log2(4) == 2;
  }

  lemma AppendChunk(chunks: seq<Chunk>, c: Chunk, hash: Hasher)
    requires Hashed(chunks, hash) && c.hash == hash(c.data)
    ensures Hashed(chunks + [c], hash) && Contents(chunks + [c]) == Contents(chunks) + [c.data]
  {
  }

  lemma FirstChunk(data: Bytes, start: nat, p: Params)
    requires p.Valid() && start < |data|
    ensures start < NextSplit(data, start, p) <= |data|
    ensures ChunksFrom(data, start, p)
            == [data[start..NextSplit(data, start, p)]] + ChunksFrom(data, NextSplit(data, start, p), p)
  {
    NextSplitBounds(data, start, p);
  }

  /** The loop over the native iterator, with its two sanity checks and its tail: whatever the
      size promises beyond the bytes mapped is an empty slice. */
  method ChunkByBoundaries(p: Params, data: Bytes, fileSize: nat, hash: Hasher) returns (r: Result<seq<Chunk>, Error>)
    requires p.Valid()
    ensures r.Ok? <==> |data| <= fileSize
    ensures r.Err? ==> r.error == CutBeyondEof
    ensures r.Ok? ==>
              && Hashed(r.value, hash) && Contents(r.value) == ChunksFrom(data, 0, p) + (if |data| < fileSize then [[]] else [])
              && Flatten(Contents(r.value)) == data && ([] in Contents(r.value) <==> |data| < fileSize)
  {
    hide NextSplit, CutsFrom, ChunksFrom, Flatten, Contents, Hashed;
    ghost var all := ChunksFrom(data, 0, p);
    var boundaries := new BoundaryIterator(data, p);
    var chunks: seq<Chunk> := [];
    var start := 0;
    ghost var todo := all;
    NoChunks(data, p, hash);
    var next := boundaries.Next();
    while next.Some?
      invariant boundaries.Valid() && boundaries.data == data && boundaries.p == p
      invariant start <= |data| && start <= fileSize && Hashed(chunks, hash) && todo == ChunksFrom(data, start, p)
      invariant next.None? ==> start == |data|
      invariant next.Some? ==> start < |data| && next.value == boundaries.lastSplit == NextSplit(data, start, p)
      invariant Contents(chunks) + todo == all
      decreases |data| - start
    {
      FirstChunk(data, start, p);
      var end := next.value;
      if end <= start {
        return Err(CutNotIncreasing);
      }
      if end > fileSize {
        return Err(CutBeyondEof);
      }
      var chunk := Chunk(hash(data[start..end]), data[start..end]);
      AppendChunk(chunks, chunk, hash);
      chunks := chunks + [chunk];
      start, todo := end, todo[1..];
      next := boundaries.Next();
    }
    assert Contents(chunks) == all;
    WithTail(data, p);
    if start < fileSize {
      var tail := data[start..Min(fileSize, |data|)];
      AppendChunk(chunks, Chunk(hash(tail), tail), hash);
      chunks := chunks + [Chunk(hash(tail), tail)];
    } else {
      assert all + [] == all;
    }
    return Ok(chunks);
  }

  lemma WithTail(data: Bytes, p: Params)
    requires p.Valid()
    ensures var all := ChunksFrom(data, 0, p);
            Flatten(all) == data && Flatten(all + [[]]) == data && [] !in all
  {
    hide ChunksFrom, Flatten;
    var all := ChunksFrom(data, 0, p);
    ChunksConcatenate(data, 0, p);
    assert data[0..] == data;
    FlattenSnoc(all, []);
    forall i | 0 <= i < |all| ensures all[i] != [] {
      ChunksNotEmpty(data, 0, i, p);
    }
  }

  lemma NoChunks(data: Bytes, p: Params, hash: Hasher)
    requires p.Valid()
    ensures Contents([]) == [] && Hashed([], hash) && ChunksFrom(data, |data|, p) == []
  {
  }
}
