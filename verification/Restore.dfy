/** Rebuilding one file: keep the part of a partial file that its recipe vouches for, cut the
    rest, and append the missing chunks. */
module Restore {
  import opened Prelude
  import Prefetch

  // ---------------------------------------------------------------- recipes as restore reads them

  type Size = n: int | n >= 1 witness 1

  datatype Entry = Entry(hash: Hash, size: Size)

  /** rows is what iterating the recipe yields; broken says that the iteration then raises
      instead of ending. count and size are the figures recorded for the recipe. */
  datatype Recipe = Recipe(rows: seq<Entry>, broken: bool, count: nat, size: nat)
  {
    ghost predicate Consistent()
    {
      !broken && count == |rows| && size == Offset(rows, |rows|)
    }
  }

  function Offset(rows: seq<Entry>, n: nat): nat
    requires n <= |rows|
  {
    if n == 0 then 0 else Offset(rows, n - 1) + rows[n - 1].size
  }

  lemma {:induction false} OffsetMonotone(rows: seq<Entry>, a: nat, b: nat)
    requires a <= b <= |rows|
    ensures Offset(rows, a) <= Offset(rows, b)
    ensures a < b ==> Offset(rows, a) < Offset(rows, b)
  {
    if a < b {
      OffsetMonotone(rows, a, b - 1);
    }
  }

  /** Chunk k of the file content is there in full and hashes to its recipe entry. */
  predicate ChunkGood(h: Hasher, rows: seq<Entry>, content: Bytes, k: nat)
    requires k < |rows|
  {
    Offset(rows, k + 1) <= |content| && h(content[Offset(rows, k)..Offset(rows, k + 1)]) == rows[k].hash
  }

  /** The first n chunks are good. */
  ghost predicate PrefixGood(h: Hasher, rows: seq<Entry>, content: Bytes, n: nat)
  {
    n <= |rows| && Offset(rows, n) <= |content| && forall k: nat :: k < n ==> ChunkGood(h, rows, content, k)
  }

  /** The bytes of a file as its recipe describes it. */
  ghost predicate IsWhole(h: Hasher, rows: seq<Entry>, content: Bytes)
  {
    |content| == Offset(rows, |rows|) && PrefixGood(h, rows, content, |rows|)
  }

  /** Length in chunks of the longest good prefix, counted from k on. */
  function LongestFrom(h: Hasher, rows: seq<Entry>, content: Bytes, k: nat): nat
    requires k <= |rows|
    decreases |rows| - k
  {
    if k < |rows| && ChunkGood(h, rows, content, k) then LongestFrom(h, rows, content, k + 1) else k
  }

  function Longest(h: Hasher, rows: seq<Entry>, content: Bytes): nat
  {
    LongestFrom(h, rows, content, 0)
  }

  lemma {:induction false} LongestFromIsLongest(h: Hasher, rows: seq<Entry>, content: Bytes, k: nat, n: nat)
    requires PrefixGood(h, rows, content, k)
    ensures PrefixGood(h, rows, content, LongestFrom(h, rows, content, k))
    ensures PrefixGood(h, rows, content, n) ==> n <= LongestFrom(h, rows, content, k)
    decreases |rows| - k
  {
    if k < |rows| && ChunkGood(h, rows, content, k) {
      LongestFromIsLongest(h, rows, content, k + 1, n);
    } else if PrefixGood(h, rows, content, n) {
      assert forall i: nat :: i < n ==> ChunkGood(h, rows, content, i);
    }
  }

  /** Longest is a good prefix and no good prefix is longer. */
  lemma LongestIsLongest(h: Hasher, rows: seq<Entry>, content: Bytes, n: nat)
    ensures PrefixGood(h, rows, content, Longest(h, rows, content))
    ensures PrefixGood(h, rows, content, n) ==> n <= Longest(h, rows, content)
  {
    LongestFromIsLongest(h, rows, content, 0, n);
  }

  /** The scan stops early once it has as many chunks as were recorded. */
  function ScanFrom(h: Hasher, r: Recipe, content: Bytes, k: nat): nat
    requires k <= |r.rows|
    decreases |r.rows| - k
  {
    if k < |r.rows| && !(k > 0 && k == r.count) && ChunkGood(h, r.rows, content, k)
    then ScanFrom(h, r, content, k + 1) else k
  }

  function Scan(h: Hasher, r: Recipe, content: Bytes): nat { ScanFrom(h, r, content, 0) }

  lemma {:induction false} ScanFromMeaning(h: Hasher, r: Recipe, content: Bytes, k: nat)
    requires k <= |r.rows| && PrefixGood(h, r.rows, content, k)
    ensures k <= ScanFrom(h, r, content, k) <= |r.rows|
    ensures PrefixGood(h, r.rows, content, ScanFrom(h, r, content, k))
    ensures r.count == |r.rows| ==> ScanFrom(h, r, content, k) == LongestFrom(h, r.rows, content, k)
    decreases |r.rows| - k
  {
    if k < |r.rows| && !(k > 0 && k == r.count) && ChunkGood(h, r.rows, content, k) {
      ScanFromMeaning(h, r, content, k + 1);
    }
  }

  /** Whether checking the partial file raises: the recipe breaks off where the scan needs it,
      or the good prefix exceeds the recorded figures. */
  predicate ScanFails(h: Hasher, r: Recipe, content: Bytes)
  {
    var v := Scan(h, r, content);
    || (r.broken && v == |r.rows| && !(v > 0 && v == r.count))
    || v > r.count
    || (v <= |r.rows| && Offset(r.rows, v) > r.size)
  }

  // ---------------------------------------------------------------- the file handle

  class Handle {
    var content: Bytes
    var pos: nat

    constructor (content: Bytes)
      ensures this.content == content && pos == 0
    {
      this.content, pos := content, 0;
    }

    /** Returns any positive number of the bytes asked for, and none only at the end. */
    method Read(n: nat) returns (block: Bytes)
      modifies this`pos
      ensures old(pos) + |block| <= Max(old(pos), |content|) && |block| <= n
      ensures old(pos) <= |content| ==> block == content[old(pos)..old(pos) + |block|]
      ensures block == [] <==> n == 0 || old(pos) >= |content|
      ensures pos == old(pos) + |block|
    {
      if n == 0 || pos >= |content| {
        return [];
      }
      var k: nat :| 1 <= k <= n && k <= |content| - pos;
      block := content[pos..pos + k];
      pos := pos + k;
    }

    /** Appends a prefix of the given bytes; all of them unless the device gives up. */
    method Write(bytes: Bytes) returns (written: nat)
      requires pos == |content|
      modifies this
      ensures written <= |bytes| && content == old(content) + bytes[..written] && pos == |content|
    {
      written :| 0 <= written <= |bytes|;
      content := content + bytes[..written];
      pos := |content|;
    }

    method Truncate(n: nat)
      requires n <= |content|
      modifies this
      ensures content == old(content)[..n] && pos == n
    {
      content, pos := content[..n], n;
    }
  }

  /** Reads size bytes, or what is left, however short the single reads are. */
  method ReadExact(f: Handle, size: nat) returns (raw: Bytes)
    requires f.pos <= |f.content|
    modifies f`pos
    ensures raw == f.content[old(f.pos)..Min(old(f.pos) + size, |f.content|)]
    ensures f.pos == Min(old(f.pos) + size, |f.content|)
  {
    var remaining := size;
    raw := [];
    while remaining > 0
      invariant old(f.pos) <= f.pos == old(f.pos) + |raw| <= |f.content|
      invariant 0 <= remaining == size - |raw|
      invariant raw == f.content[old(f.pos)..f.pos]
      decreases remaining
    {
      var block := f.Read(remaining);
      if block == [] {
        break;
      }
      raw := raw + block;
      remaining := remaining - |block|;
    }
  }

  // ---------------------------------------------------------------- checking a partial file

  /** Keeps exactly the prefix the scan vouches for and positions the handle at its end. */
  method VerifyResumePrefix(h: Hasher, f: Handle, r: Recipe) returns (kept: Option<nat>)
    modifies f
    ensures kept.None? <==> ScanFails(h, r, old(f.content))
    ensures kept.None? ==> f.content == old(f.content)
    ensures kept.Some? ==>
              && kept.value == Scan(h, r, old(f.content)) <= |r.rows|
              && Offset(r.rows, kept.value) <= |old(f.content)|
              && f.content == old(f.content)[..Offset(r.rows, kept.value)] && f.pos == |f.content|
  {
    var fileSize := |f.content|;
    f.pos := 0;
    var k, bytes := 0, 0;
    while k < |r.rows|
      invariant k <= |r.rows| && f.content == old(f.content) && bytes == Offset(r.rows, k)
      invariant PrefixGood(h, r.rows, f.content, k) && f.pos == bytes
      invariant k > 0 ==> k != r.count
      invariant Scan(h, r, f.content) == ScanFrom(h, r, f.content, k)
    {
      var entry := r.rows[k];
      if bytes + entry.size > fileSize {
        break;
      }
      var raw := ReadExact(f, entry.size);
      if |raw| != entry.size || h(raw) != entry.hash {
        break;
      }
      k, bytes := k + 1, bytes + entry.size;
      if k == r.count {
        break;
      }
    }
    assert k == Scan(h, r, f.content);
    if r.broken && k == |r.rows| && !(k > 0 && k == r.count) {
      return None;
    }
    if k > r.count || bytes > r.size {
      return None;
    }
    f.Truncate(bytes);
    return Some(k);
  }

  /** Whether a finished file in the staging tree is exactly what the recipe describes. None is
      a recipe whose figures contradict its rows. */
  method ValidateCompletedFile(h: Hasher, f: Handle, r: Recipe) returns (same: Option<bool>)
    requires f.pos == 0
    modifies f`pos
    ensures same == Some(true) <==> r.Consistent() && IsWhole(h, r.rows, f.content)
    ensures same.None? ==> !r.Consistent()
  {
    if |f.content| != r.size {
      return Some(false);
    }
    var k, bytes := 0, 0;
    while k < |r.rows|
      invariant k <= |r.rows| && bytes == Offset(r.rows, k) == f.pos <= |f.content|
      invariant PrefixGood(h, r.rows, f.content, k)
    {
      var raw := ReadExact(f, r.rows[k].size);
      if |raw| != r.rows[k].size || h(raw) != r.rows[k].hash {
        assert !ChunkGood(h, r.rows, f.content, k);
        return Some(false);
      }
      k, bytes := k + 1, bytes + r.rows[k].size;
    }
    if r.broken || k != r.count || bytes != r.size {
      return None;
    }
    var more := f.Read(1);
    return Some(more == []);
  }

  // ---------------------------------------------------------------- one attempt

  /** Where chunk bytes come from during one attempt; None stands for every way a chunk can
      fail to arrive. Layered fetch returns only bytes that hash to what was asked for. */
  type Source = nat -> Option<Bytes>

  ghost predicate Delivers(h: Hasher, rows: seq<Entry>, source: Source)
  {
    forall k: nat :: k < |rows| && source(k).Some? ==> h(source(k).value) == rows[k].hash
  }

  datatype Outcome =
    | Restored
    | RecipeInconsistent
    | ChunkMissing(k: nat)
    | ChunkSizeWrong(k: nat)
    | WriteFailed(k: nat)

  /** What an attempt may do to the partial file: it ends with n good chunks, of which those
      from v on were written by it, and less than one more chunk behind them. */
  ghost predicate Extends(h: Hasher, rows: seq<Entry>, before: Bytes, after: Bytes, v: nat, n: nat)
  {
    && PrefixGood(h, rows, before, v) && v <= n
    && PrefixGood(h, rows, after, n)
    && Offset(rows, v) <= |after| && after[..Offset(rows, v)] == before[..Offset(rows, v)]
    && (if n == |rows| then |after| == Offset(rows, n) else |after| < Offset(rows, n + 1))
  }

  lemma AppendKeepsPrefix(h: Hasher, rows: seq<Entry>, content: Bytes, more: Bytes, n: nat)
    requires PrefixGood(h, rows, content, n)
    ensures PrefixGood(h, rows, content + more, n)
  {
    forall k: nat | k < n ensures ChunkGood(h, rows, content + more, k) {
      OffsetMonotone(rows, k, k + 1);
      assert ChunkGood(h, rows, content, k);
      SliceOfAppend(content, more, Offset(rows, k), Offset(rows, k + 1));
    }
  }

  lemma AppendChunk(h: Hasher, rows: seq<Entry>, content: Bytes, chunk: Bytes, n: nat)
    requires n < |rows| && PrefixGood(h, rows, content, n) && |content| == Offset(rows, n)
    requires h(chunk) == rows[n].hash && |chunk| == rows[n].size
    ensures PrefixGood(h, rows, content + chunk, n + 1) && |content + chunk| == Offset(rows, n + 1)
  {
    AppendKeepsPrefix(h, rows, content, chunk, n);
    EndOfAppend(content, chunk);
  }

  lemma CutKeepsPrefix(h: Hasher, rows: seq<Entry>, content: Bytes, n: nat)
    requires PrefixGood(h, rows, content, n)
    ensures PrefixGood(h, rows, content[..Offset(rows, n)], n)
  {
    var cut := content[..Offset(rows, n)];
    forall k: nat | k < n ensures ChunkGood(h, rows, cut, k) {
      OffsetMonotone(rows, k, k + 1);
      OffsetMonotone(rows, k + 1, n);
      assert ChunkGood(h, rows, content, k);
      SliceOfPrefix(content, Offset(rows, n), Offset(rows, k), Offset(rows, k + 1));
    }
  }

  /** Chunk k of the content is what the source gave for it. */
  ghost predicate Supplies(rows: seq<Entry>, content: Bytes, source: Source, k: nat)
    requires k < |rows|
  {
    Offset(rows, k + 1) <= |content| && source(k).Some? && content[Offset(rows, k)..Offset(rows, k + 1)] == source(k).value
  }

  ghost predicate Supplied(rows: seq<Entry>, content: Bytes, source: Source, v: nat, n: nat)
  {
    n <= |rows| && forall k: nat :: v <= k < n ==> Supplies(rows, content, source, k)
  }

  lemma AppendKeepsSupply(rows: seq<Entry>, content: Bytes, more: Bytes, source: Source, v: nat, n: nat)
    requires Supplied(rows, content, source, v, n)
    ensures Supplied(rows, content + more, source, v, n)
  {
    forall k: nat | v <= k < n ensures Supplies(rows, content + more, source, k) {
      assert Supplies(rows, content, source, k);
      OffsetMonotone(rows, k, k + 1);
      SliceOfAppend(content, more, Offset(rows, k), Offset(rows, k + 1));
    }
  }

  lemma AppendSupplies(rows: seq<Entry>, content: Bytes, chunk: Bytes, source: Source, v: nat, n: nat)
    requires n < |rows| && Supplied(rows, content, source, v, n) && |content| == Offset(rows, n)
    requires source(n).Some? && source(n).value == chunk && |chunk| == rows[n].size
    ensures Supplied(rows, content + chunk, source, v, n + 1)
  {
    hide Supplies;
    AppendKeepsSupply(rows, content, chunk, source, v, n);
    EndOfAppend(content, chunk);
    LastChunkSupplied(rows, content + chunk, chunk, source, n);
  }

  lemma LastChunkSupplied(rows: seq<Entry>, content: Bytes, chunk: Bytes, source: Source, n: nat)
    requires n < |rows| && |content| == Offset(rows, n) + rows[n].size && source(n).Some? && source(n).value == chunk
    requires content[Offset(rows, n)..|content|] == chunk
    ensures Supplies(rows, content, source, n)
  {
    OffsetNext(rows, n);
    hide Offset;
  }

  lemma OffsetNext(rows: seq<Entry>, n: nat)
    requires n < |rows|
    ensures Offset(rows, n + 1) == Offset(rows, n) + rows[n].size
  {
  }

  /** Why the chunks from k on could not all be appended. */
  ghost predicate Explains(rows: seq<Entry>, source: Source, outcome: Outcome, v: nat, n: nat)
  {
    match outcome
    case ChunkMissing(k) => v <= k == n < |rows| && source(k).None?
    case ChunkSizeWrong(k) => v <= k == n < |rows| && source(k).Some? && |source(k).value| != rows[k].size
    case WriteFailed(k) => v <= k == n < |rows|
    case _ => true
  }

  /** How far the records handed on reach when reading starts at v: to the end of the recipe or,
      when reading it raises, to the end of the last full window. */
  function Reach(r: Recipe, v: nat, window: int): (n: nat)
    requires v <= |r.rows|
    ensures v <= n <= |r.rows| && (!r.broken ==> n == |r.rows|)
  {
    if r.broken then |r.rows| - Prefetch.LeftOver(|r.rows| - v, Max(window, 1)) else |r.rows|
  }

  /** Appends the chunks from v on, as the prefetcher hands them on, until the recipe ends or
      something fails. */
  method AppendChunks(h: Hasher, f: Handle, r: Recipe, v: nat, source: Source, window: int) returns (outcome: Outcome, n: nat, written: nat)
    requires v <= |r.rows| && PrefixGood(h, r.rows, f.content, v) && |f.content| == Offset(r.rows, v) == f.pos
    requires Delivers(h, r.rows, source)
    modifies f
    ensures Extends(h, r.rows, old(f.content), f.content, v, n) && Supplied(r.rows, f.content, source, v, n)
    ensures written == Offset(r.rows, n) - Offset(r.rows, v)
    ensures n <= Reach(r, v, window)
    ensures outcome.Restored? ==> n == |r.rows| && !r.broken
    ensures outcome.RecipeInconsistent? ==> r.broken && n == Reach(r, v, window)
    ensures Explains(r.rows, source, outcome, v, n)
  {
    hide ChunkGood, Supplies;
    n, written := v, 0;
    var end := Reach(r, v, window);
    while n < end
      invariant v <= n <= end
      invariant PrefixGood(h, r.rows, f.content, n) && |f.content| == Offset(r.rows, n) == f.pos
      invariant Offset(r.rows, v) <= Offset(r.rows, n) && f.content[..Offset(r.rows, v)] == old(f.content)
      invariant Supplied(r.rows, f.content, source, v, n)
      invariant written == Offset(r.rows, n) - Offset(r.rows, v)
    {
      var answer := source(n);
      if answer.None? {
        return ChunkMissing(n), n, written;
      }
      var raw := answer.value;
      if |raw| != r.rows[n].size {
        return ChunkSizeWrong(n), n, written;
      }
      ghost var before := f.content;
      var w := f.Write(raw);
      if w != |raw| {
        AppendKeepsPrefix(h, r.rows, before, raw[..w], n);
        AppendKeepsSupply(r.rows, before, raw[..w], source, v, n);
        return WriteFailed(n), n, written;
      }
      assert raw[..w] == raw;
      AppendChunk(h, r.rows, before, raw, n);
      AppendSupplies(r.rows, before, raw, source, v, n);
      n, written := n + 1, written + w;
    }
    outcome := if r.broken then RecipeInconsistent else Restored;
  }

  /** What one attempt at a consistent recipe does, whatever went wrong: the longest good
      prefix is kept and counted as reused, good chunks are appended to it and counted as
      written, and nothing that a later attempt could mistake for a chunk follows them. */
  ghost predicate Attempted(h: Hasher, rows: seq<Entry>, before: Bytes, after: Bytes, reused: int, written: int)
  {
    var v, n := Longest(h, rows, before), Longest(h, rows, after);
    && Extends(h, rows, before, after, v, n)
    && reused == Offset(rows, v) && written == Offset(rows, n) - Offset(rows, v)
  }

  /** One attempt at a file, from whatever the partial file holds. It succeeds only when the
      partial file has become the whole file, and fails only for a reason named in Outcome. */
  method ResumeFile(h: Hasher, f: Handle, r: Recipe, source: Source, window: int)
    returns (outcome: Outcome, reused: nat, written: nat)
    requires Delivers(h, r.rows, source)
    modifies f
    ensures outcome.Restored? ==> r.Consistent() && IsWhole(h, r.rows, f.content) && reused + written == r.size
    ensures r.Consistent() ==>
              && !outcome.RecipeInconsistent?
              && Attempted(h, r.rows, old(f.content), f.content, reused, written)
              && Supplied(r.rows, f.content, source, Longest(h, r.rows, old(f.content)), Longest(h, r.rows, f.content))
              && Explains(r.rows, source, outcome, Longest(h, r.rows, old(f.content)), Longest(h, r.rows, f.content))
  {
    reused, written := 0, 0;
    ghost var start := f.content;
    ScanFromMeaning(h, r, start, 0);
    var kept := VerifyResumePrefix(h, f, r);
    if kept.None? {
      ScanWithinConsistent(h, r, start);
      return RecipeInconsistent, 0, 0;
    }
    var v := kept.value;
    reused := |f.content|;
    CutKeepsPrefix(h, r.rows, start, v);
    ghost var cut := f.content;
    var n: nat;
    outcome, n, written := AppendChunks(h, f, r, v, source, window);
    ExtendsFromCut(h, r.rows, start, cut, f.content, v, n);
    ExtensionIsLongest(h, r.rows, start, f.content, v, n);
    if outcome.Restored? {
      if n != r.count || |f.content| != r.size {
        outcome := RecipeInconsistent;
      }
    }
  }

  lemma ScanWithinConsistent(h: Hasher, r: Recipe, content: Bytes)
    ensures r.Consistent() ==> !ScanFails(h, r, content)
  {
    ScanFromMeaning(h, r, content, 0);
    if r.Consistent() {
      OffsetMonotone(r.rows, Scan(h, r, content), |r.rows|);
    }
  }

  lemma ExtendsFromCut(h: Hasher, rows: seq<Entry>, before: Bytes, cut: Bytes, after: Bytes, v: nat, n: nat)
    requires PrefixGood(h, rows, before, v) && cut == before[..Offset(rows, v)]
    requires Extends(h, rows, cut, after, v, n)
    ensures Extends(h, rows, before, after, v, n)
  {
    assert cut[..Offset(rows, v)] == cut;
  }

  /** The chunks an attempt leaves behind are exactly what the next attempt will recognise. */
  lemma ExtensionIsLongest(h: Hasher, rows: seq<Entry>, before: Bytes, after: Bytes, v: nat, n: nat)
    requires Extends(h, rows, before, after, v, n)
    ensures Longest(h, rows, after) == n
  {
    LongestIsLongest(h, rows, after, n);
    var m := Longest(h, rows, after);
    if m > n {
      OffsetMonotone(rows, n + 1, m);
    }
  }
}
