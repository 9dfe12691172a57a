/** Ordered prefetching: records are resolved window by window and handed on in order. */
module Prefetch {
  import opened Prelude

  datatype Row = Row(order: nat, hash: Hash, size: int)

  datatype Emitted = Emitted(row: Row, raw: Bytes)

  /** One batched fetch: a result for some of the hashes asked for, None being an error. */
  type Fetch = seq<Hash> -> map<Hash, Option<Bytes>>

  function Hashes(rows: seq<Row>): seq<Hash>
  {
    seq(|rows|, i requires 0 <= i < |rows| => rows[i].hash)
  }

  /** The fetch answers by hash alone, whatever else is in the batch. */
  ghost predicate Determined(fetch: Fetch, answer: Hash -> Option<Bytes>)
  {
    forall batch: seq<Hash>, h: Hash :: h in batch ==> Found(fetch(batch), h) == answer(h)
  }

  lemma DeterminedAt(fetch: Fetch, answer: Hash -> Option<Bytes>, batch: seq<Hash>, h: Hash)
    requires Determined(fetch, answer) && h in batch
    ensures Found(fetch(batch), h) == answer(h)
  {
  }

  /** A hash missing from the results is as bad as an error. */
  function Found(results: map<Hash, Option<Bytes>>, h: Hash): Option<Bytes>
  {
    if h in results then results[h] else None
  }

  /** What a consumer should see, without any window: records in order up to the first one
      whose chunk cannot be had. */
  function Available(rows: seq<Row>, answer: Hash -> Option<Bytes>): seq<Emitted>
  {
    if rows == [] then []
    else
      var front := Available(rows[..|rows| - 1], answer);
      var last := rows[|rows| - 1];
      if |front| == |rows| - 1 && answer(last.hash).Some? then front + [Emitted(last, answer(last.hash).value)] else front
  }

  lemma {:induction false} AvailableMeaning(rows: seq<Row>, answer: Hash -> Option<Bytes>)
    ensures var out := Available(rows, answer);
            && |out| <= |rows|
            && (forall i :: 0 <= i < |out| ==> out[i].row == rows[i] && answer(rows[i].hash) == Some(out[i].raw))
            && (|out| < |rows| ==> answer(rows[|out|].hash).None?)
  {
    if rows != [] {
      AvailableMeaning(rows[..|rows| - 1], answer);
    }
  }

  lemma {:induction false} AvailableStops(rows: seq<Row>, answer: Hash -> Option<Bytes>, n: nat)
    requires n <= |rows| && |Available(rows[..n], answer)| < n
    ensures Available(rows, answer) == Available(rows[..n], answer)
    decreases |rows|
  {
    if n == |rows| {
      assert rows[..n] == rows;
    } else {
      assert rows[..|rows| - 1][..n] == rows[..n];
      AvailableStops(rows[..|rows| - 1], answer, n);
    }
  }

  /** One more record extends what is available, or stops it for good. */
  lemma AvailableNext(rows: seq<Row>, answer: Hash -> Option<Bytes>, n: nat, m: nat)
    requires n < m <= |rows| && |Available(rows[..n], answer)| == n
    ensures var found := answer(rows[n].hash);
            if found.Some? then Available(rows[..n + 1], answer) == Available(rows[..n], answer) + [Emitted(rows[n], found.value)]
            else Available(rows[..m], answer) == Available(rows[..n], answer)
  {
    assert rows[..n + 1][..n] == rows[..n];
    if answer(rows[n].hash).None? {
      assert rows[..m][..n + 1] == rows[..n + 1];
      AvailableStops(rows[..m], answer, n + 1);
    }
  }

  /** How many of n records sit in a window that is not full yet. */
  function LeftOver(n: nat, w: nat): (k: nat)
    requires w >= 1
    ensures k < w && k <= n
  {
    if n == 0 then 0
    else
      var k := LeftOver(n - 1, w);
      if k + 1 == w then 0 else k + 1
  }

  lemma LeftOverNext(n: nat, w: nat)
    requires w >= 1
    ensures LeftOver(n + 1, w) == if LeftOver(n, w) + 1 == w then 0 else LeftOver(n, w) + 1
  {
  }

  /** It is the remainder of dividing n by the window. */
  lemma {:induction false} LeftOverIsRemainder(n: nat, w: nat) returns (full: nat)
    requires w >= 1
    ensures n == full * w + LeftOver(n, w)
  {
    if n == 0 {
      full := 0;
    } else {
      full := LeftOverIsRemainder(n - 1, w);
      LeftOverNext(n - 1, w);
      hide LeftOver;
      if LeftOver(n - 1, w) + 1 == w {
        OneMoreWindow(full, w);
        full := full + 1;
      }
    }
  }

  lemma OneMoreWindow(full: nat, w: nat)
    ensures (full + 1) * w == full * w + w
  {
  }

  /** Resolves one window and emits it row by row. */
  method FlushWindow(fetch: Fetch, buffer: seq<Row>, ghost answer: Hash -> Option<Bytes>, ghost all: seq<Row>, ghost start: nat)
    returns (out: seq<Emitted>, raised: bool)
    requires Determined(fetch, answer)
    requires start + |buffer| <= |all| && buffer == all[start..start + |buffer|] && |Available(all[..start], answer)| == start
    ensures Available(all[..start], answer) + out == Available(all[..start + |buffer|], answer)
    ensures |out| <= |buffer| && (raised <==> |out| < |buffer|)
  {
    hide Determined, Available;
    var hashes := Hashes(buffer);
    var results := fetch(hashes);
    out := [];
    for i := 0 to |buffer|
      invariant |out| == i && Available(all[..start], answer) + out == Available(all[..start + i], answer)
    {
      var row := buffer[i];
      assert row.hash in hashes by { assert hashes[i] == row.hash; }
      assert Found(results, row.hash) == answer(row.hash) by { DeterminedAt(fetch, answer, hashes, row.hash); }
      AvailableNext(all, answer, start + i, start + |buffer|);
      if row.hash !in results || results[row.hash].None? {
        return out, true;
      }
      out := out + [Emitted(row, results[row.hash].value)];
    }
    raised := false;
  }

  /** Everything handed on before the stream ends or raises. sourceFails says that reading the
      recipe raises after the given records; a partly filled window is then lost. */
  method Stream(fetch: Fetch, rows: seq<Row>, sourceFails: bool, window: int, ghost answer: Hash -> Option<Bytes>)
    returns (out: seq<Emitted>, raised: bool)
    requires Determined(fetch, answer)
    ensures !sourceFails ==> out == Available(rows, answer) && (raised <==> |out| < |rows|)
    ensures sourceFails ==> raised && out == HandedOn(rows, answer, Max(window, 1))
  {
    hide Available, Determined, Found, LeftOver;
    var w := Max(window, 1);
    AvailableMeaning([], answer);
    assert LeftOver(0, w) == 0;
    var buffer: seq<Row> := [];
    out := [];
    assert rows[..0] == [];
    for i := 0 to |rows|
      invariant |buffer| < w && |buffer| <= i && buffer == rows[i - |buffer|..i] && |out| == i - |buffer|
      invariant out == Available(rows[..i - |buffer|], answer)
      invariant |buffer| == LeftOver(i, w)
    {
      LeftOverNext(i, w);
      buffer := buffer + [rows[i]];
      assert buffer == rows[i + 1 - |buffer|..i + 1];
      if |buffer| >= w {
        var start := i + 1 - w;
        var more, failed := FlushWindow(fetch, buffer, answer, rows, start);
        out := out + more;
        if failed {
          WholeWindowsCover(rows, answer, i + 1, w);
          return out, true;
        }
        buffer := [];
      }
    }
    if sourceFails {
      return out, true;
    }
    assert rows[..|rows|] == rows;
    if buffer != [] {
      var more, failed := FlushWindow(fetch, buffer, answer, rows, |rows| - |buffer|);
      return out + more, failed;
    }
    raised := false;
  }

  /** A failure inside a full window decides the result for all rows and for the rows in full
      windows alike. */
  lemma WholeWindowsCover(rows: seq<Row>, answer: Hash -> Option<Bytes>, n: nat, w: nat)
    requires w >= 1 && n <= |rows| && LeftOver(n, w) == 0 && |Available(rows[..n], answer)| < n
    ensures Available(rows, answer) == Available(rows[..n], answer)
    ensures Available(rows[..|rows| - LeftOver(|rows|, w)], answer) == Available(rows[..n], answer)
  {
    AvailableStops(rows, answer, n);
    var m := |rows| - LeftOver(|rows|, w);
    FullWindows(n, |rows|, w);
    assert rows[..m][..n] == rows[..n];
    AvailableStops(rows[..m], answer, n);
  }

  lemma {:induction false} FullWindows(n: nat, total: nat, w: nat)
    requires w >= 1 && n <= total && LeftOver(n, w) == 0
    ensures LeftOver(total, w) <= total - n
  {
    if n < total {
      FullWindows(n, total - 1, w);
    }
  }

  /** A window of one never holds anything back; a window larger than the recipe holds all of it. */
  lemma {:induction false} LeftOverExtremes(n: nat, w: nat)
    requires w == 1 || n < w
    ensures LeftOver(n, w) == if w == 1 then 0 else n
  {
    if n > 0 {
      LeftOverExtremes(n - 1, w);
    }
  }

  // ---------------------------------------------------------------- when reading the recipe fails

  /** What is available of the first m records is the beginning of what is available of all. */
  lemma {:induction false} AvailablePrefix(rows: seq<Row>, answer: Hash -> Option<Bytes>, m: nat)
    requires m <= |rows|
    ensures var all := Available(rows, answer);
            Available(rows[..m], answer) == all[..Min(m, |all|)]
    decreases |rows|
  {
    if m == |rows| {
      assert rows[..m] == rows;
      AvailableMeaning(rows, answer);
    } else {
      assert rows[..|rows| - 1][..m] == rows[..m];
      AvailablePrefix(rows[..|rows| - 1], answer, m);
    }
  }

  /** What is handed on when reading the recipe raises after these records. */
  function HandedOn(rows: seq<Row>, answer: Hash -> Option<Bytes>, w: nat): seq<Emitted>
    requires w >= 1
  {
    Available(rows[..|rows| - LeftOver(|rows|, w)], answer)
  }

  /** Two windows hand on the same records exactly when they hold back equally many, or the first
      chunk that cannot be had (or the end of the records) comes before anything held back. */
  lemma WindowsAgreeExactly(rows: seq<Row>, answer: Hash -> Option<Bytes>, v: nat, w: nat)
    requires v >= 1 && w >= 1
    ensures var a, b := LeftOver(|rows|, v), LeftOver(|rows|, w);
            HandedOn(rows, answer, v) == HandedOn(rows, answer, w)
            <==> a == b || |Available(rows, answer)| <= |rows| - Max(a, b)
  {
    hide Available, LeftOver;
    var a, b := LeftOver(|rows|, v), LeftOver(|rows|, w);
    AvailablePrefix(rows, answer, |rows| - a);
    AvailablePrefix(rows, answer, |rows| - b);
    var all := Available(rows, answer);
    assert HandedOn(rows, answer, v) == all[..Min(|rows| - a, |all|)];
    assert HandedOn(rows, answer, w) == all[..Min(|rows| - b, |all|)];
  }

  /** A window hands on everything that is available exactly when what is available ends before
      the records it holds back. */
  lemma NothingLostExactly(rows: seq<Row>, answer: Hash -> Option<Bytes>, w: nat)
    requires w >= 1
    ensures HandedOn(rows, answer, w) == Available(rows, answer)
            <==> |Available(rows, answer)| <= |rows| - LeftOver(|rows|, w)
  {
    hide Available, LeftOver;
    AvailablePrefix(rows, answer, |rows| - LeftOver(|rows|, w));
    var all := Available(rows, answer);
    assert HandedOn(rows, answer, w) == all[..Min(|rows| - LeftOver(|rows|, w), |all|)];
  }

  /** With every chunk at hand, a window of one hands on all records and a window larger than the
      recipe none, so the window does show. */
  lemma FailingSourceDependsOnWindow(rows: seq<Row>, answer: Hash -> Option<Bytes>)
    requires rows != [] && forall i :: 0 <= i < |rows| ==> answer(rows[i].hash).Some?
    ensures HandedOn(rows, answer, |rows| + 1) == []
    ensures var out := HandedOn(rows, answer, 1);
            |out| == |rows| && forall i :: 0 <= i < |rows| ==> out[i] == Emitted(rows[i], answer(rows[i].hash).value)
  {
    hide Available, LeftOver;
    LeftOverExtremes(|rows|, 1);
    LeftOverExtremes(|rows|, |rows| + 1);
    assert rows[..|rows|] == rows;
    AvailableMeaning(rows[..0], answer);
    AvailableMeaning(rows, answer);
  }
}
