/** Batched calls that halve the batch while the answer is too large for one message. */
module Batching {
  import opened Prelude

  datatype Reply<K, V, E> = Answer(values: map<K, V>) | TooLarge | Failed(error: E)

  /** The splitter: one call, and on an oversized answer two recursive halves whose results are
      merged, the right one taking precedence. Any other failure passes through. */
  function Adaptive<T, K, V, E>(items: seq<T>, call: seq<T> -> Reply<K, V, E>): Reply<K, V, E>
    decreases |items|
  {
    var reply := call(items);
    if reply.TooLarge? && |items| > 1 then
      var mid := Max(1, |items| / 2);
      var left := Adaptive(items[..mid], call);
      if !left.Answer? then left
      else
        var right := Adaptive(items[mid..], call);
        if !right.Answer? then right else Answer(left.values + right.values)
    else reply
  }

  /** How many calls that takes. */
  function Calls<T, K, V, E>(items: seq<T>, call: seq<T> -> Reply<K, V, E>): nat
    decreases |items|
  {
    var reply := call(items);
    if reply.TooLarge? && |items| > 1 then
      var mid := Max(1, |items| / 2);
      var left := Adaptive(items[..mid], call);
      1 + Calls(items[..mid], call) + if left.Answer? then Calls(items[mid..], call) else 0
    else 1
  }

  /** The answers of the single items, merged in order. */
  function Merged<T, K, V>(items: seq<T>, answer: T -> map<K, V>): map<K, V>
  {
    if items == [] then map[] else Merged(items[..|items| - 1], answer) + answer(items[|items| - 1])
  }

  lemma {:induction false} MergedAppend<T, K, V>(a: seq<T>, b: seq<T>, answer: T -> map<K, V>)
    ensures Merged(a + b, answer) == Merged(a, answer) + Merged(b, answer)
    decreases |b|
  {
    if b == [] {
      assert a + b == a;
    } else {
      var n := |b| - 1;
      assert (a + b)[..|a + b| - 1] == a + b[..n];
      MergedAppend(a, b[..n], answer);
    }
  }

  /** An answer, when it comes, consists of the answers of the items. */
  ghost predicate PerItem<T(!new), K(!new), V(!new), E(!new)>(call: seq<T> -> Reply<K, V, E>, answer: T -> map<K, V>)
  {
    forall items: seq<T> :: call(items).Answer? ==> call(items).values == Merged(items, answer)
  }

  /** Splitting is invisible: whatever the limits, an answer is that of one unlimited call. */
  lemma {:induction false} SplittingIsInvisible<T(!new), K(!new), V(!new), E(!new)>(items: seq<T>, call: seq<T> -> Reply<K, V, E>, answer: T -> map<K, V>)
    requires PerItem(call, answer) && Adaptive(items, call).Answer?
    ensures Adaptive(items, call).values == Merged(items, answer)
    decreases |items|
  {
    if call(items).TooLarge? {
      var mid := Max(1, |items| / 2);
      SplittingIsInvisible(items[..mid], call, answer);
      SplittingIsInvisible(items[mid..], call, answer);
      MergedAppend(items[..mid], items[mid..], answer);
      assert items == items[..mid] + items[mid..];
    }
  }

  /** At most one call for every node of a binary tree over the items, and one for no items. */
  lemma {:induction false} CallsBounded<T, K, V, E>(items: seq<T>, call: seq<T> -> Reply<K, V, E>)
    ensures Calls(items, call) <= Max(1, 2 * |items| - 1)
    decreases |items|
  {
    if call(items).TooLarge? && |items| > 1 {
      var mid := Max(1, |items| / 2);
      CallsBounded(items[..mid], call);
      CallsBounded(items[mid..], call);
    }
  }

  function Weight<T>(items: seq<T>, weight: T -> nat): nat
  {
    if items == [] then 0 else Weight(items[..|items| - 1], weight) + weight(items[|items| - 1])
  }

  /** The only obstacle is the size of the answer. */
  ghost predicate LimitedBySize<T(!new), K(!new), V(!new), E(!new)>(call: seq<T> -> Reply<K, V, E>, answer: T -> map<K, V>, weight: T -> nat, limit: nat)
  {
    forall items: seq<T> :: call(items) == if Weight(items, weight) <= limit then Answer(Merged(items, answer)) else TooLarge
  }

  predicate AllFit<T>(items: seq<T>, weight: T -> nat, limit: nat)
  {
    forall i :: 0 <= i < |items| ==> weight(items[i]) <= limit
  }

  lemma AllFitSplit<T>(items: seq<T>, weight: T -> nat, limit: nat, mid: nat)
    requires mid <= |items|
    ensures AllFit(items, weight, limit) <==> AllFit(items[..mid], weight, limit) && AllFit(items[mid..], weight, limit)
  {
    var l, r := items[..mid], items[mid..];
    if AllFit(l, weight, limit) && AllFit(r, weight, limit) {
      forall i | 0 <= i < |items| ensures weight(items[i]) <= limit {
        assert items[i] == if i < mid then l[i] else r[i - mid];
      }
    }
  }

  lemma {:induction false} LightBatchFits<T>(items: seq<T>, weight: T -> nat, limit: nat)
    requires Weight(items, weight) <= limit
    ensures AllFit(items, weight, limit)
  {
    if items != [] {
      var n := |items| - 1;
      LightBatchFits(items[..n], weight, limit);
      AllFitSplit(items, weight, limit, n);
    }
  }

  /** Under a size limit the splitter returns the whole answer exactly when each item fits by
      itself, and otherwise reports that a message was too large. */
  lemma {:induction false} SucceedsIffItemsFit<T(!new), K(!new), V(!new), E(!new)>(
    items: seq<T>, call: seq<T> -> Reply<K, V, E>, answer: T -> map<K, V>, weight: T -> nat, limit: nat)
    requires LimitedBySize(call, answer, weight, limit)
    ensures Adaptive(items, call) == if AllFit(items, weight, limit) then Answer(Merged(items, answer)) else TooLarge
    decreases |items|
  {
    if call(items).Answer? {
      LightBatchFits(items, weight, limit);
    } else if |items| > 1 {
      hide Merged, Weight, AllFit, LimitedBySize;
      var mid := Max(1, |items| / 2);
      SucceedsIffItemsFit(items[..mid], call, answer, weight, limit);
      SucceedsIffItemsFit(items[mid..], call, answer, weight, limit);
      AllFitSplit(items, weight, limit, mid);
      MergedAppend(items[..mid], items[mid..], answer);
      assert items == items[..mid] + items[mid..];
    } else if |items| == 1 {
      assert items[..0] == [];
    }
  }
}
