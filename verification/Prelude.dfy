/** Vocabulary shared by every module: bytes, optional values, results, powers of two and
    concatenation of chunk lists. */
module Prelude {
  type Byte = b: int | 0 <= b < 256
  type Bytes = seq<Byte>

  /** A BLAKE3 digest, kept as its 32 raw bytes rather than as 64 hexadecimal digits. */
  type Hash = h: Bytes | |h| == 32 witness seq(32, i => 0)

  /** Content hashing. Nothing is assumed about it except where collisions would matter. */
  type Hasher = Bytes -> Hash

  /** The byte strings an argument is about. */
  type Universe = iset<Bytes>

  /** No two of them collide. Digests are finite, so this is only ever asked of some strings,
      never of all. */
  ghost predicate InjectiveOn(h: Hasher, u: Universe)
  {
    forall a: Bytes, b: Bytes :: a in u && b in u && h(a) == h(b) ==> a == b
  }

  ghost predicate PartsIn(u: Universe, parts: seq<Bytes>)
  {
    forall i :: 0 <= i < |parts| ==> parts[i] in u
  }

  datatype Option<+T> = None | Some(value: T)

  datatype Result<+T, +E> = Ok(value: T) | Err(error: E)

  function Pow2(n: nat): (p: nat)
    ensures p >= 1
  {
    if n == 0 then 1 else 2 * Pow2(n - 1)
  }

  lemma {:induction false} Pow2Monotone(a: nat, b: nat)
    requires a <= b
    ensures Pow2(a) <= Pow2(b)
  {
    if a < b {
      Pow2Monotone(a, b - 1);
    }
  }

  function Min(a: int, b: int): int { if a <= b then a else b }

  function Max(a: int, b: int): int { if a >= b then a else b }

  lemma SubSlice<T>(s: seq<T>, a: nat, b: nat, x: nat, y: nat)
    requires a <= b <= |s| && x <= y <= b - a
    ensures s[a..b][x..y] == s[a + x..a + y]
  {
    var t, u := s[a..b][x..y], s[a + x..a + y];
    assert forall i :: 0 <= i < y - x ==> t[i] == s[a..b][x + i] == s[a + x + i] == u[i];
    assert t == u;
  }

  lemma SliceOfAppend<T>(a: seq<T>, b: seq<T>, x: nat, y: nat)
    requires x <= y <= |a|
    ensures (a + b)[x..y] == a[x..y]
  {
  }

  lemma SliceOfPrefix<T>(s: seq<T>, n: nat, x: nat, y: nat)
    requires x <= y <= n <= |s|
    ensures s[..n][x..y] == s[x..y]
  {
  }

  lemma EndOfAppend<T>(a: seq<T>, b: seq<T>)
    ensures |a + b| == |a| + |b| && (a + b)[|a|..|a| + |b|] == b
  {
  }

  /** The bytes of a list of chunks, in order. */
  function Flatten<T>(parts: seq<seq<T>>): (whole: seq<T>)
    ensures parts == [] ==> whole == []
  {
    if parts == [] then [] else parts[0] + Flatten(parts[1..])
  }

  lemma {:induction false} FlattenAppend<T>(a: seq<seq<T>>, b: seq<seq<T>>)
    ensures Flatten(a + b) == Flatten(a) + Flatten(b)
  {
    if a == [] {
      assert a + b == b;
    } else {
      assert (a + b)[1..] == a[1..] + b;
      FlattenAppend(a[1..], b);
    }
  }

  lemma FlattenSnoc<T>(a: seq<seq<T>>, x: seq<T>)
    ensures Flatten(a + [x]) == Flatten(a) + x
  {
    FlattenAppend(a, [x]);
    assert [x][1..] == [];
  }
}
