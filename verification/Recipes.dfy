/** Recipe identity: the byte string whose digest names a recipe. */
module Recipes {
  import opened Prelude

  datatype Row = Row(order: nat, hash: Hash, size: nat)
  {
    /** Fits the four and eight bytes it is written in. */
    predicate InRange() { order < 0x1_0000_0000 && size < 0x1_0000_0000_0000_0000 }
  }

  /** "stopan.recipe.v1" and a zero byte. */
  const DOMAIN: Bytes := [115, 116, 111, 112, 97, 110, 46, 114, 101, 99, 105, 112, 101, 46, 118, 49, 0]

  /** Big-endian digits of n in the given number of bytes. */
  function BigEndian(n: nat, width: nat): (bytes: Bytes)
    ensures |bytes| == width
  {
    if width == 0 then [] else BigEndian(n / 256, width - 1) + [n % 256]
  }

  function Value(bytes: Bytes): nat
  {
    if bytes == [] then 0 else 256 * Value(bytes[..|bytes| - 1]) + bytes[|bytes| - 1]
  }

  function Pow256(k: nat): nat
  {
    if k == 0 then 1 else 256 * Pow256(k - 1)
  }

  lemma {:induction false} BigEndianRoundTrip(n: nat, width: nat)
    requires n < Pow256(width)
    ensures Value(BigEndian(n, width)) == n
  {
    if width > 0 {
      BigEndianRoundTrip(n / 256, width - 1);
      var bytes := BigEndian(n, width);
      assert bytes[..width - 1] == BigEndian(n / 256, width - 1);
    }
  }

  lemma Widths()
    ensures Pow256(4) == 0x1_0000_0000 && Pow256(8) == 0x1_0000_0000_0000_0000
  {
    assert Pow256(2) == 65536;
    assert Pow256(3) == 256 * Pow256(2);
    assert Pow256(4) == 256 * Pow256(3);
    assert Pow256(5) == 256 * Pow256(4);
    assert Pow256(6) == 256 * Pow256(5);
    assert Pow256(7) == 256 * Pow256(6);
  }

  function EncodeRow(r: Row): (bytes: Bytes)
    ensures |bytes| == 44
  {
    BigEndian(r.order, 4) + r.hash + BigEndian(r.size, 8)
  }

  function EncodeRows(rows: seq<Row>): (bytes: Bytes)
    ensures |bytes| == 44 * |rows|
  {
    if rows == [] then [] else EncodeRows(rows[..|rows| - 1]) + EncodeRow(rows[|rows| - 1])
  }

  ghost predicate AllInRange(rows: seq<Row>)
  {
    forall i :: 0 <= i < |rows| ==> rows[i].InRange()
  }

  function Preimage(rows: seq<Row>): Bytes
  {
    DOMAIN + EncodeRows(rows)
  }

  /** The digest is fed piece by piece; a number too large for its field stops it. */
  method BuildPreimage(rows: seq<Row>) returns (fed: Option<Bytes>)
    ensures fed == if AllInRange(rows) then Some(Preimage(rows)) else None
  {
    var bytes := DOMAIN;
    for i := 0 to |rows|
      invariant AllInRange(rows[..i]) && bytes == Preimage(rows[..i])
    {
      assert rows[..i + 1][..i] == rows[..i];
      if rows[i].order >= 0x1_0000_0000 {
        return None;
      }
      if rows[i].size >= 0x1_0000_0000_0000_0000 {
        return None;
      }
      var before := bytes;
      bytes := bytes + BigEndian(rows[i].order, 4);
      bytes := bytes + rows[i].hash;
      bytes := bytes + BigEndian(rows[i].size, 8);
      assert bytes == before + EncodeRow(rows[i]);
      assert bytes == DOMAIN + (EncodeRows(rows[..i]) + EncodeRow(rows[i]));
    }
    assert rows[..|rows|] == rows;
    return Some(bytes);
  }

  lemma RowInjective(a: Row, b: Row)
    requires a.InRange() && b.InRange() && EncodeRow(a) == EncodeRow(b)
    ensures a == b
  {
    hide BigEndian, Pow256, Value;
    Widths();
    BigEndianRoundTrip(a.order, 4);
    BigEndianRoundTrip(b.order, 4);
    BigEndianRoundTrip(a.size, 8);
    BigEndianRoundTrip(b.size, 8);
    assert EncodeRow(a)[..4] == BigEndian(a.order, 4) && EncodeRow(b)[..4] == BigEndian(b.order, 4);
    assert EncodeRow(a)[4..36] == a.hash && EncodeRow(b)[4..36] == b.hash;
    assert EncodeRow(a)[36..] == BigEndian(a.size, 8) && EncodeRow(b)[36..] == BigEndian(b.size, 8);
  }

  lemma {:induction false} RowsInjective(a: seq<Row>, b: seq<Row>)
    requires AllInRange(a) && AllInRange(b) && EncodeRows(a) == EncodeRows(b)
    ensures a == b
    decreases |a|
  {
    hide EncodeRow;
    assert |a| == |b|;
    if a != [] {
      var n := |a| - 1;
      assert EncodeRows(a)[..44 * n] == EncodeRows(a[..n]) && EncodeRows(b)[..44 * n] == EncodeRows(b[..n]);
      assert EncodeRows(a)[44 * n..] == EncodeRow(a[n]) && EncodeRows(b)[44 * n..] == EncodeRow(b[n]);
      RowsInjective(a[..n], b[..n]);
      RowInjective(a[n], b[n]);
      assert a == a[..n] + [a[n]] && b == b[..n] + [b[n]];
    }
  }

  /** Two in-range recipes with the same preimage are the same recipe; and so are, unless their
      preimages collide, two recipes with the same name. */
  lemma RecipeIdentity(h: Hasher, u: Universe, a: seq<Row>, b: seq<Row>)
    requires AllInRange(a) && AllInRange(b)
    ensures Preimage(a) == Preimage(b) <==> a == b
    ensures InjectiveOn(h, u) && Preimage(a) in u && Preimage(b) in u ==> (h(Preimage(a)) == h(Preimage(b)) <==> a == b)
  {
    hide EncodeRows;
    if Preimage(a) == Preimage(b) {
      assert Preimage(a)[|DOMAIN|..] == EncodeRows(a) && Preimage(b)[|DOMAIN|..] == EncodeRows(b);
      RowsInjective(a, b);
    }
  }
}
