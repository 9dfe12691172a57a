/** The cut-judgement masks of the native chunker: which average sizes are accepted and what
    the two masks derived from an accepted size look like. Machine words are natural numbers;
    the two bitwise operations the chunker uses are spelled out bit by bit. */
module GearMasks {
  import opened Prelude

  const WINDOW_BITS := 48
  const NORMALIZATION_LEVEL := 2
  const MASK_S_8K: nat := 0x0000d9f003530000
  const MASK_L_8K: nat := 0x0000d90003530000

  // ---------------------------------------------------------------- bitwise operations

  /** Bit p of a. */
  predicate Bit(a: nat, p: nat)
    decreases p
  {
    if p == 0 then a % 2 == 1 else Bit(a / 2, p - 1)
  }

  /** (a & m) == 0 */
  predicate AndIsZero(a: nat, m: nat)
  {
    if a == 0 || m == 0 then true
    else !(a % 2 == 1 && m % 2 == 1) && AndIsZero(a / 2, m / 2)
  }

  /** a | b */
  function Or(a: nat, b: nat): nat
  {
    if a == 0 then b
    else if b == 0 then a
    else (if a % 2 == 1 || b % 2 == 1 then 1 else 0) + 2 * Or(a / 2, b / 2)
  }

  function PopCount(a: nat): nat
  {
    if a == 0 then 0 else a % 2 + PopCount(a / 2)
  }

  lemma {:induction false} ZeroHasNoBits(p: nat)
    ensures !Bit(0, p)
  {
    if p > 0 {
      ZeroHasNoBits(p - 1);
    }
  }

  /** Words that agree modulo 2^j look the same through any mask below 2^j. */
  lemma {:induction false} AndIsZeroLowBits(a: nat, b: nat, m: nat, j: nat)
    requires a % Pow2(j) == b % Pow2(j)
    requires m < Pow2(j)
    ensures AndIsZero(a, m) == AndIsZero(b, m)
    decreases j
  {
    if m == 0 {
    } else {
      ModHalves(a, j);
      ModHalves(b, j);
      AndIsZeroLowBits(a / 2, b / 2, m / 2, j - 1);
      assert AndIsZero(a, m) == (!(a % 2 == 1 && m % 2 == 1) && AndIsZero(a / 2, m / 2)) by {
        if a == 0 { assert a / 2 == 0; }
      }
      assert AndIsZero(b, m) == (!(b % 2 == 1 && m % 2 == 1) && AndIsZero(b / 2, m / 2)) by {
        if b == 0 { assert b / 2 == 0; }
      }
    }
  }

  /** The residue modulo 2^j fixes the lowest bit and the residue of the rest. */
  lemma ModHalves(a: nat, j: nat)
    requires j > 0
    ensures a % Pow2(j) == 2 * ((a / 2) % Pow2(j - 1)) + a % 2
  {
    var h := Pow2(j - 1);
    var q, r := (a / 2) / h, (a / 2) % h;
    assert a == 2 * (q * h + r) + a % 2;
    assert a == q * (2 * h) + (2 * r + a % 2);
    ModUnique(a, 2 * h, q, 2 * r + a % 2);
  }

  lemma ModUnique(a: int, m: int, q: int, r: int)
    requires m > 0 && 0 <= r < m && a == q * m + r
    ensures a % m == r
  {
    var q', r' := a / m, a % m;
    assert a == q' * m + r';
    assert (q - q') * m == r' - r;
    MultipleAtLeast(q - q', m);
  }

  /** A non-zero multiple of m is at least m in magnitude. */
  lemma MultipleAtLeast(x: int, m: int)
    requires m > 0
    ensures x >= 1 ==> x * m >= m
    ensures x <= -1 ==> x * m <= -m
  {
  }

  /** OR-ing in a bit above every set bit is addition, and adds one to the population count. */
  lemma {:induction false} OrFreshHighBit(a: nat, p: nat)
    requires a < Pow2(p)
    ensures Or(a, Pow2(p)) == a + Pow2(p)
    ensures PopCount(Or(a, Pow2(p))) == PopCount(a) + 1
    decreases p
  {
    if p == 0 {
      assert PopCount(1) == 1;
    } else if a == 0 {
      OrFreshHighBit(0, p - 1);
      assert Pow2(p) / 2 == Pow2(p - 1) && Pow2(p) % 2 == 0;
    } else {
      OrFreshHighBit(a / 2, p - 1);
      assert Pow2(p) / 2 == Pow2(p - 1) && Pow2(p) % 2 == 0;
      var s := Or(a, Pow2(p));
      assert s == a % 2 + 2 * Or(a / 2, Pow2(p - 1));
      assert s / 2 == Or(a / 2, Pow2(p - 1)) && s % 2 == a % 2;
    }
  }

  // ---------------------------------------------------------------- power_of_two_log2

  ghost predicate IsPowerOfTwo(v: int)
  {
    exists k: nat :: v == Pow2(k)
  }

  lemma PowerOfTwoHalf(v: nat)
    requires v > 1
    ensures IsPowerOfTwo(v) <==> v % 2 == 0 && IsPowerOfTwo(v / 2)
  {
    if IsPowerOfTwo(v) {
      var k: nat :| v == Pow2(k);
      assert k > 0;
      assert v / 2 == Pow2(k - 1);
    }
    if v % 2 == 0 && IsPowerOfTwo(v / 2) {
      var k: nat :| v / 2 == Pow2(k);
      assert v == Pow2(k + 1);
    }
  }

  /** v & (v - 1) is zero for positive v exactly when v is a power of two. */
  lemma {:induction false} PowerOfTwoTest(v: nat)
    requires v > 0
    ensures AndIsZero(v, v - 1) <==> IsPowerOfTwo(v)
  {
    if v == 1 {
      assert v == Pow2(0);
    } else {
      PowerOfTwoHalf(v);
      if v % 2 == 1 {
        assert (v - 1) / 2 == v / 2;
        SelfAnd(v / 2);
      } else {
        PowerOfTwoTest(v / 2);
        assert (v - 1) / 2 == v / 2 - 1;
      }
    }
  }

  lemma {:induction false} SelfAnd(v: nat)
    requires v > 0
    ensures !AndIsZero(v, v)
  {
    if v % 2 == 0 {
      SelfAnd(v / 2);
    }
  }

  lemma {:induction false} Pow2Injective(a: nat, b: nat)
    requires Pow2(a) == Pow2(b)
    ensures a == b
  {
    if a < b {
      Pow2Monotone(a, b - 1);
    } else if b < a {
      Pow2Monotone(b, a - 1);
    }
  }

  /** -1 for anything but a power of two, its exponent otherwise. */
  method PowerOfTwoLog2(value: int) returns (log2: int)
    ensures log2 == -1 <==> !IsPowerOfTwo(value)
    ensures log2 >= -1
    ensures log2 >= 0 ==> value == Pow2(log2)
  {
    if value <= 0 {
      return -1;
    }
    var v: nat := value;
    PowerOfTwoTest(v);
    if !AndIsZero(v, v - 1) {
      return -1;
    }
    ghost var k: nat :| value == Pow2(k);
    log2 := 0;
    while v > 1
      invariant 0 <= log2 <= k
      invariant v == Pow2(k - log2)
    {
      assert v / 2 == Pow2(k - log2 - 1);
      v := v / 2;
      log2 := log2 + 1;
    }
    assert Pow2(k - log2) == Pow2(0);
    Pow2Injective(k - log2, 0);
  }

  // ---------------------------------------------------------------- spread_mask

  /** Position of the i-th of n effective bits, spread evenly over 0..47. */
  function BitPosition(i: nat, n: nat): nat
    requires n > 1
  {
    (i * (WINDOW_BITS - 1)) / (n - 1)
  }

  /** The mask after the first i bits have been placed. */
  function SpreadPrefix(i: nat, n: nat): nat
    requires n > 1
  {
    if i == 0 then 0 else Or(SpreadPrefix(i - 1, n), Pow2(BitPosition(i - 1, n)))
  }

  function TopBit(): nat { Pow2(WINDOW_BITS - 1) }

  function SpreadMask(bits: int): nat
  {
    if bits <= 0 || bits > WINDOW_BITS then 0
    else if bits == 1 then TopBit()
    else SpreadPrefix(bits, bits)
  }

  method BuildSpreadMask(bits: int) returns (mask: nat)
    ensures mask == SpreadMask(bits)
  {
    if bits <= 0 || bits > WINDOW_BITS {
      return 0;
    }
    if bits == 1 {
      return TopBit();
    }
    mask := 0;
    var n: nat := bits;
    for i := 0 to n
      invariant mask == SpreadPrefix(i, n)
    {
      var pos := (i * (WINDOW_BITS - 1)) / (n - 1);
      assert pos == BitPosition(i, n);
      mask := Or(mask, Pow2(pos));
    }
  }

  lemma PositionsIncrease(i: nat, n: nat)
    requires 1 < n <= WINDOW_BITS && i + 1 < n
    ensures BitPosition(i, n) < BitPosition(i + 1, n) <= WINDOW_BITS - 1
  {
    var d := n - 1;
    var a := i * 47;
    assert (i + 1) * 47 == a + 47;
    assert a == (a / d) * d + a % d;
    QuotientAtLeast(a + 47, d, a / d + 1);
    assert (i + 1) * 47 <= 47 * d;
    QuotientAtMost(a + 47, d, 47);
  }

  lemma QuotientAtLeast(a: int, d: int, q: int)
    requires d > 0 && a >= q * d
    ensures a / d >= q
  {
    assert a == (a / d) * d + a % d;
    MultipleAtLeast(q - a / d, d);
    assert (q - a / d) * d == q * d - (a / d) * d;
  }

  lemma QuotientAtMost(a: int, d: int, q: int)
    requires d > 0 && a <= q * d
    ensures a / d <= q
  {
    assert a == (a / d) * d + a % d;
    MultipleAtLeast(a / d - q, d);
    assert (a / d - q) * d == (a / d) * d - q * d;
  }

  lemma {:induction false} SpreadPrefixBits(i: nat, n: nat)
    requires 1 < n <= WINDOW_BITS && 1 <= i <= n
    ensures SpreadPrefix(i, n) < Pow2(BitPosition(i - 1, n) + 1)
    ensures PopCount(SpreadPrefix(i, n)) == i
    decreases i
  {
    var p := BitPosition(i - 1, n);
    if i == 1 {
      assert SpreadPrefix(0, n) == 0;
      OrFreshHighBit(0, p);
    } else {
      SpreadPrefixBits(i - 1, n);
      PositionsIncrease(i - 2, n);
      Pow2Monotone(BitPosition(i - 2, n) + 1, p);
      OrFreshHighBit(SpreadPrefix(i - 1, n), p);
    }
  }

  lemma TopBitMask()
    ensures PopCount(TopBit()) == 1 && TopBit() < Pow2(WINDOW_BITS)
  {
    var p := WINDOW_BITS - 1;
    OrFreshHighBit(0, p);
    assert Or(0, Pow2(p)) == Pow2(p);
    assert Pow2(p) < Pow2(p + 1);
    assert PopCount(0) == 0;
  }

  /** A spread mask has exactly the requested number of effective bits, all of them inside
      the 48-bit Gear window. */
  lemma SpreadMaskBits(bits: nat)
    requires 1 <= bits <= WINDOW_BITS
    ensures PopCount(SpreadMask(bits)) == bits
    ensures SpreadMask(bits) < Pow2(WINDOW_BITS)
  {
    hide Pow2, PopCount, Or, BitPosition;
    if bits == 1 {
      TopBitMask();
    } else {
      SpreadPrefixBits(bits, bits);
      PositionsIncrease(bits - 2, bits);
      Pow2Monotone(BitPosition(bits - 1, bits) + 1, WINDOW_BITS);
    }
  }

  // ---------------------------------------------------------------- build_masks

  datatype Masks = Masks(pre: nat, post: nat)

  /** The average sizes the native module accepts: the powers of two from 8 to 2^46. */
  predicate AcceptedAverage(avg: int)
  {
    avg > 0 && avg == Pow2(Log2(avg)) && 3 <= Log2(avg) <= 46
  }

  /** Both masks have the bit counts normalised chunking asks for (two more, two fewer than
      log2 of the average) and lie below 2^48. */
  predicate GoodMasks(avg: nat, m: Masks)
  {
    && PopCount(m.pre) == Log2(avg) + NORMALIZATION_LEVEL
    && PopCount(m.post) == Log2(avg) - NORMALIZATION_LEVEL
    && m.pre < Pow2(WINDOW_BITS) && m.post < Pow2(WINDOW_BITS)
  }

  function Log2(v: nat): nat
  {
    if v <= 1 then 0 else 1 + Log2(v / 2)
  }

  lemma {:induction false} Log2OfPower(k: nat)
    ensures Log2(Pow2(k)) == k
  {
    if k > 0 {
      Log2OfPower(k - 1);
      assert Pow2(k) / 2 == Pow2(k - 1);
    }
  }

  /** The masks used for average size avg, for the sizes that are accepted. */
  function MasksOf(avg: nat): Masks
  {
    if avg == 8192 then Masks(MASK_S_8K, MASK_L_8K)
    else Masks(SpreadMask(Log2(avg) + NORMALIZATION_LEVEL), SpreadMask(Log2(avg) - NORMALIZATION_LEVEL))
  }

  /** The published masks have 15 and 11 effective bits, as 8 KiB asks for. From the lowest
      they are 16, 17, 20, 22, 24, 25, then 36 to 39 in the strong one only, then 40, 43, 44,
      46 and 47. */
  lemma PublishedMasks(m: Masks)
    requires m == Masks(MASK_S_8K, MASK_L_8K)
    ensures PopCount(m.pre) == 15 && PopCount(m.post) == 11
    ensures m.pre < Pow2(WINDOW_BITS) && m.post < Pow2(WINDOW_BITS)
  {
    LowPowers();
    HighPowers();
    var low := AddBit(0, 0, 16);
    low := AddBit(low, 17, 17);
    low := AddBit(low, 18, 20);
    low := AddBit(low, 21, 22);
    low := AddBit(low, 23, 24);
    low := AddBit(low, 25, 25);
    assert PopCount(0) == 0;
    var s := AddBit(low, 26, 36);
    s := AddBit(s, 37, 37);
    s := AddBit(s, 38, 38);
    s := AddBit(s, 39, 39);
    s := AddHighDigits(s, 40);
    var l := AddHighDigits(low, 26);
    assert s == m.pre;
    assert l == m.post;
  }

  lemma AddBit(a: nat, top: nat, p: nat) returns (v: nat)
    requires a < Pow2(top) && top <= p
    ensures v == a + Pow2(p) && v < Pow2(p + 1) && PopCount(v) == PopCount(a) + 1
  {
    Pow2Monotone(top, p);
    OrFreshHighBit(a, p);
    v := a + Pow2(p);
  }

  lemma AddHighDigits(a: nat, top: nat) returns (v: nat)
    requires a < Pow2(top) && top <= 40
    ensures v == a + Pow2(40) + Pow2(43) + Pow2(44) + Pow2(46) + Pow2(47)
    ensures v < Pow2(48) && PopCount(v) == PopCount(a) + 5
  {
    v := AddBit(a, top, 40);
    v := AddBit(v, 41, 43);
    v := AddBit(v, 44, 44);
    v := AddBit(v, 45, 46);
    v := AddBit(v, 47, 47);
  }

  lemma LowPowers()
    ensures Pow2(0) == 1 && Pow2(16) == 0x1_0000 && Pow2(17) == 0x2_0000 && Pow2(20) == 0x10_0000
    ensures Pow2(22) == 0x40_0000 && Pow2(24) == 0x100_0000 && Pow2(25) == 0x200_0000
  {
    assert Pow2(8) == 0x100;
    assert Pow2(16) == 0x1_0000;
    assert Pow2(20) == 0x10_0000;
  }

  lemma HighPowers()
    ensures Pow2(36) == 0x10_0000_0000 && Pow2(37) == 0x20_0000_0000
    ensures Pow2(38) == 0x40_0000_0000 && Pow2(39) == 0x80_0000_0000
    ensures Pow2(40) == 0x100_0000_0000 && Pow2(43) == 0x800_0000_0000
    ensures Pow2(44) == 0x1000_0000_0000 && Pow2(46) == 0x4000_0000_0000
    ensures Pow2(47) == 0x8000_0000_0000
  {
    LowPowers();
    assert Pow2(32) == 0x1_0000_0000;
    assert Pow2(36) == 0x10_0000_0000;
    assert Pow2(40) == 0x100_0000_0000;
    assert Pow2(44) == 0x1000_0000_0000;
  }

  lemma Log2Of8K()
    ensures Log2(8192) == 13
  {
    assert Pow2(13) == 8192;
    Log2OfPower(13);
  }

  lemma MasksOfAccepted(avg: nat)
    requires AcceptedAverage(avg)
    ensures GoodMasks(avg, MasksOf(avg))
  {
    hide Pow2, PopCount, Or, SpreadMask, Log2;
    if avg == 8192 {
      PublishedMasks(MasksOf(avg));
      Log2Of8K();
    } else {
      SpreadMaskBits(Log2(avg) + 2);
      SpreadMaskBits(Log2(avg) - 2);
    }
  }

  lemma NoBitsInZero()
    ensures PopCount(0) == 0
  {
  }

  /** Accepts exactly the powers of two from 8 to 2^46. */
  method BuildMasks(avg: int) returns (r: Option<Masks>)
    ensures r.Some? <==> AcceptedAverage(avg)
    ensures r.Some? ==> avg > 0 && r.value == MasksOf(avg) && GoodMasks(avg, r.value)
  {
    hide Pow2, PopCount, SpreadMask, Or, Log2;
    var bits := PowerOfTwoLog2(avg);
    if bits < 0 {
      return None;
    }
    Log2OfPower(bits);
    var strong := bits + NORMALIZATION_LEVEL;
    var relaxed := bits - NORMALIZATION_LEVEL;
    if relaxed <= 0 || strong > WINDOW_BITS {
      return None;
    }
    MasksOfAccepted(avg);
    if avg == 8192 {
      return Some(Masks(MASK_S_8K, MASK_L_8K));
    }
    var pre := BuildSpreadMask(strong);
    var post := BuildSpreadMask(relaxed);
    NoBitsInZero();
    r := if pre != 0 && post != 0 then Some(Masks(pre, post)) else None;
  }
}
