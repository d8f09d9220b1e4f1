/** What the filter's hash is: the published FNV-1a values, and that no byte and no seed is lost. */
module Hashing {
  import opened Bytes
  import opened Bloom

  // ---- every step can be undone ----

  /** The multiplicative inverse of the prime modulo 2^64. */
  const FNV_INVERSE: nat := 0xce965057aff6957b

  lemma MulUndone(x: nat)
    requires x < U64_LIMIT
    ensures WrappingMul(WrappingMul(x, FNV_PRIME), FNV_INVERSE) == x
  {
    var r := (x * FNV_PRIME) % U64_LIMIT;
    var q := (x * FNV_PRIME) / U64_LIMIT;
    assert FNV_PRIME * FNV_INVERSE == 1 + 887285111055 * U64_LIMIT;
    assert x * FNV_PRIME == q * U64_LIMIT + r;
    var t: int := 887285111055 * x - FNV_INVERSE * q;
    assert r * FNV_INVERSE == x + t * U64_LIMIT;
    ModOf(r * FNV_INVERSE, t, x);
  }

  lemma ModOf(n: int, t: int, x: nat)
    requires n == x + t * U64_LIMIT && x < U64_LIMIT
    ensures n % U64_LIMIT == x
  {
    var d := n / U64_LIMIT - t;
    assert n % U64_LIMIT == x - d * U64_LIMIT;
  }

  lemma {:induction false} XorFits(a: nat, b: nat, width: nat)
    ensures Xor(a, b, width) < Pow2(width)
  {
    if width > 0 { XorFits(a / 2, b / 2, width - 1); }
  }

  /** Either side of an exclusive or decides the other. */
  lemma XorCancels(a: nat, b: nat, c: nat, d: nat, width: nat)
    requires a < Pow2(width) && b < Pow2(width) && c < Pow2(width) && d < Pow2(width)
    requires Xor(a, c, width) == Xor(b, d, width)
    ensures a == b <==> c == d
  {
    hide Xor;
    hide TestBit;
    forall j: nat | j < width
      ensures (TestBit(a, j) <==> TestBit(b, j)) <==> (TestBit(c, j) <==> TestBit(d, j))
    {
      XorIs(a, c, width, j);
      XorIs(b, d, width, j);
    }
    if a == b { SameBits(c, d, width); }
    if c == d { SameBits(a, b, width); }
  }

  lemma {:induction false} Pow2Sum(a: nat, b: nat)
    ensures Pow2(a + b) == Pow2(a) * Pow2(b)
  {
    if a > 0 {
      Pow2Sum(a - 1, b);
      assert Pow2(a + b) == 2 * Pow2(a - 1 + b);
    }
  }

  lemma Pow2Of64()
    ensures Pow2(64) == U64_LIMIT
  {
    Pow2Of8();
    hide Pow2;
    Pow2Sum(8, 8);
    Pow2Sum(16, 16);
    Pow2Sum(32, 32);
  }

  lemma {:induction false} StateFits(key: Bytes, n: nat, seed: Byte)
    requires n <= |key|
    ensures HashPrefix(key, n, seed) < U64_LIMIT
  {
    if n == 0 {
      Pow2Of64();
      XorFits(FNV_OFFSET, seed as nat, 64);
    }
  }

  /** Two states after one byte each: one of state and byte decides the other. */
  lemma StepInjective(g: nat, h: nat, a: Byte, b: Byte)
    requires g < U64_LIMIT && h < U64_LIMIT
    requires WrappingMul(Xor(g, a as nat, 64), FNV_PRIME) == WrappingMul(Xor(h, b as nat, 64), FNV_PRIME)
    ensures g == h <==> a == b
  {
    hide Xor;
    hide WrappingMul;
    Pow2Of64();
    XorFits(g, a as nat, 64);
    XorFits(h, b as nat, 64);
    MulUndone(Xor(g, a as nat, 64));
    MulUndone(Xor(h, b as nat, 64));
    XorCancels(g, h, a as nat, b as nat, 64);
  }

  /** Keys that differ in one byte hash differently under any seed. */
  lemma OneByteDecides(key: Bytes, other: Bytes, p: nat, seed: Byte)
    requires |key| == |other| && p < |key| && key[p] != other[p]
    requires forall j | 0 <= j < |key| && j != p :: key[j] == other[j]
    ensures Hash(key, seed) != Hash(other, seed)
  {
    OneByteSoFar(key, other, p, |key|, seed);
  }

  lemma {:induction false} OneByteSoFar(key: Bytes, other: Bytes, p: nat, n: nat, seed: Byte)
    requires |key| == |other| && p < |key| && key[p] != other[p] && n <= |key|
    requires forall j | 0 <= j < |key| && j != p :: key[j] == other[j]
    ensures HashPrefix(key, n, seed) == HashPrefix(other, n, seed) <==> n <= p
  {
    hide Xor;
    hide WrappingMul;
    if n > 0 {
      OneByteSoFar(key, other, p, n - 1, seed);
      StateFits(key, n - 1, seed);
      StateFits(other, n - 1, seed);
      var (g, h) := (HashPrefix(key, n - 1, seed), HashPrefix(other, n - 1, seed));
      if HashPrefix(key, n, seed) == HashPrefix(other, n, seed) {
        StepInjective(g, h, key[n - 1], other[n - 1]);
      }
    }
  }

  /** The two hashes of a key differ: a seed is never lost. */
  lemma SeedDecides(key: Bytes, s: Byte, t: Byte)
    requires s != t
    ensures Hash(key, s) != Hash(key, t)
  {
    SeedSoFar(key, |key|, s, t);
  }

  lemma {:induction false} SeedSoFar(key: Bytes, n: nat, s: Byte, t: Byte)
    requires s != t && n <= |key|
    ensures HashPrefix(key, n, s) != HashPrefix(key, n, t)
  {
    hide Xor;
    hide WrappingMul;
    if n == 0 {
      Pow2Of64();
      if Xor(FNV_OFFSET, s as nat, 64) == Xor(FNV_OFFSET, t as nat, 64) {
        XorCancels(FNV_OFFSET, FNV_OFFSET, s as nat, t as nat, 64);
      }
    } else {
      SeedSoFar(key, n - 1, s, t);
      StateFits(key, n - 1, s);
      StateFits(key, n - 1, t);
      if HashPrefix(key, n, s) == HashPrefix(key, n, t) {
        StepInjective(HashPrefix(key, n - 1, s), HashPrefix(key, n - 1, t), key[n - 1], key[n - 1]);
      }
    }
  }

  // ---- published values ----

  lemma {:induction false} XorZero(a: nat, width: nat)
    requires a < Pow2(width)
    ensures Xor(a, 0, width) == a
  {
    if width > 0 { XorZero(a / 2, width - 1); }
  }

  /** An exclusive or splits into its low `k` bits and the rest. */
  lemma {:induction false} XorParts(p: nat, r: nat, q: nat, s: nat, k: nat, width: nat)
    requires r < Pow2(k) && s < Pow2(k)
    ensures Xor(Pow2(k) * p + r, Pow2(k) * q + s, k + width) == Pow2(k) * Xor(p, q, width) + Xor(r, s, k)
  {
    hide Xor;
    if k == 0 {
      NoXor(r, s);
    } else {
      var (x, y) := (Pow2(k - 1) * p, Pow2(k - 1) * q);
      assert Pow2(k) == 2 * Pow2(k - 1);
      DoubleParts(Pow2(k), Pow2(k - 1), p, x);
      DoubleParts(Pow2(k), Pow2(k - 1), q, y);
      DoubleParts(Pow2(k), Pow2(k - 1), Xor(p, q, width), Pow2(k - 1) * Xor(p, q, width));
      XorParts(p, r / 2, q, s / 2, k - 1, width);
      XorDoubles(x, r, y, s, k + width);
      XorDoubles(0, r, 0, s, k);
    }
  }

  lemma NoXor(r: nat, s: nat)
    ensures Xor(r, s, 0) == 0
  {
  }

  lemma DoubleParts(c: nat, d: nat, p: nat, x: nat)
    requires c == 2 * d && x == d * p
    ensures c * p == 2 * x
  {
  }

  lemma XorDoubles(x: nat, r: nat, y: nat, s: nat, width: nat)
    requires width > 0
    ensures Xor(2 * x + r, 2 * y + s, width) == 2 * Xor(x + r / 2, y + s / 2, width - 1) + (r + s) % 2
  {
    assert (2 * x + r) / 2 == x + r / 2 && (2 * y + s) / 2 == y + s / 2;
    assert (2 * x + r + (2 * y + s)) % 2 == (r + s) % 2;
  }

  lemma HalfXor(a: nat, b: nat)
    ensures Xor(a, b, 4) ==
            (a + b) % 2 + 2 * ((a / 2 + b / 2) % 2) + 4 * ((a / 4 + b / 4) % 2) + 8 * ((a / 8 + b / 8) % 2)
  {
    assert a / 2 / 2 == a / 4 && a / 4 / 2 == a / 8 && b / 2 / 2 == b / 4 && b / 4 / 2 == b / 8;
    assert Xor(a / 8, b / 8, 1) == (a / 8 + b / 8) % 2;
    assert Xor(a / 4, b / 4, 2) == 2 * Xor(a / 8, b / 8, 1) + (a / 4 + b / 4) % 2;
    assert Xor(a / 2, b / 2, 3) == 2 * Xor(a / 4, b / 4, 2) + (a / 2 + b / 2) % 2;
  }

  /** The exclusive or of two bytes, bit by bit. */
  lemma ByteXor(p: nat, r: nat, q: nat, s: nat)
    requires r < 16 && s < 16
    ensures Xor(16 * p + r, 16 * q + s, 8) ==
            (r + s) % 2 + 2 * ((r / 2 + s / 2) % 2) + 4 * ((r / 4 + s / 4) % 2) + 8 * ((r / 8 + s / 8) % 2)
            + 16 * ((p + q) % 2) + 32 * ((p / 2 + q / 2) % 2) + 64 * ((p / 4 + q / 4) % 2)
            + 128 * ((p / 8 + q / 8) % 2)
  {
    hide Xor;
    assert Pow2(4) == 16;
    hide Pow2;
    XorParts(p, r, q, s, 4, 4);
    HalfXor(p, q);
    HalfXor(r, s);
  }

  /** The start of the hash for the two seeds in use. */
  lemma HashStart(key: Bytes)
    ensures HashPrefix(key, 0, 0) == FNV_OFFSET
  {
    hide Xor;
    XorWide(FNV_OFFSET / 256, 37, 0);
    ByteXor(2, 5, 0, 0);
  }

  lemma SecondStart(key: Bytes)
    ensures HashPrefix(key, 0, 1) == FNV_OFFSET - 1
  {
    hide Xor;
    XorWide(FNV_OFFSET / 256, 37, 1);
    ByteXor(2, 5, 0, 1);
  }

  /** A byte changes only the low eight bits of the state. */
  lemma XorWide(high: nat, low: nat, b: Byte)
    requires low < 256 && 256 * high + low < U64_LIMIT
    ensures Xor(256 * high + low, b as nat, 64) == 256 * high + Xor(low, b as nat, 8)
  {
    hide Xor;
    Pow2Of8();
    HighFits(high);
    hide Pow2;
    XorParts(high, low, 0, b as nat, 8, 56);
    XorZero(high, 56);
  }

  lemma HighFits(high: nat)
    requires 256 * high < U64_LIMIT
    ensures high < Pow2(56)
  {
    Pow2Of8();
    Pow2Of64();
    hide Pow2;
    Pow2Sum(8, 56);
  }

  /** One step of the hash in numbers: the byte changes the low eight bits, then the product is cut
      to 64 bits. */
  lemma HashStep(key: Bytes, n: nat, seed: Byte, high: nat, low: nat, mixed: nat, q: nat, next: nat)
    requires n < |key| && HashPrefix(key, n, seed) == 256 * high + low && low < 256
    requires Xor(low, key[n] as nat, 8) == mixed
    requires (256 * high + mixed) * FNV_PRIME == q * U64_LIMIT + next && next < U64_LIMIT
    ensures HashPrefix(key, n + 1, seed) == next
  {
    hide Xor;
    StateFits(key, n, seed);
    XorWide(high, low, key[n]);
    ModOf((256 * high + mixed) * FNV_PRIME, q, next);
  }

  /** The published FNV-1a value of "a". */
  lemma HashOfA(key: Bytes)
    requires key == [0x61]
    ensures Hash(key, 0) == 0xaf63dc4c8601ec8c
  {
    hide Xor;
    hide HashPrefix;
    HashStart(key);
    ByteXor(0x2, 0x5, 0x6, 0x1);
    HashStep(key, 0, 0, 0xcbf29ce4842223, 0x25, 0x44, 875948729822, 0xaf63dc4c8601ec8c);
  }

  /** The second hash starts from the offset with its lowest bit changed. */
  lemma SecondHashOfA(key: Bytes)
    requires key == [0x61]
    ensures Hash(key, 1) == 0xaf63dd4c8601ee3f
  {
    hide Xor;
    hide HashPrefix;
    SecondStart(key);
    ByteXor(0x2, 0x4, 0x6, 0x1);
    HashStep(key, 0, 1, 0xcbf29ce4842223, 0x24, 0x45, 875948729822, 0xaf63dd4c8601ee3f);
  }

  /** The published FNV-1a value of "b". */
  lemma HashOfB(key: Bytes)
    requires key == [0x62]
    ensures Hash(key, 0) == 0xaf63df4c8601f1a5
  {
    hide Xor;
    hide HashPrefix;
    HashStart(key);
    ByteXor(0x2, 0x5, 0x6, 0x2);
    HashStep(key, 0, 0, 0xcbf29ce4842223, 0x25, 0x47, 875948729822, 0xaf63df4c8601f1a5);
  }

  /** An even second hash, so the step between two probes is one more. */
  lemma SecondHashOfB(key: Bytes)
    requires key == [0x62]
    ensures Hash(key, 1) == 0xaf63de4c8601eff2
  {
    hide Xor;
    hide HashPrefix;
    SecondStart(key);
    ByteXor(0x2, 0x4, 0x6, 0x2);
    HashStep(key, 0, 1, 0xcbf29ce4842223, 0x24, 0x46, 875948729822, 0xaf63de4c8601eff2);
  }

  /** The first two probes of a key, from its hashes and the quotients. */
  lemma ProbesAt(key: Bytes, h1: nat, h2: nat, q: nat, first: nat, c: nat, r: nat, second: nat)
    requires Hash(key, 0) == h1 && h1 < U64_LIMIT && h2 < U64_LIMIT
    requires h2 % 2 == 1 && h2 - 1 <= Hash(key, 1) <= h2
    requires h1 == 7968 * q + first && first < 7968
    requires h1 + h2 == c * U64_LIMIT + 7968 * r + second && 7968 * r + second < U64_LIMIT && second < 7968
    ensures Probe(key, 0) == first && Probe(key, 1) == second
  {
    hide Hash;
    StepOf(Hash(key, 1), h2);
    FirstTwo(h1, h2, c, 7968 * r + second);
    Reduced(h1, q, first);
    Reduced(7968 * r + second, r, second);
    hide OrOne;
    hide WrappingAdd;
    hide WrappingMul;
  }

  lemma StepOf(h: nat, step: nat)
    requires step % 2 == 1 && step - 1 <= h <= step
    ensures OrOne(h) == step
  {
  }

  lemma FirstTwo(h1: nat, h2: nat, c: nat, sum: nat)
    requires h1 < U64_LIMIT && h2 < U64_LIMIT && h1 + h2 == c * U64_LIMIT + sum && sum < U64_LIMIT
    ensures WrappingAdd(h1, WrappingMul(0, h2)) == h1 && WrappingAdd(h1, WrappingMul(1, h2)) == sum
  {
    ModOf(h1, 0, h1);
    ModOf(h2, 0, h2);
    ModOf(h1 + h2, c, sum);
    assert WrappingMul(0, h2) == 0 && WrappingMul(1, h2) == h2;
  }

  lemma Reduced(n: nat, q: nat, r: nat)
    requires n == 7968 * q + r && r < 7968
    ensures n % M_BITS == r
  {
    assert M_BITS == 7968;
  }

  lemma SampleProbes(a: Bytes, b: Bytes)
    requires a == [0x61] && b == [0x62]
    ensures Probe(a, 0) == 7660 && Probe(a, 1) == 7211 && Probe(b, 0) == 4357 && Probe(b, 1) == 5464
  {
    hide Hash;
    hide Probe;
    HashOfA(a);
    SecondHashOfA(a);
    HashOfB(b);
    SecondHashOfB(b);
    ProbesAt(a, 0xaf63dc4c8601ec8c, 0xaf63dd4c8601ee3f, 1586117871555677, 7660,
             1, 857132458196957, 7211);
    ProbesAt(b, 0xaf63df4c8601f1a5, 0xaf63de4c8601eff3, 1586118285528429, 4357,
             1, 857133010160626, 5464);
  }

  /** A block for "a" alone sets two bits and rules "b" out. */
  lemma RulesOut(a: Bytes, b: Bytes)
    requires a == [0x61] && b == [0x62]
    ensures MayContain(Block(2, [a]), a) && !MayContain(Block(2, [a]), b)
  {
    hide Probe;
    hide MayContain;
    SampleProbes(a, b);
    OnlyTwo(a, b);
  }

  lemma OnlyTwo(a: Bytes, b: Bytes)
    requires Probe(b, 0) != Probe(a, 0) && Probe(b, 0) != Probe(a, 1)
    ensures MayContain(Block(2, [a]), a) && !MayContain(Block(2, [a]), b)
  {
    hide Probe;
    hide MayContain;
    NoFalseNegatives(2, [a], a);
    AnswerIs(2, [a], b);
    forall m: nat, i: nat | m < 1 && i < 2 ensures Probe([a][m], i) != Probe(b, 0) {
      var idx := if i == 0 then Probe(a, 0) else Probe(a, 1);
    }
  }

  /** Two probes of a lone key own two bits. */
  lemma OwnedByOne(a: Bytes, idx: nat)
    ensures Owned(2, [a], 1, idx) <==> idx == Probe(a, 0) || idx == Probe(a, 1)
  {
    hide Probe;
    if idx == Probe(a, 0) || idx == Probe(a, 1) {
      var i := if idx == Probe(a, 0) then 0 else 1;
      assert Probe([a][0], i) == idx;
    }
    if Owned(2, [a], 1, idx) {
      var m: nat, i: nat :| m < 1 && i < 2 && Probe([a][m], i) == idx;
      assert Probe([a][m], i) == if i == 0 then Probe(a, 0) else Probe(a, 1);
    }
  }

  /** A byte with one bit set, or none. */
  lemma LoneBit(x: nat, j: nat)
    requires x < 256 && j < 8 && forall i: nat | i < 8 :: TestBit(x, i) <==> i == j
    ensures x == OrBit(0, j)
  {
    Pow2Of8();
    OrBitFits(0, j, 8);
    forall i: nat | i < 8 ensures TestBit(OrBit(0, j), i) <==> i == j {
      OrBitIs(0, j, i);
      ZeroTests(i);
    }
    SameBits(x, OrBit(0, j), 8);
  }

  lemma NoBit(x: nat)
    requires x < 256 && forall i: nat | i < 8 :: !TestBit(x, i)
    ensures x == 0
  {
    Pow2Of8();
    forall i: nat | i < 8 ensures !TestBit(0, i) { ZeroTests(i); }
    SameBits(x, 0, 8);
  }

  lemma SampleBit(a: Bytes, p: nat, i: nat)
    requires a == [0x61] && p < BITMAP_LEN && i < 8
    ensures TestBit(Bitmap(2, [a])[p] as nat, i) <==> (p == 957 && i == 4) || (p == 901 && i == 3)
  {
    hide TestBit;
    hide Probe;
    hide Owned;
    SampleProbes(a, [0x62]);
    var (bits, idx) := (Bitmap(2, [a]), 8 * p + i);
    assert idx / 8 == p && idx % 8 == i;
    assert BitAt(bits, idx) <==> Owned(2, [a], 1, idx);
    OwnedByOne(a, idx);
  }

  /** The whole block for "a" alone: the probe count in four bytes, then all zeros but two bits, bit 7660
      in byte 957 of the bitmap and bit 7211 in byte 901. */
  lemma SampleBlock(a: Bytes, p: nat)
    requires a == [0x61] && p < BITMAP_LEN
    ensures Block(2, [a])[..4] == [2, 0, 0, 0]
    ensures Block(2, [a])[4 + p] == if p == 957 then 16 else if p == 901 then 8 else 0
  {
    hide TestBit;
    hide Bitmap;
    U32Bytes(2);
    var x := Bitmap(2, [a])[p] as nat;
    forall i: nat | i < 8 ensures TestBit(x, i) <==> (p == 957 && i == 4) || (p == 901 && i == 3) {
      SampleBit(a, p, i);
    }
    if p == 957 {
      LoneBit(x, 4);
      assert OrBit(0, 4) == 16;
    } else if p == 901 {
      LoneBit(x, 3);
      assert OrBit(0, 3) == 8;
    } else {
      NoBit(x);
    }
  }

  /** With no bit set, the block rules every key out exactly when its probe count is from 2 to 30; a block
      that is all zeros, header included, rules none out. */
  lemma CountDecides(k: nat, key: Bytes)
    requires k < U32_LIMIT
    ensures MayContain(U32(k) + Zeros(BITMAP_LEN), key) <==> k < 2 || k > 30
  {
    hide Probe;
    hide BitAt;
    var block := U32(k) + Zeros(BITMAP_LEN);
    assert block[..4] == U32(k) && block[4..] == Zeros(BITMAP_LEN);
    ZeroBits(Probe(key, 0));
    if AllZero(block) {
      assert forall i | 0 <= i < 4 :: U32(k)[i] == block[i];
      ZeroHeader(U32(k));
    }
  }
}
