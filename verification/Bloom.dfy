/** The Bloom filter block of an SSTable: a u32 probe count and 7968 bits, probed by double
    hashing with two seeded 64-bit FNV-1a hashes. */
module Bloom {
  import opened Bytes

  const BLOOM_FILTER_SIZE: nat := 1000
  const K_HEADER_LEN: nat := 4
  const BITMAP_LEN: nat := BLOOM_FILTER_SIZE - K_HEADER_LEN
  const M_BITS: nat := BITMAP_LEN * 8

  // ---- bits ----

  /** Bit `bit` of `n`. */
  predicate TestBit(n: nat, bit: nat) {
    if bit == 0 then n % 2 == 1 else TestBit(n / 2, bit - 1)
  }

  /** `n | (1 << bit)` */
  function OrBit(n: nat, bit: nat): nat {
    if bit == 0 then n + 1 - n % 2 else 2 * OrBit(n / 2, bit - 1) + n % 2
  }

  /** `a ^ b` on the low `width` bits. */
  function Xor(a: nat, b: nat, width: nat): nat {
    if width == 0 then 0 else 2 * Xor(a / 2, b / 2, width - 1) + (a + b) % 2
  }

  /** Setting a bit sets that bit and no other. */
  lemma {:induction false} OrBitIs(n: nat, i: nat, j: nat)
    ensures TestBit(OrBit(n, i), j) <==> i == j || TestBit(n, j)
  {
    if i > 0 && j > 0 {
      OrBitIs(n / 2, i - 1, j - 1);
      assert OrBit(n, i) / 2 == OrBit(n / 2, i - 1);
    } else if j > 0 {
      assert OrBit(n, i) / 2 == n / 2;
    }
  }

  lemma XorHalves(a: nat, b: nat, width: nat)
    requires width > 0
    ensures Xor(a, b, width) / 2 == Xor(a / 2, b / 2, width - 1) && Xor(a, b, width) % 2 == (a + b) % 2
  {
  }

  lemma FirstBit(n: nat, j: nat)
    ensures TestBit(n, 0) <==> n % 2 == 1
    ensures j > 0 ==> (TestBit(n, j) <==> TestBit(n / 2, j - 1))
  {
  }

  /** A bit of the exclusive or is set when the two bits differ. */
  lemma {:induction false} XorIs(a: nat, b: nat, width: nat, j: nat)
    requires j < width
    ensures TestBit(Xor(a, b, width), j) <==> TestBit(a, j) != TestBit(b, j)
  {
    hide Xor;
    hide TestBit;
    XorHalves(a, b, width);
    FirstBit(Xor(a, b, width), j);
    FirstBit(a, j);
    FirstBit(b, j);
    if j > 0 { XorIs(a / 2, b / 2, width - 1, j - 1); }
  }

  lemma {:induction false} OrBitFits(n: nat, bit: nat, width: nat)
    requires bit < width && n < Pow2(width)
    ensures OrBit(n, bit) < Pow2(width)
  {
    if bit > 0 { OrBitFits(n / 2, bit - 1, width - 1); }
  }

  lemma {:induction false} SameBits(a: nat, b: nat, width: nat)
    requires a < Pow2(width) && b < Pow2(width)
    requires forall j: nat | j < width :: TestBit(a, j) <==> TestBit(b, j)
    ensures a == b
  {
    if width > 0 {
      assert TestBit(a, 0) <==> TestBit(b, 0);
      forall j: nat | j < width - 1 ensures TestBit(a / 2, j) <==> TestBit(b / 2, j) {
        assert TestBit(a, j + 1) <==> TestBit(b, j + 1);
      }
      SameBits(a / 2, b / 2, width - 1);
    }
  }

  lemma Pow2Of8()
    ensures Pow2(8) == 256
  {
  }

  function OrByte(b: Byte, bit: nat): Byte
    requires bit < 8
  {
    Pow2Of8();
    OrBitFits(b as nat, bit, 8);
    OrBit(b as nat, bit) as Byte
  }

  // ---- hashing ----

  const FNV_OFFSET: nat := 14695981039346656037
  const FNV_PRIME: nat := 1099511628211

  function WrappingMul(a: nat, b: nat): nat {
    (a * b) % U64_LIMIT
  }

  function WrappingAdd(a: nat, b: nat): nat {
    (a + b) % U64_LIMIT
  }

  /** The hash after the first `n` bytes of the key. */
  function HashPrefix(key: Bytes, n: nat, seed: Byte): nat
    requires n <= |key|
  {
    if n == 0 then Xor(FNV_OFFSET, seed as nat, 64)
    else WrappingMul(Xor(HashPrefix(key, n - 1, seed), key[n - 1] as nat, 64), FNV_PRIME)
  }

  function Hash(key: Bytes, seed: Byte): nat {
    HashPrefix(key, |key|, seed)
  }

  function OrOne(h: nat): nat {
    if h % 2 == 0 then h + 1 else h
  }

  /** The bit that probe `i` of a key looks at. */
  function Probe(key: Bytes, i: nat): (idx: nat)
    ensures idx < M_BITS
  {
    WrappingAdd(Hash(key, 0), WrappingMul(i, OrOne(Hash(key, 1)))) % M_BITS
  }

  method HashKey(key: Bytes, seed: Byte) returns (hash: nat)
    ensures hash == Hash(key, seed)
  {
    hash := Xor(FNV_OFFSET, seed as nat, 64);
    for i := 0 to |key|
      invariant hash == HashPrefix(key, i, seed)
    {
      hash := Xor(hash, key[i] as nat, 64);
      hash := WrappingMul(hash, FNV_PRIME);
    }
  }

  // ---- bitmaps ----

  function WithBit(bits: Bytes, idx: nat): (r: Bytes)
    ensures |r| == |bits|
  {
    if idx / 8 < |bits| then bits[idx / 8 := OrByte(bits[idx / 8], idx % 8)] else bits
  }

  predicate BitAt(bits: Bytes, idx: nat) {
    idx / 8 < |bits| && TestBit(bits[idx / 8] as nat, idx % 8)
  }

  lemma WithBitIs(bits: Bytes, i: nat, j: nat)
    requires i < |bits| * 8
    ensures BitAt(WithBit(bits, i), j) <==> i == j || BitAt(bits, j)
  {
    hide TestBit;
    hide OrBit;
    if i / 8 == j / 8 {
      OrBitIs(bits[i / 8] as nat, i % 8, j % 8);
    }
  }

  method SetBit(bitmap: array<Byte>, idx: nat)
    modifies bitmap
    ensures bitmap[..] == WithBit(old(bitmap[..]), idx)
  {
    if idx / 8 < bitmap.Length {
      bitmap[idx / 8] := OrByte(bitmap[idx / 8], idx % 8);
    }
  }

  // ---- what a filter should be ----

  /** Some inserted key among the first `n` owns the bit. */
  ghost predicate Owned(k: nat, keys: seq<Bytes>, n: nat, idx: nat)
    requires n <= |keys|
  {
    exists m: nat, i: nat | m < n && i < k :: Probe(keys[m], i) == idx
  }

  /** Exactly the bits that some key probes are set. */
  ghost predicate IsBitmap(bits: Bytes, k: nat, keys: seq<Bytes>) {
    |bits| == BITMAP_LEN && forall idx: nat :: BitAt(bits, idx) <==> Owned(k, keys, |keys|, idx)
  }

  ghost function Bitmap(k: nat, keys: seq<Bytes>): (bits: Bytes)
    ensures IsBitmap(bits, k, keys)
  {
    FilledIs(k, keys);
    var bits :| IsBitmap(bits, k, keys);
    bits
  }

  ghost function Block(k: nat, keys: seq<Bytes>): (r: Bytes)
    ensures |r| == BLOOM_FILTER_SIZE
  {
    U32(k) + Bitmap(k, keys)
  }

  // ---- building a filter ----

  function Zeros(n: nat): (r: Bytes)
    ensures |r| == n
  {
    seq(n, _ => 0)
  }

  /** `bits` with the first `n` probes of a key set. */
  function AddProbes(bits: Bytes, key: Bytes, n: nat): (r: Bytes)
    ensures |r| == |bits|
  {
    if n == 0 then bits else WithBit(AddProbes(bits, key, n - 1), Probe(key, n - 1))
  }

  /** A zero bitmap with the probes of the first `n` keys added one by one. */
  function Filled(k: nat, keys: seq<Bytes>, n: nat): (r: Bytes)
    requires n <= |keys|
    ensures |r| == BITMAP_LEN
  {
    if n == 0 then Zeros(BITMAP_LEN) else AddProbes(Filled(k, keys, n - 1), keys[n - 1], k)
  }

  method AddKeyBits(bitmap: array<Byte>, k: nat, key: Bytes)
    modifies bitmap
    ensures bitmap[..] == AddProbes(old(bitmap[..]), key, k)
  {
    hide Hash;
    var h1 := HashKey(key, 0);
    var h2 := HashKey(key, 1);
    h2 := OrOne(h2);
    for i := 0 to k
      invariant bitmap[..] == AddProbes(old(bitmap[..]), key, i)
    {
      var idx := WrappingAdd(h1, WrappingMul(i, h2)) % M_BITS;
      SetBit(bitmap, idx);
    }
  }

  /** The two generators: one is given a memtable's keys, the other those of a data section. */
  method GenerateFilter(k: nat, keys: seq<Bytes>) returns (out: Bytes)
    ensures out == Block(k, keys)
  {
    hide AddProbes;
    hide BitAt;
    hide Owned;
    var bits := new Byte[BITMAP_LEN](_ => 0);
    assert bits[..] == Zeros(BITMAP_LEN);
    for n := 0 to |keys|
      invariant bits[..] == Filled(k, keys, n)
    {
      AddKeyBits(bits, k, keys[n]);
    }
    FilledIs(k, keys);
    OnlyBitmap(bits[..], k, keys);
    out := U32(k) + bits[..];
  }

  // ---- probing a filter ----

  predicate AllZero(block: Bytes) {
    forall i | 0 <= i < |block| :: block[i] == 0
  }

  /** The reader's answer. Odd-sized, all-zero or nonsensical blocks never rule a key out. */
  predicate MayContain(block: Bytes, key: Bytes) {
    || |block| != BLOOM_FILTER_SIZE
    || AllZero(block)
    || var k := FromLe(block[..K_HEADER_LEN]);
       !(2 <= k <= 30) || forall i: nat | i < k :: BitAt(block[K_HEADER_LEN..], Probe(key, i))
  }

  method ProbablyExist(block: Bytes, key: Bytes) returns (maybe: bool)
    ensures maybe == MayContain(block, key)
  {
    hide Hash;
    hide BitAt;
    if |block| != BLOOM_FILTER_SIZE { return true; }
    if AllZero(block) { return true; }
    var k := FromLe(block[..K_HEADER_LEN]);
    if !(2 <= k <= 30) { return true; }
    var bits := block[K_HEADER_LEN..];
    var h1 := HashKey(key, 0);
    var h2 := HashKey(key, 1);
    h2 := OrOne(h2);
    for i := 0 to k
      invariant forall p: nat | p < i :: BitAt(bits, Probe(key, p))
    {
      var idx := WrappingAdd(h1, WrappingMul(i, h2)) % M_BITS;
      assert idx == Probe(key, i);
      if !BitAt(bits, idx) { return false; }
    }
    return true;
  }

  // ---- what an answer means ----

  lemma {:induction false} ProbesAdded(bits: Bytes, key: Bytes, n: nat, idx: nat)
    requires |bits| == BITMAP_LEN
    ensures BitAt(AddProbes(bits, key, n), idx) <==>
            BitAt(bits, idx) || exists i: nat | i < n :: Probe(key, i) == idx
  {
    hide BitAt;
    hide Probe;
    hide WithBit;
    if n > 0 {
      ProbesAdded(bits, key, n - 1, idx);
      WithBitIs(AddProbes(bits, key, n - 1), Probe(key, n - 1), idx);
    }
  }

  lemma {:induction false} ZeroTests(bit: nat)
    ensures !TestBit(0, bit)
  {
    if bit > 0 { ZeroTests(bit - 1); }
  }

  lemma ZeroBits(idx: nat)
    ensures !BitAt(Zeros(BITMAP_LEN), idx)
  {
    ZeroTests(idx % 8);
  }

  lemma {:induction false} FilledBits(k: nat, keys: seq<Bytes>, n: nat, idx: nat)
    requires n <= |keys|
    ensures BitAt(Filled(k, keys, n), idx) <==> Owned(k, keys, n, idx)
  {
    hide BitAt;
    hide Probe;
    if n == 0 {
      ZeroBits(idx);
    } else {
      FilledBits(k, keys, n - 1, idx);
      ProbesAdded(Filled(k, keys, n - 1), keys[n - 1], k, idx);
      if Owned(k, keys, n, idx) && !Owned(k, keys, n - 1, idx) {
        var m: nat, i: nat :| m < n && i < k && Probe(keys[m], i) == idx;
        assert m == n - 1;
      }
    }
  }

  /** Adding the keys one by one gives the bitmap. */
  lemma FilledIs(k: nat, keys: seq<Bytes>)
    ensures IsBitmap(Filled(k, keys, |keys|), k, keys)
  {
    hide BitAt;
    hide Owned;
    hide Filled;
    forall idx: nat ensures BitAt(Filled(k, keys, |keys|), idx) <==> Owned(k, keys, |keys|, idx) {
      FilledBits(k, keys, |keys|, idx);
    }
  }

  /** There is one bitmap for a key list. */
  lemma OnlyBitmap(bits: Bytes, k: nat, keys: seq<Bytes>)
    requires IsBitmap(bits, k, keys)
    ensures bits == Bitmap(k, keys)
  {
    hide TestBit;
    hide Owned;
    var other := Bitmap(k, keys);
    forall p | 0 <= p < BITMAP_LEN ensures bits[p] == other[p] {
      var x: nat, y: nat := bits[p] as nat, other[p] as nat;
      forall j: nat | j < 8 ensures TestBit(x, j) <==> TestBit(y, j) {
        var idx := 8 * p + j;
        assert idx / 8 == p && idx % 8 == j;
        assert BitAt(bits, idx) <==> BitAt(other, idx);
      }
      Pow2Of8();
      SameBits(x, y, 8);
    }
  }

  /** A generated block answers "maybe" exactly when every probed bit belongs to some inserted key. */
  lemma AnswerIs(k: nat, keys: seq<Bytes>, key: Bytes)
    requires 2 <= k <= 16
    ensures MayContain(Block(k, keys), key) <==> forall i: nat | i < k :: Owned(k, keys, |keys|, Probe(key, i))
  {
    hide Probe;
    hide BitAt;
    hide Owned;
    var block := Block(k, keys);
    assert block[..K_HEADER_LEN] == U32(k);
    assert FromLe(U32(k)) == k;
    assert block[K_HEADER_LEN..] == Bitmap(k, keys);
    if AllZero(block) {
      assert forall i | 0 <= i < 4 :: U32(k)[i] == block[i];
      ZeroHeader(U32(k));
    }
    forall i: nat | i < k
      ensures BitAt(block[K_HEADER_LEN..], Probe(key, i)) <==> Owned(k, keys, |keys|, Probe(key, i))
    {
    }
  }

  lemma {:induction false} ZeroHeader(b: Bytes)
    requires AllZero(b)
    ensures FromLe(b) == 0
  {
    if b != [] { ZeroHeader(b[1..]); }
  }

  /** No false negatives, whatever the hash values. */
  lemma NoFalseNegatives(k: nat, keys: seq<Bytes>, key: Bytes)
    requires 2 <= k <= 16 && key in keys
    ensures MayContain(Block(k, keys), key)
  {
    hide Probe;
    hide MayContain;
    AnswerIs(k, keys, key);
    var m :| 0 <= m < |keys| && keys[m] == key;
    forall i: nat | i < k ensures Owned(k, keys, |keys|, Probe(key, i)) {
      assert Probe(keys[m], i) == Probe(key, i);
    }
  }
}
