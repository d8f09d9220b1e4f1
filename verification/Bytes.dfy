/** Byte strings as the store sees them: little-endian integers, the byte order of keys,
    and the ascending key order in which a BTreeMap is iterated. */
module Bytes {

  newtype Byte = b: int | 0 <= b < 256

  type Bytes = seq<Byte>

  const U32_LIMIT: nat := 0x1_0000_0000
  const U64_LIMIT: nat := 0x1_0000_0000_0000_0000

  // ---- little-endian integers ----

  function Pow2(n: nat): nat {
    if n == 0 then 1 else 2 * Pow2(n - 1)
  }

  function Pow256(width: nat): nat {
    if width == 0 then 1 else 256 * Pow256(width - 1)
  }

  /** The low `width` bytes of `n`, least significant first: `(n as uN).to_le_bytes()`,
      which drops everything above the width. */
  function ToLe(n: nat, width: nat): (r: Bytes)
    ensures |r| == width
  {
    if width == 0 then [] else [(n % 256) as Byte] + ToLe(n / 256, width - 1)
  }

  function FromLe(b: Bytes): nat {
    if |b| == 0 then 0 else b[0] as int + 256 * FromLe(b[1..])
  }

  lemma {:induction false} LeRoundTrip(n: nat, width: nat)
    requires n < Pow256(width)
    ensures FromLe(ToLe(n, width)) == n
  {
    if width > 0 {
      LeRoundTrip(n / 256, width - 1);
      assert ToLe(n, width)[1..] == ToLe(n / 256, width - 1);
    }
  }

  lemma {:induction false} LeInverts(b: Bytes)
    ensures FromLe(b) < Pow256(|b|) && ToLe(FromLe(b), |b|) == b
  {
    if b != [] {
      LeInverts(b[1..]);
      assert FromLe(b) / 256 == FromLe(b[1..]) && FromLe(b) % 256 == b[0] as int;
    }
  }

  /** The least significant byte comes first: a number is its head plus its tail scaled up. */
  lemma {:induction false} LeSplits(a: Bytes, b: Bytes)
    ensures FromLe(a + b) == FromLe(a) + Pow256(|a|) * FromLe(b)
  {
    if a == [] {
      assert a + b == b;
    } else {
      LeSplits(a[1..], b);
      assert (a + b)[1..] == a[1..] + b;
      assert Pow256(|a|) * FromLe(b) == 256 * (Pow256(|a| - 1) * FromLe(b));
    }
  }

  /** The four bytes of a u32, in numbers. */
  lemma U32Bytes(n: nat)
    requires n < U32_LIMIT
    ensures U32(n) == [(n % 256) as Byte, (n / 0x100 % 256) as Byte, (n / 0x1_0000 % 256) as Byte,
                       (n / 0x100_0000) as Byte]
  {
    assert n / 256 / 256 == n / 0x1_0000 && n / 0x1_0000 / 256 == n / 0x100_0000;
    assert ToLe(n / 0x100_0000, 1) == [(n / 0x100_0000) as Byte];
    assert ToLe(n / 0x1_0000, 2) == [(n / 0x1_0000 % 256) as Byte] + ToLe(n / 0x100_0000, 1);
    assert ToLe(n / 0x100, 3) == [(n / 0x100 % 256) as Byte] + ToLe(n / 0x1_0000, 2);
    assert ToLe(n, 4) == [(n % 256) as Byte] + ToLe(n / 0x100, 3);
  }

  /** Four bytes are the encoding of the number they stand for. */
  lemma U32Inverts(b: Bytes)
    requires |b| == 4
    ensures FromLe(b) < U32_LIMIT && U32(FromLe(b)) == b
  {
    PowWidths();
    LeInverts(b);
  }

  lemma PowWidths()
    ensures Pow256(4) == U32_LIMIT && Pow256(8) == U64_LIMIT
  {
    assert Pow256(4) == U32_LIMIT;
    assert Pow256(6) == 65536 * U32_LIMIT;
  }

  function U32(n: nat): (r: Bytes)
    ensures |r| == 4
    ensures n < U32_LIMIT ==> FromLe(r) == n
  {
    PowWidths();
    if n < U32_LIMIT then LeRoundTrip(n, 4); ToLe(n, 4) else ToLe(n, 4)
  }

  function U64(n: nat): (r: Bytes)
    ensures |r| == 8
    ensures n < U64_LIMIT ==> FromLe(r) == n
  {
    PowWidths();
    if n < U64_LIMIT then LeRoundTrip(n, 8); ToLe(n, 8) else ToLe(n, 8)
  }

  // ---- length-prefixed pieces ----

  /** `len as u32 | bytes`, the building block of every format in the store. */
  function Prefixed(x: Bytes): (r: Bytes)
    ensures |r| == 4 + |x|
  {
    U32(|x|) + x
  }

  lemma Assoc(a: Bytes, b: Bytes, c: Bytes)
    ensures (a + b) + c == a + (b + c)
  {
  }

  /** Reading a piece off the front of `x + y + tail` leaves `y + tail`. */
  lemma Peel(b: Bytes, at: nat, x: Bytes, y: Bytes, tail: Bytes)
    requires at <= |b| && b[at..] == x + y + tail
    ensures at + |x| + |y| + |tail| == |b|
    ensures b[at..at + |x|] == x
    ensures b[at + |x|..] == y + tail
  {
    assert |b[at..]| == |x| + |y| + |tail|;
    assert b[at..at + |x|] == b[at..][..|x|];
    assert b[at + |x|..] == b[at..][|x|..];
    assert (x + y + tail)[|x|..] == y + tail;
  }

  lemma PeelFirst(b: Bytes, at: nat, x: Bytes, rest: Bytes)
    requires at <= |b| && b[at..] == x + rest
    ensures at + |x| + |rest| == |b|
    ensures b[at..at + |x|] == x
    ensures b[at + |x|..] == rest
  {
    assert b[at..at + |x|] == b[at..][..|x|];
    assert b[at + |x|..] == b[at..][|x|..];
  }

  /** A prefixed piece is read back exactly, and the cursor lands on what follows it. */
  lemma PeelPrefixed(b: Bytes, at: nat, x: Bytes, tail: Bytes)
    requires at <= |b| && b[at..] == Prefixed(x) + tail
    requires |x| < U32_LIMIT
    ensures at + 4 + |x| + |tail| == |b|
    ensures FromLe(b[at..at + 4]) == |x|
    ensures b[at + 4..at + 4 + |x|] == x
    ensures b[at + 4 + |x|..] == tail
  {
    Peel(b, at, U32(|x|), x, tail);
    assert b[at + 4..] == x + [] + tail;
    Peel(b, at + 4, x, [], tail);
  }

  /** A length and as many bytes are a prefixed piece. */
  lemma PrefixedSlice(b: Bytes, at: nat, end: nat)
    requires at + 4 <= |b| && end == at + 4 + FromLe(b[at..at + 4]) && end <= |b|
    ensures b[at..end] == Prefixed(b[at + 4..end]) && |b[at + 4..end]| < U32_LIMIT
  {
    U32Inverts(b[at..at + 4]);
    hide FromLe;
    hide U32;
    assert b[at..end] == b[at..at + 4] + b[at + 4..end];
  }

  // ---- key order ----

  datatype Ordering = Lt | Eq | Gt

  /** Lexicographic byte order, as `Vec<u8>` and `[u8]` compare. */
  function Cmp(a: Bytes, b: Bytes): Ordering {
    if |a| == 0 then (if |b| == 0 then Eq else Lt)
    else if |b| == 0 then Gt
    else if a[0] < b[0] then Lt
    else if a[0] > b[0] then Gt
    else Cmp(a[1..], b[1..])
  }

  predicate Less(a: Bytes, b: Bytes) {
    Cmp(a, b).Lt?
  }

  lemma {:induction false} CmpLaws(a: Bytes, b: Bytes)
    ensures Cmp(a, b).Eq? <==> a == b
    ensures Cmp(a, b).Lt? <==> Cmp(b, a).Gt?
  {
    if |a| > 0 && |b| > 0 {
      CmpLaws(a[1..], b[1..]);
      assert a == [a[0]] + a[1..] && b == [b[0]] + b[1..];
    }
  }

  lemma {:induction false} LessTransitive(a: Bytes, b: Bytes, c: Bytes)
    requires Less(a, b) && Less(b, c)
    ensures Less(a, c)
  {
    if |a| > 0 && a[0] == b[0] && b[0] == c[0] {
      LessTransitive(a[1..], b[1..], c[1..]);
    }
  }

  /** Less is a strict total order. */
  lemma LessTotal(a: Bytes, b: Bytes)
    ensures !Less(a, a)
    ensures Less(a, b) || Less(b, a) || a == b
    ensures !(Less(a, b) && Less(b, a))
  {
    CmpLaws(a, a);
    CmpLaws(a, b);
    CmpLaws(b, a);
  }

  /** The keys agree on their first `p` bytes, and there the smaller one ends or has the smaller byte. */
  predicate FirstDifference(a: Bytes, b: Bytes, p: nat) {
    && p <= |a| && p < |b| && a[..p] == b[..p]
    && (p == |a| || a[p] < b[p])
  }

  lemma DifferenceHead(a: Bytes, b: Bytes, p: nat)
    requires a != [] && b != [] && FirstDifference(a, b, p)
    ensures if p == 0 then a[0] < b[0] else a[0] == b[0] && FirstDifference(a[1..], b[1..], p - 1)
  {
    if p > 0 {
      assert a[..p][0] == b[..p][0];
      assert a[1..][..p - 1] == a[..p][1..] && b[1..][..p - 1] == b[..p][1..];
    }
  }

  lemma DifferenceTail(a: Bytes, b: Bytes, p: nat)
    requires a != [] && b != [] && a[0] == b[0] && FirstDifference(a[1..], b[1..], p)
    ensures FirstDifference(a, b, p + 1)
  {
    assert a[..p + 1] == [a[0]] + a[1..][..p] && b[..p + 1] == [b[0]] + b[1..][..p];
  }

  /** Less is the lexicographic order: the first differing byte decides, and a proper prefix is less. */
  lemma {:induction false} LessIsLexicographic(a: Bytes, b: Bytes)
    ensures Less(a, b) <==> exists p: nat :: FirstDifference(a, b, p)
  {
    if a == [] || b == [] || a[0] < b[0] {
      assert b != [] ==> FirstDifference(a, b, 0);
    } else {
      hide FirstDifference;
      LessIsLexicographic(a[1..], b[1..]);
      if p: nat :| FirstDifference(a, b, p) {
        DifferenceHead(a, b, p);
      }
      if a[0] == b[0] {
        if p: nat :| FirstDifference(a[1..], b[1..], p) {
          DifferenceTail(a, b, p);
        }
      }
    }
  }

  ghost predicate Ascending(keys: seq<Bytes>) {
    forall i, j {:trigger Less(keys[i], keys[j])} :: 0 <= i < j < |keys| ==> Less(keys[i], keys[j])
  }

  // ---- iterating an ordered map ----

  predicate IsLeast(m: Bytes, s: set<Bytes>) {
    m in s && forall x :: x in s && x != m ==> Less(m, x)
  }

  lemma {:induction false} LeastExists(s: set<Bytes>)
    requires s != {}
    ensures exists m :: IsLeast(m, s)
  {
    var x :| x in s;
    var rest := s - {x};
    if rest == {} {
      assert s == {x};
      assert IsLeast(x, s);
    } else {
      LeastExists(rest);
      var m :| IsLeast(m, rest);
      LessTotal(m, x);
      if Less(x, m) {
        forall y | y in s && y != x ensures Less(x, y) {
          if y != m { LessTransitive(x, m, y); }
        }
        assert IsLeast(x, s);
      } else {
        assert IsLeast(m, s);
      }
    }
  }

  lemma LeastUnique(s: set<Bytes>)
    ensures forall m, n :: IsLeast(m, s) && IsLeast(n, s) ==> m == n
  {
    forall m, n | IsLeast(m, s) && IsLeast(n, s) ensures m == n {
      LessTotal(m, n);
    }
  }

  function Least(s: set<Bytes>): (m: Bytes)
    requires s != {}
    ensures IsLeast(m, s)
  {
    LeastExists(s);
    LeastUnique(s);
    var m :| IsLeast(m, s);
    m
  }

  /** The keys of an ordered map, in the order its iterator yields them. */
  function SortedKeys(s: set<Bytes>): (r: seq<Bytes>)
    ensures |r| == |s|
    ensures forall k :: k in r <==> k in s
    ensures Ascending(r)
  {
    if s == {} then [] else
      var m := Least(s);
      var rest := SortedKeys(s - {m});
      assert forall j :: 0 <= j < |rest| ==> rest[j] in rest;
      [m] + rest
  }
}
