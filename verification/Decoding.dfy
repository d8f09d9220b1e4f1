/** Exactly which bytes the entry decoder accepts, whoever wrote them, and what it makes of them. */
module Decoding {
  import opened Wrappers
  import opened Bytes
  import opened Utf8
  import opened Codec

  /** The type numbers; any other byte is read as unspecified. */
  lemma TagNumbers(t: TrueType, b: Byte)
    ensures [Tag(Unspecified), Tag(Bool), Tag(RawBytes), Tag(String), Tag(Uint32), Tag(Uint64), Tag(Int32),
             Tag(Int64), Tag(Float32), Tag(Double)] == [0, 1, 2, 3, 4, 5, 6, 7, 8, 9]
    ensures TypeOfTag(b) == t <==> if b <= 9 then Tag(t) == b else t == Unspecified
  {
  }

  /** One metadata pair as it stands in the bytes. */
  datatype RawPair = RawPair(key: Bytes, raw: Bytes, tag: Byte)

  function PairsBytes(ps: seq<RawPair>): Bytes {
    if ps == [] then [] else PairBytes(ps[0].key, ps[0].raw, ps[0].tag) + PairsBytes(ps[1..])
  }

  ghost predicate ReadablePair(p: RawPair) {
    |p.key| < U32_LIMIT && |p.raw| < U32_LIMIT && IsText(p.key)
  }

  ghost predicate Readable(ps: seq<RawPair>) {
    forall i | 0 <= i < |ps| :: ReadablePair(ps[i])
  }

  function InfoOf(p: RawPair): TypeInfo {
    TypeInfo(p.raw, TypeOfTag(p.tag))
  }

  /** No later pair has the key of pair `i`. */
  ghost predicate LastOfKey(ps: seq<RawPair>, i: nat) {
    i < |ps| && forall j | i < j < |ps| :: ps[j].key != ps[i].key
  }

  /** A name is mapped when some pair has it, to what the last such pair says. */
  ghost predicate LastWins(ps: seq<RawPair>, m: map<Bytes, TypeInfo>) {
    && (forall k | k in m :: exists i :: 0 <= i < |ps| && ps[i].key == k)
    && (forall i: nat | LastOfKey(ps, i) :: ps[i].key in m && m[ps[i].key] == InfoOf(ps[i]))
  }

  /** The bytes stand for the entry: the value, a zero flag and anything at all, or the value, another
      flag and pairs to the end. */
  ghost predicate StandsFor(b: Bytes, e: TableEntry) {
    && |e.value| < U32_LIMIT
    && exists flag: Byte, tail: Bytes :: SplitsInto(b, e.value, flag, tail) && TailStandsFor(flag, tail, e.metaData)
  }

  ghost predicate SplitsInto(b: Bytes, value: Bytes, flag: Byte, tail: Bytes) {
    b == Prefixed(value) + ([flag] + tail)
  }

  ghost predicate TailStandsFor(flag: Byte, tail: Bytes, meta: Option<map<Bytes, TypeInfo>>) {
    if flag == 0 then meta == None
    else meta.Some? && exists ps :: PairsStandFor(tail, ps, meta.value)
  }

  ghost predicate PairsStandFor(tail: Bytes, ps: seq<RawPair>, m: map<Bytes, TypeInfo>) {
    Readable(ps) && tail == PairsBytes(ps) && LastWins(ps, m)
  }

  // ---- the map the pairs build ----

  function Folded(acc: map<Bytes, TypeInfo>, ps: seq<RawPair>): map<Bytes, TypeInfo>
    decreases |ps|
  {
    if ps == [] then acc else Folded(acc[ps[0].key := InfoOf(ps[0])], ps[1..])
  }

  ghost predicate HasKey(ps: seq<RawPair>, k: Bytes) {
    exists i :: 0 <= i < |ps| && ps[i].key == k
  }

  lemma {:induction false} FoldedAt(acc: map<Bytes, TypeInfo>, ps: seq<RawPair>, k: Bytes)
    ensures k in Folded(acc, ps) <==> k in acc || HasKey(ps, k)
    ensures !HasKey(ps, k) && k in acc ==> Folded(acc, ps)[k] == acc[k]
    ensures forall i: nat | LastOfKey(ps, i) && ps[i].key == k :: Folded(acc, ps)[k] == InfoOf(ps[i])
    decreases |ps|
  {
    if ps != [] {
      var rest := ps[1..];
      var more := acc[ps[0].key := InfoOf(ps[0])];
      FoldedAt(more, rest, k);
      if i :| 0 <= i < |rest| && rest[i].key == k { assert ps[i + 1].key == k; }
      if i :| 0 <= i < |ps| && ps[i].key == k && i > 0 { assert rest[i - 1].key == k; }
      forall i: nat | LastOfKey(ps, i) && ps[i].key == k ensures Folded(acc, ps)[k] == InfoOf(ps[i]) {
        if i > 0 {
          assert forall j | i - 1 < j < |rest| :: rest[j] == ps[j + 1];
          assert LastOfKey(rest, i - 1);
        } else {
          assert forall j | 0 <= j < |rest| :: rest[j] == ps[j + 1];
        }
      }
    }
  }

  lemma {:induction false} LastExists(ps: seq<RawPair>, n: nat, k: Bytes) returns (i: nat)
    requires n <= |ps| && (exists j :: 0 <= j < n && ps[j].key == k)
    requires forall j | n <= j < |ps| :: ps[j].key != k
    ensures LastOfKey(ps, i) && ps[i].key == k
  {
    if ps[n - 1].key == k { i := n - 1; } else { i := LastExists(ps, n - 1, k); }
  }

  lemma FoldedIs(ps: seq<RawPair>, m: map<Bytes, TypeInfo>)
    ensures LastWins(ps, m) <==> m == Folded(map[], ps)
  {
    var f := Folded(map[], ps);
    forall k ensures k in f <==> HasKey(ps, k)
             ensures forall i: nat | LastOfKey(ps, i) && ps[i].key == k :: f[k] == InfoOf(ps[i])
    {
      FoldedAt(map[], ps, k);
    }
    assert LastWins(ps, f);
    if LastWins(ps, m) {
      forall k | k in m || k in f ensures k in m && k in f && m[k] == f[k] {
        assert HasKey(ps, k);
        var i := LastExists(ps, |ps|, k);
      }
    }
  }

  // ---- the decoder reads exactly the pairs ----

  /** A pair the decoder accepts, as bytes. */
  lemma PairSound(b: Bytes, at: nat) returns (p: RawPair)
    requires at < |b| && DecodePair(b, at).Ok?
    ensures var r := DecodePair(b, at).value;
            ReadablePair(p) && r.key == p.key && r.info == InfoOf(p) && b[at..r.next] == PairBytes(p.key, p.raw, p.tag)
  {
    hide ValidUtf8;
    hide IsText;
    hide FromLe;
    hide Prefixed;
    var keyEnd := at + 4 + FromLe(b[at..at + 4]);
    var rawEnd := keyEnd + 4 + FromLe(b[keyEnd..keyEnd + 4]);
    p := RawPair(b[at + 4..keyEnd], b[keyEnd + 4..rawEnd], b[rawEnd]);
    PrefixedSlice(b, at, keyEnd);
    PrefixedSlice(b, keyEnd, rawEnd);
    AcceptsText(p.key);
    assert b[at..rawEnd + 1] == b[at..keyEnd] + (b[keyEnd..rawEnd] + [b[rawEnd]]);
  }

  lemma {:induction false} PairsSound(b: Bytes, at: nat, acc: map<Bytes, TypeInfo>) returns (ps: seq<RawPair>)
    requires at <= |b| && DecodePairs(b, at, acc).Ok?
    ensures Readable(ps) && b[at..] == PairsBytes(ps) && DecodePairs(b, at, acc) == Ok(Folded(acc, ps))
    decreases |b| - at
  {
    hide ReadablePair;
    hide DecodePair;
    hide PairBytes;
    if at == |b| { return []; }
    var p := PairSound(b, at);
    var r := DecodePair(b, at).value;
    var rest := PairsSound(b, r.next, acc[r.key := r.info]);
    ps := [p] + rest;
    assert ps[1..] == rest && b[at..] == b[at..r.next] + b[r.next..];
  }

  lemma {:induction false} PairsComplete(b: Bytes, at: nat, acc: map<Bytes, TypeInfo>, ps: seq<RawPair>)
    requires Readable(ps) && at <= |b| && b[at..] == PairsBytes(ps)
    ensures DecodePairs(b, at, acc) == Ok(Folded(acc, ps))
    decreases |ps|
  {
    hide ValidUtf8;
    hide IsText;
    hide DecodePair;
    if ps != [] {
      var (p, rest) := (ps[0], ps[1..]);
      AcceptsText(p.key);
      DecodesPair(b, at, p.key, p.raw, p.tag, PairsBytes(rest));
      hide PairBytes;
      PairsComplete(b, at + |PairBytes(p.key, p.raw, p.tag)|, acc[p.key := InfoOf(p)], rest);
    }
  }

  lemma SplitParts(b: Bytes, value: Bytes, flag: Byte, tail: Bytes)
    requires |value| < U32_LIMIT && SplitsInto(b, value, flag, tail)
    ensures var end := 4 + |value|;
            && |b| == end + 1 + |tail| && FromLe(b[..4]) == |value| && b[4..end] == value
            && b[end] == flag && b[end + 1..] == tail
  {
    assert b[0..] == b && b[..4] == b[0..4];
    PeelPrefixed(b, 0, value, [flag] + tail);
    var end := 4 + |value|;
    assert b[end] == b[end..][0] && b[end + 1..] == b[end..][1..];
  }

  lemma PartsSplit(b: Bytes) returns (value: Bytes, flag: Byte, tail: Bytes)
    requires |b| > 4 && 4 + FromLe(b[..4]) < |b|
    ensures |value| < U32_LIMIT && SplitsInto(b, value, flag, tail)
    ensures value == b[4..4 + FromLe(b[..4])] && flag == b[4 + |value|] && tail == b[5 + |value|..]
  {
    U32Inverts(b[..4]);
    var end := 4 + FromLe(b[..4]);
    value, flag, tail := b[4..end], b[end], b[end + 1..];
    assert b == b[..4] + b[4..end] + ([flag] + tail);
  }

  /** The decoder returns an entry exactly when the bytes stand for it. */
  lemma DecodeIff(b: Bytes, e: TableEntry)
    ensures Decode(b) == Ok(e) <==> StandsFor(b, e)
  {
    hide FromLe;
    hide DecodePairs;
    hide SplitsInto;
    hide PairsStandFor;
    if Decode(b) == Ok(e) {
      var value, flag, tail := PartsSplit(b);
      if flag != 0 {
        MetaSound(b, 5 + |value|, e.metaData.value);
      }
      assert TailStandsFor(flag, tail, e.metaData);
    }
    if StandsFor(b, e) {
      var flag: Byte, tail: Bytes :| SplitsInto(b, e.value, flag, tail) && TailStandsFor(flag, tail, e.metaData);
      SplitParts(b, e.value, flag, tail);
      if flag != 0 {
        var ps :| PairsStandFor(tail, ps, e.metaData.value);
        MetaComplete(b, 5 + |e.value|, ps, e.metaData.value);
      }
    }
  }

  lemma MetaSound(b: Bytes, at: nat, m: map<Bytes, TypeInfo>)
    requires at <= |b| && DecodePairs(b, at, map[]) == Ok(m)
    ensures exists ps :: PairsStandFor(b[at..], ps, m)
  {
    hide DecodePairs;
    hide LastWins;
    hide Readable;
    hide PairsBytes;
    var ps := PairsSound(b, at, map[]);
    FoldedIs(ps, m);
    assert PairsStandFor(b[at..], ps, m);
  }

  lemma MetaComplete(b: Bytes, at: nat, ps: seq<RawPair>, m: map<Bytes, TypeInfo>)
    requires at <= |b| && PairsStandFor(b[at..], ps, m)
    ensures DecodePairs(b, at, map[]) == Ok(m)
  {
    hide DecodePairs;
    hide LastWins;
    hide Readable;
    hide PairsBytes;
    FoldedIs(ps, m);
    PairsComplete(b, at, map[], ps);
  }
}
