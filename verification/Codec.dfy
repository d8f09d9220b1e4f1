/** The value codec: a table entry, its metadata map, and the bytes they are stored as. */
module Codec {
  import opened Wrappers
  import opened Bytes
  import opened Utf8

  datatype TrueType =
    | Unspecified | Bool | RawBytes | String | Uint32 | Uint64 | Int32 | Int64 | Float32 | Double

  function Tag(t: TrueType): Byte {
    match t
    case Unspecified => 0
    case Bool => 1
    case RawBytes => 2
    case String => 3
    case Uint32 => 4
    case Uint64 => 5
    case Int32 => 6
    case Int64 => 7
    case Float32 => 8
    case Double => 9
  }

  function TypeOfTag(b: Byte): TrueType {
    match b
    case 1 => Bool
    case 2 => RawBytes
    case 3 => String
    case 4 => Uint32
    case 5 => Uint64
    case 6 => Int32
    case 7 => Int64
    case 8 => Float32
    case 9 => Double
    case _ => Unspecified
  }

  datatype TypeInfo = TypeInfo(raw: Bytes, trueType: TrueType)

  /** `metaData` is keyed by the UTF-8 bytes of a string. */
  datatype TableEntry = TableEntry(value: Bytes, metaData: Option<map<Bytes, TypeInfo>>)

  datatype DecodeError =
    | NoLengthPrefix | ValueTruncated | NoMetaFlag
    | KeyLengthTruncated | KeyTruncated | RawLengthTruncated | RawTruncated | TypeTruncated
    | KeyNotUtf8  // the source panics here

  /** Lengths fit their u32 prefixes and metadata keys are strings. */
  predicate WellFormed(e: TableEntry) {
    && |e.value| < U32_LIMIT
    && (e.metaData.Some? ==> forall k | k in e.metaData.value ::
          |k| < U32_LIMIT && ValidUtf8(k) && |e.metaData.value[k].raw| < U32_LIMIT)
  }

  // ---- the two directions, as functions ----

  function PairBytes(k: Bytes, raw: Bytes, tag: Byte): (b: Bytes)
    ensures |b| == 9 + |k| + |raw|
  {
    Prefixed(k) + (Prefixed(raw) + [tag])
  }

  function EncodePair(k: Bytes, t: TypeInfo): Bytes {
    PairBytes(k, t.raw, Tag(t.trueType))
  }

  /** The pairs of `keys[i..]`, in order. */
  function EncodePairs(keys: seq<Bytes>, i: nat, m: map<Bytes, TypeInfo>): Bytes
    requires forall k | k in keys :: k in m
    decreases |keys| - i
  {
    if i >= |keys| then [] else EncodePair(keys[i], m[keys[i]]) + EncodePairs(keys, i + 1, m)
  }

  function EncodeMeta(meta: Option<map<Bytes, TypeInfo>>): (r: Bytes)
    ensures |r| >= 1
  {
    match meta
    case None => [0]
    case Some(m) => [1] + EncodePairs(SortedKeys(m.Keys), 0, m)
  }

  function Encode(e: TableEntry): (r: Bytes)
    ensures |r| >= 5 + |e.value|
  {
    Prefixed(e.value) + EncodeMeta(e.metaData)
  }

  datatype PairRead = PairRead(key: Bytes, info: TypeInfo, next: nat)

  /** One metadata pair at `idx`, and where the next one starts. */
  function DecodePair(b: Bytes, idx: nat): (r: Result<PairRead, DecodeError>)
    requires idx < |b|
    ensures r.Ok? ==> idx < r.value.next <= |b|
  {
    if idx + 4 > |b| then Err(KeyLengthTruncated)
    else
      var keyEnd := idx + 4 + FromLe(b[idx..idx + 4]);
      if keyEnd > |b| then Err(KeyTruncated)
      else if keyEnd + 4 > |b| then Err(RawLengthTruncated)
      else
        var rawEnd := keyEnd + 4 + FromLe(b[keyEnd..keyEnd + 4]);
        if rawEnd > |b| then Err(RawTruncated)
        else if rawEnd + 1 > |b| then Err(TypeTruncated)
        else if !ValidUtf8(b[idx + 4..keyEnd]) then Err(KeyNotUtf8)
        else Ok(PairRead(b[idx + 4..keyEnd], TypeInfo(b[keyEnd + 4..rawEnd], TypeOfTag(b[rawEnd])), rawEnd + 1))
  }

  function DecodePairs(b: Bytes, idx: nat, acc: map<Bytes, TypeInfo>): Result<map<Bytes, TypeInfo>, DecodeError>
    decreases |b| - idx
  {
    if idx >= |b| then Ok(acc)
    else
      match DecodePair(b, idx)
      case Ok(p) => DecodePairs(b, p.next, acc[p.key := p.info])
      case Err(e) => Err(e)
  }

  function Decode(b: Bytes): Result<TableEntry, DecodeError> {
    if |b| <= 4 then Err(NoLengthPrefix)
    else
      var valueEnd := 4 + FromLe(b[..4]);
      if valueEnd > |b| then Err(ValueTruncated)
      else if valueEnd + 1 > |b| then Err(NoMetaFlag)
      else if b[valueEnd] == 0 then Ok(TableEntry(b[4..valueEnd], None))
      else
        match DecodePairs(b, valueEnd + 1, map[])
        case Ok(m) => Ok(TableEntry(b[4..valueEnd], Some(m)))
        case Err(e) => Err(e)
  }

  // ---- the source's loops ----

  method WritePair(buffer: Bytes, key: Bytes, info: TypeInfo) returns (r: Bytes)
    ensures r == buffer + EncodePair(key, info)
  {
    r := buffer + U32(|key|);
    r := r + key;
    r := r + U32(|info.raw|);
    r := r + info.raw;
    r := r + [Tag(info.trueType)];
  }

  method SerializePairs(head: Bytes, md: map<Bytes, TypeInfo>) returns (buffer: Bytes)
    ensures buffer == head + EncodePairs(SortedKeys(md.Keys), 0, md)
  {
    var keys := SortedKeys(md.Keys);
    buffer := head;
    var i := 0;
    while i < |keys|
      invariant 0 <= i <= |keys|
      invariant buffer + EncodePairs(keys, i, md) == head + EncodePairs(keys, 0, md)
    {
      Assoc(buffer, EncodePair(keys[i], md[keys[i]]), EncodePairs(keys, i + 1, md));
      buffer := WritePair(buffer, keys[i], md[keys[i]]);
      i := i + 1;
    }
    assert buffer + [] == buffer;
  }

  method Serialize(e: TableEntry) returns (buffer: Bytes)
    ensures buffer == Encode(e)
  {
    buffer := U32(|e.value|);
    buffer := buffer + e.value;
    match e.metaData
    case Some(md) =>
      Assoc(buffer, [1], EncodePairs(SortedKeys(md.Keys), 0, md));
      buffer := SerializePairs(buffer + [1], md);
    case None =>
      buffer := buffer + [0];
  }

  method DeserializePair(b: Bytes, start: nat) returns (r: Result<PairRead, DecodeError>)
    requires start < |b|
    ensures r == DecodePair(b, start)
  {
    var idx := start;
    if idx + 4 > |b| { return Err(KeyLengthTruncated); }
    var keyLen := FromLe(b[idx..idx + 4]);
    idx := idx + 4;
    if idx + keyLen > |b| { return Err(KeyTruncated); }
    var key := b[idx..idx + keyLen];
    idx := idx + keyLen;
    if idx + 4 > |b| { return Err(RawLengthTruncated); }
    var rawLen := FromLe(b[idx..idx + 4]);
    idx := idx + 4;
    if idx + rawLen > |b| { return Err(RawTruncated); }
    var raw := b[idx..idx + rawLen];
    idx := idx + rawLen;
    if idx + 1 > |b| { return Err(TypeTruncated); }
    var info := TypeInfo(raw, TypeOfTag(b[idx]));
    idx := idx + 1;
    if !ValidUtf8(key) { return Err(KeyNotUtf8); }
    return Ok(PairRead(key, info, idx));
  }

  method Deserialize(b: Bytes) returns (r: Result<TableEntry, DecodeError>)
    ensures r == Decode(b)
  {
    if |b| <= 4 { return Err(NoLengthPrefix); }
    var idx := 0;
    var valueLen := FromLe(b[..4]);
    idx := idx + 4;
    if idx + valueLen > |b| { return Err(ValueTruncated); }
    var value := b[idx..idx + valueLen];
    idx := idx + valueLen;
    if idx + 1 > |b| { return Err(NoMetaFlag); }
    if b[idx] == 0 { return Ok(TableEntry(value, None)); }
    idx := idx + 1;
    ghost var start := idx;
    var meta: map<Bytes, TypeInfo> := map[];
    while idx < |b|
      invariant start <= idx <= |b|
      invariant DecodePairs(b, idx, meta) == DecodePairs(b, start, map[])
    {
      var pair := DeserializePair(b, idx);
      if pair.Err? { return Err(pair.error); }
      meta := meta[pair.value.key := pair.value.info];
      idx := pair.value.next;
    }
    return Ok(TableEntry(value, Some(meta)));
  }

  // ---- the round trip ----

  lemma PeelPair(b: Bytes, at: nat, k: Bytes, raw: Bytes, tag: Byte, tail: Bytes)
    requires at <= |b| && b[at..] == PairBytes(k, raw, tag) + tail
    requires |k| < U32_LIMIT && |raw| < U32_LIMIT
    ensures var keyEnd := at + 4 + |k|;
            var rawEnd := keyEnd + 4 + |raw|;
            && at + |PairBytes(k, raw, tag)| == rawEnd + 1 && rawEnd + 1 + |tail| == |b|
            && FromLe(b[at..at + 4]) == |k| && b[at + 4..keyEnd] == k
            && FromLe(b[keyEnd..keyEnd + 4]) == |raw| && b[keyEnd + 4..rawEnd] == raw
            && b[rawEnd] == tag && b[rawEnd + 1..] == tail
  {
    hide FromLe;
    hide Prefixed;
    var rest := Prefixed(raw) + [tag];
    Assoc(Prefixed(k), rest, tail);
    PeelPrefixed(b, at, k, rest + tail);
    var keyEnd := at + 4 + |k|;
    Assoc(Prefixed(raw), [tag], tail);
    PeelPrefixed(b, keyEnd, raw, [tag] + tail);
    var rawEnd := keyEnd + 4 + |raw|;
    PeelFirst(b, rawEnd, [tag], tail);
    assert b[rawEnd..rawEnd + 1][0] == b[rawEnd];
  }

  /** The decoder reads a pair when its key is text, and stops there when it is not. */
  lemma DecodesPair(b: Bytes, at: nat, k: Bytes, raw: Bytes, tag: Byte, tail: Bytes)
    requires |k| < U32_LIMIT && |raw| < U32_LIMIT
    requires at <= |b| && b[at..] == PairBytes(k, raw, tag) + tail
    ensures var next := at + |PairBytes(k, raw, tag)|;
            && at < next <= |b| && b[next..] == tail
            && DecodePair(b, at) ==
                 if ValidUtf8(k) then Ok(PairRead(k, TypeInfo(raw, TypeOfTag(tag)), next)) else Err(KeyNotUtf8)
  {
    hide ValidUtf8;
    PeelPair(b, at, k, raw, tag, tail);
    hide PairBytes;
    hide FromLe;
  }

  lemma DecodeOnePair(b: Bytes, at: nat, k: Bytes, t: TypeInfo, tail: Bytes)
    requires |k| < U32_LIMIT && |t.raw| < U32_LIMIT
    requires at <= |b| && b[at..] == EncodePair(k, t) + tail
    ensures var next := at + |EncodePair(k, t)|;
            && at < next <= |b| && b[next..] == tail
            && DecodePair(b, at) == if ValidUtf8(k) then Ok(PairRead(k, t, next)) else Err(KeyNotUtf8)
  {
    hide ValidUtf8;
    hide DecodePair;
    hide PairBytes;
    DecodesPair(b, at, k, t.raw, Tag(t.trueType), tail);
    assert TypeOfTag(Tag(t.trueType)) == t.trueType;
  }

  function SetAll(acc: map<Bytes, TypeInfo>, keys: seq<Bytes>, i: nat, m: map<Bytes, TypeInfo>): map<Bytes, TypeInfo>
    requires forall k | k in keys :: k in m
    decreases |keys| - i
  {
    if i >= |keys| then acc else SetAll(acc[keys[i] := m[keys[i]]], keys, i + 1, m)
  }

  /** Decoding encoded pairs sets exactly the encoded keys on top of `acc`. */
  lemma {:induction false} DecodePairsInverts(
      b: Bytes, at: nat, keys: seq<Bytes>, i: nat, m: map<Bytes, TypeInfo>, acc: map<Bytes, TypeInfo>)
    requires forall k | k in keys ::
               k in m && |k| < U32_LIMIT && ValidUtf8(k) && |m[k].raw| < U32_LIMIT
    requires at <= |b| && b[at..] == EncodePairs(keys, i, m)
    ensures DecodePairs(b, at, acc) == Ok(SetAll(acc, keys, i, m))
    decreases |keys| - i
  {
    hide DecodePair;
    hide ValidUtf8;
    if i < |keys| {
      var k, t := keys[i], m[keys[i]];
      DecodeOnePair(b, at, k, t, EncodePairs(keys, i + 1, m));
      DecodePairsInverts(b, at + |EncodePair(k, t)|, keys, i + 1, m, acc[k := t]);
    }
  }

  /** Setting the missing keys of `m` on a part of `m` gives `m`. */
  lemma {:induction false} SetAllCompletes(acc: map<Bytes, TypeInfo>, keys: seq<Bytes>, i: nat, m: map<Bytes, TypeInfo>)
    requires i <= |keys| && forall k | k in keys :: k in m
    requires forall k | k in acc :: k in m && acc[k] == m[k]
    requires forall k | k in m :: k in acc || k in keys[i..]
    ensures SetAll(acc, keys, i, m) == m
    decreases |keys| - i
  {
    if i < |keys| {
      assert keys[i..] == [keys[i]] + keys[i + 1..];
      SetAllCompletes(acc[keys[i] := m[keys[i]]], keys, i + 1, m);
    } else {
      assert acc == m;
    }
  }

  lemma MetaRoundTrip(b: Bytes, at: nat, m: map<Bytes, TypeInfo>)
    requires forall k | k in m :: |k| < U32_LIMIT && ValidUtf8(k) && |m[k].raw| < U32_LIMIT
    requires at <= |b| && b[at..] == EncodePairs(SortedKeys(m.Keys), 0, m)
    ensures DecodePairs(b, at, map[]) == Ok(m)
  {
    var keys := SortedKeys(m.Keys);
    assert forall k :: k in keys <==> k in m;
    DecodePairsInverts(b, at, keys, 0, m, map[]);
    assert keys[0..] == keys;
    SetAllCompletes(map[], keys, 0, m);
  }

  lemma EncodedParts(e: TableEntry)
    requires |e.value| < U32_LIMIT
    ensures var b, meta, flag := Encode(e), EncodeMeta(e.metaData), 4 + |e.value|;
            && |b| == flag + |meta| && FromLe(b[..4]) == |e.value| && b[4..flag] == e.value
            && b[flag] == meta[0] && b[flag + 1..] == meta[1..]
  {
    var b, meta := Encode(e), EncodeMeta(e.metaData);
    assert b[0..] == b;
    PeelPrefixed(b, 0, e.value, meta);
    assert b[..4] == b[0..4];
    var flag := 4 + |e.value|;
    assert b[flag] == b[flag..][0];
    assert b[flag + 1..] == b[flag..][1..];
  }

  /** Every entry survives a trip to disk, absent metadata and empty metadata kept apart. */
  lemma RoundTrip(e: TableEntry)
    requires WellFormed(e)
    ensures Decode(Encode(e)) == Ok(e)
  {
    EncodedParts(e);
    if e.metaData.Some? {
      MetaRoundTrip(Encode(e), 5 + |e.value|, e.metaData.value);
    }
  }

  /** Lengths fit their u32 prefixes; metadata keys may be any bytes. */
  predicate LengthsFit(e: TableEntry) {
    && |e.value| < U32_LIMIT
    && (e.metaData.Some? ==> forall k | k in e.metaData.value ::
          |k| < U32_LIMIT && |e.metaData.value[k].raw| < U32_LIMIT)
  }

  /** A pair under a key that is not text stops the decoder. */
  lemma {:induction false} NotTextStops(b: Bytes, at: nat, keys: seq<Bytes>, i: nat, m: map<Bytes, TypeInfo>,
                                        acc: map<Bytes, TypeInfo>, bad: nat)
    requires forall k | k in keys :: k in m && |k| < U32_LIMIT && |m[k].raw| < U32_LIMIT
    requires at <= |b| && b[at..] == EncodePairs(keys, i, m)
    requires i <= bad < |keys| && !ValidUtf8(keys[bad])
    ensures DecodePairs(b, at, acc) == Err(KeyNotUtf8)
    decreases |keys| - i
  {
    hide ValidUtf8;
    hide DecodePair;
    var k, t := keys[i], m[keys[i]];
    DecodeOnePair(b, at, k, t, EncodePairs(keys, i + 1, m));
    if i < bad && ValidUtf8(k) {
      NotTextStops(b, at + |EncodePair(k, t)|, keys, i + 1, m, acc[k := t], bad);
    }
  }

  lemma NotTextRefused(e: TableEntry, k: Bytes)
    requires LengthsFit(e) && e.metaData.Some? && k in e.metaData.value && !ValidUtf8(k)
    ensures Decode(Encode(e)) == Err(KeyNotUtf8)
  {
    hide ValidUtf8;
    hide DecodePairs;
    hide EncodePairs;
    var m := e.metaData.value;
    EncodedParts(e);
    var keys := SortedKeys(m.Keys);
    assert k in keys;
    var bad: nat :| bad < |keys| && keys[bad] == k;
    NotTextStops(Encode(e), 5 + |e.value|, keys, 0, m, map[], bad);
  }

  /** Every entry whose metadata keys are text, and no other, survives a trip to disk; an entry with
      any other key is written but cannot be read. */
  lemma RoundTripIff(e: TableEntry)
    requires LengthsFit(e)
    ensures Decode(Encode(e)) == Ok(e) <==> e.metaData.Some? ==> forall k | k in e.metaData.value :: IsText(k)
    ensures Decode(Encode(e)) == Ok(e) || Decode(Encode(e)) == Err(KeyNotUtf8)
  {
    hide ValidUtf8;
    hide IsText;
    hide Decode;
    hide Encode;
    forall k: Bytes ensures ValidUtf8(k) <==> IsText(k) { AcceptsText(k); }
    if k :| e.metaData.Some? && k in e.metaData.value && !ValidUtf8(k) {
      NotTextRefused(e, k);
    } else {
      RoundTrip(e);
    }
  }

  // ---- which entries are well-formed ----

  lemma {:induction false} PairFits(keys: seq<Bytes>, i: nat, m: map<Bytes, TypeInfo>, k: Bytes)
    requires i <= |keys| && forall x | x in keys :: x in m
    requires k in keys[i..]
    ensures 9 + |k| + |m[k].raw| <= |EncodePairs(keys, i, m)|
    decreases |keys| - i
  {
    if k != keys[i] {
      assert keys[i..] == [keys[i]] + keys[i + 1..];
      PairFits(keys, i + 1, m, k);
    }
  }

  /** An entry whose encoding is shorter than 2^32 bytes is well-formed exactly when its metadata keys are
      text: no length outgrows its field. */
  lemma WellFormedIff(e: TableEntry)
    requires |Encode(e)| < U32_LIMIT
    ensures WellFormed(e) <==> e.metaData.Some? ==> forall k | k in e.metaData.value :: IsText(k)
  {
    hide ValidUtf8;
    hide IsText;
    forall k: Bytes ensures ValidUtf8(k) <==> IsText(k) { AcceptsText(k); }
    if e.metaData.Some? {
      var m := e.metaData.value;
      var keys := SortedKeys(m.Keys);
      assert keys[0..] == keys;
      forall k | k in m ensures |k| < U32_LIMIT && |m[k].raw| < U32_LIMIT {
        assert k in keys;
        PairFits(keys, 0, m, k);
      }
    }
  }
}
