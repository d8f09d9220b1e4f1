/** Records and the sections they are written in, with the cursor that reads them and the scan for a key.
    A section is what a write-ahead log, an SSTable's data section and an intermediate
    compaction file all hold: `key-len | key | value-len | value`, repeated. */
module Records {
  import opened Wrappers
  import opened Bytes

  datatype Record = Record(key: Bytes, value: Bytes)

  const TOMBSTONE: Bytes := [255]

  predicate Fits(r: Record) {
    |r.key| < U32_LIMIT && |r.value| < U32_LIMIT
  }

  ghost predicate AllFit(rs: seq<Record>) {
    forall i | 0 <= i < |rs| :: Fits(rs[i])
  }

  ghost predicate Sorted(rs: seq<Record>) {
    forall i, j {:trigger Less(rs[i].key, rs[j].key)} :: 0 <= i < j < |rs| ==> Less(rs[i].key, rs[j].key)
  }

  // ---- sections ----

  function EncodeRecord(r: Record): (b: Bytes)
    ensures |b| == 8 + |r.key| + |r.value|
  {
    Prefixed(r.key) + Prefixed(r.value)
  }

  /** The bytes of `rs[i..]`. */
  function EncodeFrom(rs: seq<Record>, i: nat): Bytes
    decreases |rs| - i
  {
    if i >= |rs| then [] else EncodeRecord(rs[i]) + EncodeFrom(rs, i + 1)
  }

  function Encode(rs: seq<Record>): Bytes {
    EncodeFrom(rs, 0)
  }

  /** Where record `i` starts in its section. */
  function Offset(rs: seq<Record>, i: nat): nat
    requires i <= |rs|
  {
    if i == 0 then 0 else Offset(rs, i - 1) + |EncodeRecord(rs[i - 1])|
  }

  lemma {:induction false} OffsetSplits(rs: seq<Record>, i: nat)
    requires i <= |rs|
    ensures Offset(rs, i) + |EncodeFrom(rs, i)| == |Encode(rs)|
  {
    if i > 0 { OffsetSplits(rs, i - 1); }
  }

  lemma {:induction false} OffsetIncreases(rs: seq<Record>, i: nat, j: nat)
    requires i < j <= |rs|
    ensures Offset(rs, i) + |EncodeRecord(rs[i])| <= Offset(rs, j)
  {
    if i < j - 1 { OffsetIncreases(rs, i, j - 1); }
  }

  lemma {:induction false} EncodeShift(a: seq<Record>, b: seq<Record>, i: nat)
    requires i <= |b|
    ensures EncodeFrom(a + b, |a| + i) == EncodeFrom(b, i)
    decreases |b| - i
  {
    if i < |b| {
      EncodeShift(a, b, i + 1);
      assert (a + b)[|a| + i] == b[i];
    }
  }

  lemma {:induction false} EncodeConcatFrom(a: seq<Record>, b: seq<Record>, i: nat)
    requires i <= |a|
    ensures EncodeFrom(a + b, i) == EncodeFrom(a, i) + Encode(b)
    decreases |a| - i
  {
    if i < |a| {
      EncodeConcatFrom(a, b, i + 1);
      assert (a + b)[i] == a[i];
      Assoc(EncodeRecord(a[i]), EncodeFrom(a, i + 1), Encode(b));
    } else {
      EncodeShift(a, b, 0);
    }
  }

  lemma EncodeConcat(a: seq<Record>, b: seq<Record>)
    ensures Encode(a + b) == Encode(a) + Encode(b)
  {
    EncodeConcatFrom(a, b, 0);
  }

  lemma EncodeOne(r: Record)
    ensures Encode([r]) == EncodeRecord(r)
  {
    assert EncodeFrom([r], 1) == [];
  }

  lemma EncodeSnoc(a: seq<Record>, r: Record)
    ensures Encode(a + [r]) == Encode(a) + EncodeRecord(r)
  {
    EncodeConcat(a, [r]);
    EncodeOne(r);
  }

  lemma EncodeCons(r: Record, b: seq<Record>)
    ensures Encode([r] + b) == EncodeRecord(r) + Encode(b)
  {
    EncodeConcat([r], b);
    EncodeOne(r);
  }

  // ---- reading with a cursor ----

  datatype Piece = Piece(bytes: Bytes, next: nat)
  datatype RecordRead = RecordRead(record: Record, next: nat)

  /** Two `read_exact` calls: a u32 length, then that many bytes. None is an unexpected end of file. */
  function ReadPrefixed(file: Bytes, at: nat): (r: Option<Piece>)
    ensures r.Some? ==> at + 4 <= r.value.next <= |file|
  {
    if at + 4 > |file| then None
    else
      var end := at + 4 + FromLe(file[at..at + 4]);
      if end > |file| then None else Some(Piece(file[at + 4..end], end))
  }

  function ReadRecord(file: Bytes, at: nat): (r: Option<RecordRead>)
    ensures r.Some? ==> at + 8 <= r.value.next <= |file|
  {
    match ReadPrefixed(file, at)
    case None => None
    case Some(k) =>
      match ReadPrefixed(file, k.next)
      case None => None
      case Some(v) => Some(RecordRead(Record(k.bytes, v.bytes), v.next))
  }

  lemma ReadPrefixedInverts(file: Bytes, at: nat, x: Bytes, tail: Bytes)
    requires at <= |file| && file[at..] == Prefixed(x) + tail
    requires |x| < U32_LIMIT
    ensures ReadPrefixed(file, at) == Some(Piece(x, at + 4 + |x|))
    ensures at + 4 + |x| + |tail| == |file| && file[at + 4 + |x|..] == tail
  {
    PeelPrefixed(file, at, x, tail);
  }

  /** A cursor at an encoded record reads that record and stops where its bytes end. */
  lemma ReadInverts(file: Bytes, at: nat, r: Record, tail: Bytes)
    requires at <= |file| && file[at..] == EncodeRecord(r) + tail
    requires Fits(r)
    ensures var next := at + |EncodeRecord(r)|;
            && next + |tail| == |file| && file[next..] == tail
            && ReadRecord(file, at) == Some(RecordRead(r, next))
  {
    Assoc(Prefixed(r.key), Prefixed(r.value), tail);
    ReadPrefixedInverts(file, at, r.key, Prefixed(r.value) + tail);
    ReadPrefixedInverts(file, at + 4 + |r.key|, r.value, tail);
  }

  /** The cursor is at record `i` of a section that is followed by `tail`. */
  ghost predicate CursorAt(file: Bytes, at: nat, rs: seq<Record>, i: nat, tail: Bytes) {
    && i <= |rs|
    && at <= |file|
    && file[at..] == EncodeFrom(rs, i) + tail
  }

  lemma CursorReads(file: Bytes, at: nat, rs: seq<Record>, i: nat, tail: Bytes)
    requires CursorAt(file, at, rs, i, tail) && i < |rs| && Fits(rs[i])
    ensures var next := at + |EncodeRecord(rs[i])|;
            ReadRecord(file, at) == Some(RecordRead(rs[i], next)) && CursorAt(file, next, rs, i + 1, tail)
  {
    Assoc(EncodeRecord(rs[i]), EncodeFrom(rs, i + 1), tail);
    ReadInverts(file, at, rs[i], EncodeFrom(rs, i + 1) + tail);
  }

  /** Seeking to `Offset(rs, i)` puts the cursor at record `i`. */
  lemma {:induction false} SeekTo(file: Bytes, start: nat, rs: seq<Record>, i: nat, tail: Bytes)
    requires CursorAt(file, start, rs, 0, tail) && i <= |rs| && AllFit(rs)
    ensures CursorAt(file, start + Offset(rs, i), rs, i, tail)
  {
    hide ReadRecord;
    hide EncodeRecord;
    if i > 0 {
      SeekTo(file, start, rs, i - 1, tail);
      CursorReads(file, start + Offset(rs, i - 1), rs, i - 1, tail);
    }
  }

  /** A section's bytes determine its records. */
  lemma {:induction false} EncodeInjective(a: seq<Record>, b: seq<Record>, i: nat)
    requires AllFit(a) && AllFit(b) && i <= |a| && i <= |b|
    requires EncodeFrom(a, i) == EncodeFrom(b, i)
    ensures a[i..] == b[i..]
    decreases |a| - i
  {
    var file := EncodeFrom(a, i);
    assert file[0..] == file + [];
    if i < |a| && i < |b| {
      CursorReads(file, 0, a, i, []);
      CursorReads(file, 0, b, i, []);
      var next := |EncodeRecord(a[i])|;
      assert file[next..] == EncodeFrom(a, i + 1) && file[next..] == EncodeFrom(b, i + 1);
      EncodeInjective(a, b, i + 1);
    }
  }

  // ---- parsing a section ----

  /** The records from `at` on, if the bytes end with the last of them. */
  function ParseFrom(data: Bytes, at: nat): Option<seq<Record>>
    decreases |data| - at
  {
    if at >= |data| then Some([])
    else
      match ReadRecord(data, at)
      case None => None
      case Some(r) =>
        match ParseFrom(data, r.next)
        case None => None
        case Some(rest) => Some([r.record] + rest)
  }

  function Parse(data: Bytes): Option<seq<Record>> {
    ParseFrom(data, 0)
  }

  lemma PrefixedSound(file: Bytes, at: nat)
    requires ReadPrefixed(file, at).Some?
    ensures var p := ReadPrefixed(file, at).value;
            file[at..p.next] == Prefixed(p.bytes) && |p.bytes| < U32_LIMIT
  {
    PrefixedSlice(file, at, ReadPrefixed(file, at).value.next);
  }

  /** What a cursor reads is the encoding of the record it returns. */
  lemma ReadSound(file: Bytes, at: nat)
    requires ReadRecord(file, at).Some?
    ensures var r := ReadRecord(file, at).value; file[at..r.next] == EncodeRecord(r.record) && Fits(r.record)
  {
    hide FromLe;
    hide Prefixed;
    var k := ReadPrefixed(file, at).value;
    PrefixedSound(file, at);
    PrefixedSound(file, k.next);
    hide ReadPrefixed;
    var r := ReadRecord(file, at).value;
    assert file[at..r.next] == file[at..k.next] + file[k.next..r.next];
  }

  lemma {:induction false} ParseSound(data: Bytes, at: nat)
    requires at <= |data| && ParseFrom(data, at).Some?
    ensures var rs := ParseFrom(data, at).value; data[at..] == Encode(rs) && AllFit(rs)
    decreases |data| - at
  {
    hide ReadRecord;
    hide EncodeRecord;
    hide Encode;
    hide Fits;
    if at < |data| {
      var r := ReadRecord(data, at).value;
      ParseSound(data, r.next);
      ReadSound(data, at);
      EncodeCons(r.record, ParseFrom(data, r.next).value);
      assert data[at..] == data[at..r.next] + data[r.next..];
    } else {
      NoBytes();
    }
  }

  lemma NoBytes()
    ensures Encode([]) == [] && AllFit([])
  {
  }

  lemma {:induction false} ParseComplete(data: Bytes, at: nat, rs: seq<Record>, i: nat)
    requires AllFit(rs) && i <= |rs| && at <= |data| && data[at..] == EncodeFrom(rs, i)
    ensures ParseFrom(data, at) == Some(rs[i..])
    decreases |rs| - i
  {
    hide ReadRecord;
    hide EncodeRecord;
    if i < |rs| {
      assert data[at..] == EncodeFrom(rs, i) + [];
      CursorReads(data, at, rs, i, []);
      var next := at + |EncodeRecord(rs[i])|;
      assert data[next..] == EncodeFrom(rs, i + 1);
      assert at < |data| && ReadRecord(data, at) == Some(RecordRead(rs[i], next));
      ParseComplete(data, next, rs, i + 1);
      assert ParseFrom(data, at) == Some([rs[i]] + rs[i + 1..]);
      assert rs[i..] == [rs[i]] + rs[i + 1..];
    } else {
      assert |data[at..]| == 0 && rs[i..] == [];
    }
  }

  /** Parsing succeeds exactly on the encoding of some writable records, and returns them. */
  lemma ParseIff(data: Bytes, rs: seq<Record>)
    ensures Parse(data) == Some(rs) <==> AllFit(rs) && data == Encode(rs)
  {
    hide ParseFrom;
    hide EncodeFrom;
    assert data[0..] == data && rs[0..] == rs;
    if Parse(data) == Some(rs) { ParseSound(data, 0); }
    if AllFit(rs) && data == Encode(rs) { ParseComplete(data, 0, rs, 0); }
  }

  // ---- what a section holds ----

  /** Scan every record from `i` on for `key`. */
  function ScanFrom(rs: seq<Record>, i: nat, key: Bytes): Option<Bytes>
    decreases |rs| - i
  {
    if i >= |rs| then None
    else if rs[i].key == key then Some(rs[i].value)
    else ScanFrom(rs, i + 1, key)
  }

  function Find(rs: seq<Record>, key: Bytes): Option<Bytes> {
    ScanFrom(rs, 0, key)
  }

  lemma {:induction false} ScanMisses(rs: seq<Record>, i: nat, key: Bytes)
    requires forall j | i <= j < |rs| :: rs[j].key != key
    ensures ScanFrom(rs, i, key) == None
    decreases |rs| - i
  {
    if i < |rs| { ScanMisses(rs, i + 1, key); }
  }

  lemma {:induction false} ScanSkips(rs: seq<Record>, i: nat, j: nat, key: Bytes)
    requires i <= j <= |rs|
    requires forall p | i <= p < j :: rs[p].key != key
    ensures ScanFrom(rs, i, key) == ScanFrom(rs, j, key)
    decreases j - i
  {
    if i < j { ScanSkips(rs, i + 1, j, key); }
  }

  /** A scan that hits names the record it hit. */
  lemma {:induction false} ScanHits(rs: seq<Record>, i: nat, key: Bytes) returns (j: nat)
    requires ScanFrom(rs, i, key).Some?
    ensures i <= j < |rs| && rs[j] == Record(key, ScanFrom(rs, i, key).value)
    decreases |rs| - i
  {
    if rs[i].key == key { j := i; } else { j := ScanHits(rs, i + 1, key); }
  }

  /** In a strictly sorted section, keys before `i` are smaller and keys after it greater. */
  lemma SortedFind(rs: seq<Record>, i: nat)
    requires Sorted(rs) && i < |rs|
    ensures Find(rs, rs[i].key) == Some(rs[i].value)
  {
    forall p | 0 <= p < i ensures rs[p].key != rs[i].key {
      LessTotal(rs[p].key, rs[i].key);
      assert Less(rs[p].key, rs[i].key);
    }
    ScanSkips(rs, 0, i, rs[i].key);
  }

  lemma SortedMissesBelow(rs: seq<Record>, i: nat, key: Bytes)
    requires Sorted(rs) && i <= |rs|
    requires i < |rs| ==> Less(key, rs[i].key)
    ensures ScanFrom(rs, i, key) == None
  {
    forall p | i <= p < |rs| ensures rs[p].key != key {
      if i < p {
        assert Less(rs[i].key, rs[p].key);
        LessTransitive(key, rs[i].key, rs[p].key);
      }
      LessTotal(key, rs[p].key);
    }
    ScanMisses(rs, i, key);
  }

  lemma {:induction false} ScanShift(a: seq<Record>, b: seq<Record>, i: nat, key: Bytes)
    requires i <= |b|
    ensures ScanFrom(a + b, |a| + i, key) == ScanFrom(b, i, key)
    decreases |b| - i
  {
    if i < |b| { ScanShift(a, b, i + 1, key); }
  }

  lemma FindCons(r: Record, rs: seq<Record>, key: Bytes)
    ensures Find([r] + rs, key) == if r.key == key then Some(r.value) else Find(rs, key)
  {
    ScanShift([r], rs, 0, key);
    assert ([r] + rs)[0] == r;
    assert ScanFrom([r] + rs, 1, key) == Find(rs, key);
  }

  /** A strictly sorted section is determined by its lookups. */
  lemma {:induction false} SortedExtensional(a: seq<Record>, b: seq<Record>)
    requires Sorted(a) && Sorted(b)
    requires forall k :: Find(a, k) == Find(b, k)
    ensures a == b
  {
    EmptyTogether(a, b);
    EmptyTogether(b, a);
    if a != [] {
      HeadsAgree(a, b);
      var ta, tb := a[1..], b[1..];
      assert a == [a[0]] + ta && b == [b[0]] + tb;
      TailSorted(a);
      TailSorted(b);
      forall k ensures Find(ta, k) == Find(tb, k) {
        FindCons(a[0], ta, k);
        FindCons(b[0], tb, k);
        if k == a[0].key {
          TailMissesHead(a);
          TailMissesHead(b);
        } else {
          assert Find(a, k) == Find(b, k);
        }
      }
      SortedExtensional(ta, tb);
    }
  }

  lemma EmptyTogether(a: seq<Record>, b: seq<Record>)
    requires Sorted(a)
    requires forall k :: Find(a, k) == Find(b, k)
    ensures a != [] ==> b != []
  {
    if a != [] {
      SortedFind(a, 0);
      assert Find(b, a[0].key) == Some(a[0].value);
    }
  }

  lemma HeadsAgree(a: seq<Record>, b: seq<Record>)
    requires Sorted(a) && Sorted(b) && a != [] && b != []
    requires forall k :: Find(a, k) == Find(b, k)
    ensures a[0] == b[0]
  {
    SortedFind(a, 0);
    SortedFind(b, 0);
    assert Find(b, a[0].key) == Some(a[0].value);
    assert Find(a, b[0].key) == Some(b[0].value);
    LessTotal(a[0].key, b[0].key);
    if Less(a[0].key, b[0].key) {
      SortedMissesBelow(b, 0, a[0].key);
    } else if Less(b[0].key, a[0].key) {
      SortedMissesBelow(a, 0, b[0].key);
    }
  }

  lemma TailSorted(rs: seq<Record>)
    requires Sorted(rs) && rs != []
    ensures Sorted(rs[1..])
  {
    var t := rs[1..];
    forall i, j | 0 <= i < j < |t| ensures Less(t[i].key, t[j].key) {
      assert Less(rs[i + 1].key, rs[j + 1].key);
    }
  }

  lemma TailMissesHead(rs: seq<Record>)
    requires Sorted(rs) && rs != []
    ensures Find(rs[1..], rs[0].key) == None
  {
    TailSorted(rs);
    if |rs| > 1 { assert Less(rs[0].key, rs[1].key); }
    SortedMissesBelow(rs[1..], 0, rs[0].key);
  }

  lemma ConsSorted(r: Record, rs: seq<Record>)
    requires Sorted(rs)
    requires forall i | 0 <= i < |rs| :: Less(r.key, rs[i].key)
    ensures Sorted([r] + rs)
  {
    var s := [r] + rs;
    forall i, j | 0 <= i < j < |s| ensures Less(s[i].key, s[j].key) {
      if i > 0 { assert Less(rs[i - 1].key, rs[j - 1].key); }
    }
  }
}
