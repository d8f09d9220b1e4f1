/** The memtable as a value: what is logged for a write, the records a flush would write, the bytes
    they take, and the map a log replays to. */
module MemMap {
  import opened Wrappers
  import opened Bytes
  import opened Utf8
  import opened Codec
  import opened Records

  /** The ordered in-memory map; `None` is a tombstone. */
  type Mem = map<Bytes, Option<TableEntry>>

  /** The value bytes of a log or table record. */
  function ValueBytes(v: Option<TableEntry>): (b: Bytes)
    ensures |b| >= 1
    ensures v.Some? ==> |b| >= 5
  {
    match v
    case None => TOMBSTONE
    case Some(e) => Codec.Encode(e)
  }

  function DecodeValue(b: Bytes): Result<Option<TableEntry>, DecodeError> {
    if b == TOMBSTONE then Ok(None)
    else
      match Decode(b)
      case Ok(e) => Ok(Some(e))
      case Err(e) => Err(e)
  }

  function RecordOf(key: Bytes, v: Option<TableEntry>): Record {
    Record(key, ValueBytes(v))
  }

  function Size(key: Bytes, v: Option<TableEntry>): nat {
    |EncodeRecord(RecordOf(key, v))|
  }

  method ToWalEntry(key: Bytes, v: Option<TableEntry>) returns (buffer: Bytes)
    ensures buffer == EncodeRecord(RecordOf(key, v)) && |buffer| == Size(key, v)
  {
    buffer := U32(|key|);
    buffer := buffer + key;
    match v
    case None =>
      buffer := buffer + U32(1);
      buffer := buffer + TOMBSTONE;
    case Some(e) =>
      var contents := Serialize(e);
      buffer := buffer + U32(|contents|);
      buffer := buffer + contents;
      assert buffer == EncodeRecord(RecordOf(key, v));
  }

  /** A write the formats can carry: a non-empty key a footer can hold, a well-formed entry. */
  ghost predicate GoodWrite(key: Bytes, v: Option<TableEntry>) {
    && 0 < |key| <= 9996
    && |ValueBytes(v)| < U32_LIMIT
    && (v.Some? ==> WellFormed(v.value))
  }

  /** A write can be carried exactly when its key has 1 to 9996 bytes, its value bytes are shorter than
      2^32 and its metadata keys are text. */
  lemma GoodWriteIff(key: Bytes, v: Option<TableEntry>)
    ensures GoodWrite(key, v) <==>
            && 1 <= |key| <= 9996 && |ValueBytes(v)| < 0x1_0000_0000
            && (v.Some? && v.value.metaData.Some? ==> forall k | k in v.value.metaData.value :: IsText(k))
  {
    hide WellFormed;
    hide IsText;
    hide Codec.Encode;
    if v.Some? && |ValueBytes(v)| < U32_LIMIT { WellFormedIff(v.value); }
  }

  /** A tombstone is never taken for a value, and every value is read back as it was written. */
  lemma ValueRoundTrip(v: Option<TableEntry>)
    requires v.Some? ==> WellFormed(v.value)
    ensures DecodeValue(ValueBytes(v)) == Ok(v)
    ensures v.None? <==> |ValueBytes(v)| == 1
  {
    if v.Some? { RoundTrip(v.value); }
  }

  // ---- the records of a memtable ----

  function RecordAt(m: Mem, key: Bytes): Record
    requires key in m
  {
    RecordOf(key, m[key])
  }

  function RecordsFor(keys: seq<Bytes>, m: Mem): (rs: seq<Record>)
    requires forall k | k in keys :: k in m
    ensures |rs| == |keys|
  {
    seq(|keys|, i requires 0 <= i < |keys| => RecordAt(m, keys[i]))
  }

  function RecordsOf(m: Mem): (rs: seq<Record>)
    ensures |rs| == |m|
  {
    RecordsFor(SortedKeys(m.Keys), m)
  }

  lemma RecordsOfIs(m: Mem)
    ensures Sorted(RecordsOf(m))
    ensures forall i | 0 <= i < |m| ::
              RecordsOf(m)[i].key in m && RecordsOf(m)[i] == RecordOf(RecordsOf(m)[i].key, m[RecordsOf(m)[i].key])
    ensures forall k :: Find(RecordsOf(m), k) == if k in m then Some(ValueBytes(m[k])) else None
  {
    var keys, rs := SortedKeys(m.Keys), RecordsOf(m);
    forall i, j | 0 <= i < j < |rs| ensures Less(rs[i].key, rs[j].key) {
      assert Less(keys[i], keys[j]);
    }
    forall k ensures Find(rs, k) == if k in m then Some(ValueBytes(m[k])) else None {
      if k in m {
        assert k in keys;
        var i :| 0 <= i < |keys| && keys[i] == k;
        SortedFind(rs, i);
      } else {
        forall j | 0 <= j < |rs| ensures rs[j].key != k {
          assert keys[j] in keys;
        }
        ScanMisses(rs, 0, k);
      }
    }
  }

  // ---- the bytes they take ----

  ghost function SumOver(s: set<Bytes>, m: Mem): nat
    requires s <= m.Keys
  {
    if s == {} then 0 else Size(Least(s), m[Least(s)]) + SumOver(s - {Least(s)}, m)
  }

  /** The encoded sizes of the live records, added up. */
  ghost function Total(m: Mem): nat {
    SumOver(m.Keys, m)
  }

  lemma {:induction false} SumWithout(s: set<Bytes>, m: Mem, k: Bytes)
    requires s <= m.Keys && k in s
    ensures SumOver(s, m) == Size(k, m[k]) + SumOver(s - {k}, m)
  {
    hide Size;
    var l := Least(s);
    if l != k {
      SumWithout(s - {l}, m, k);
      assert s - {l} - {k} == s - {k} - {l};
      LeastUnique(s - {k});
      assert IsLeast(l, s - {k});
      assert Least(s - {k}) == l;
    }
  }

  lemma {:induction false} SumSame(s: set<Bytes>, m: Mem, n: Mem)
    requires s <= m.Keys && s <= n.Keys && forall k | k in s :: m[k] == n[k]
    ensures SumOver(s, m) == SumOver(s, n)
  {
    hide Size;
    if s != {} { SumSame(s - {Least(s)}, m, n); }
  }

  lemma RecordsForCons(k: Bytes, rest: seq<Bytes>, m: Mem)
    requires k in m && forall x | x in rest :: x in m
    ensures forall x | x in [k] + rest :: x in m
    ensures RecordsFor([k] + rest, m) == [RecordAt(m, k)] + RecordsFor(rest, m)
  {
  }

  lemma {:induction false} EncodedSum(s: set<Bytes>, m: Mem)
    requires s <= m.Keys
    ensures |Records.Encode(RecordsFor(SortedKeys(s), m))| == SumOver(s, m)
  {
    hide EncodeRecord;
    hide RecordsFor;
    hide ValueBytes;
    hide Records.Encode;
    if s != {} {
      var l := Least(s);
      var rest := SortedKeys(s - {l});
      EncodedSum(s - {l}, m);
      RecordsForCons(l, rest, m);
      EncodeCons(RecordAt(m, l), RecordsFor(rest, m));
    } else {
      NoRecords(m);
    }
  }

  lemma NoRecords(m: Mem)
    ensures |Records.Encode(RecordsFor([], m))| == 0
  {
  }

  /** The total is the length of the data section a flush would write. */
  lemma TotalIsEncoded(m: Mem)
    ensures Total(m) == |Records.Encode(RecordsOf(m))|
  {
    EncodedSum(m.Keys, m);
  }

  /** Replacing one record changes the total by the difference of the two sizes. */
  lemma TotalUpdate(m: Mem, k: Bytes, v: Option<TableEntry>)
    ensures Total(m[k := v]) == Total(m) + Size(k, v) - (if k in m then Size(k, m[k]) else 0)
    ensures k in m ==> Size(k, m[k]) <= Total(m)
  {
    hide Size;
    hide SumOver;
    var n := m[k := v];
    SumWithout(n.Keys, n, k);
    SumSame(n.Keys - {k}, n, m);
    if k in m {
      SumWithout(m.Keys, m, k);
      assert n.Keys == m.Keys;
    } else {
      assert n.Keys - {k} == m.Keys;
    }
  }

  // ---- logs ----

  datatype LoggedWrite = LoggedWrite(key: Bytes, entry: Option<TableEntry>)

  function Logged(ws: seq<LoggedWrite>): (rs: seq<Record>)
    ensures |rs| == |ws|
  {
    seq(|ws|, i requires 0 <= i < |ws| => RecordOf(ws[i].key, ws[i].entry))
  }

  ghost predicate GoodLog(ws: seq<LoggedWrite>) {
    forall i | 0 <= i < |ws| :: GoodWrite(ws[i].key, ws[i].entry)
  }

  /** The map after the writes from `i` on. */
  function Applied(ws: seq<LoggedWrite>, i: nat, m: Mem): Mem
    decreases |ws| - i
  {
    if i >= |ws| then m else Applied(ws, i + 1, m[ws[i].key := ws[i].entry])
  }

  lemma {:induction false} AppliedSnoc(ws: seq<LoggedWrite>, w: LoggedWrite, i: nat, m: Mem)
    requires i <= |ws|
    ensures Applied(ws + [w], i, m) == Applied(ws, i, m)[w.key := w.entry]
    decreases |ws| - i
  {
    if i < |ws| {
      assert (ws + [w])[i] == ws[i];
      AppliedSnoc(ws, w, i + 1, m[ws[i].key := ws[i].entry]);
    } else {
      assert Applied(ws + [w], i + 1, m[w.key := w.entry]) == m[w.key := w.entry];
    }
  }

  datatype ReplayError =
    | EmptyWal | ZeroKeyLength | KeyTooLong | NoValueLength | ValueTooLong | BadValue(error: DecodeError)
    | SlicePanic  // the unchecked slice of the key length

  datatype Replayed = Replayed(mem: Mem, status: Result<(), ReplayError>)

  /** The replay loop, with its bounds checks: what it inserted, and how it ended. */
  function ReplayFrom(log: Bytes, at: nat, m: Mem): Replayed
    decreases |log| - at
  {
    if at >= |log| then Replayed(m, Ok(()))
    else if at + 4 > |log| then Replayed(m, Err(SlicePanic))
    else
      var keyLen := FromLe(log[at..at + 4]);
      var keyEnd := at + 4 + keyLen;
      if keyLen == 0 then Replayed(m, Err(ZeroKeyLength))
      else if keyEnd >= |log| then Replayed(m, Err(KeyTooLong))
      else if keyEnd + 4 >= |log| then Replayed(m, Err(NoValueLength))
      else
        var end := keyEnd + 4 + FromLe(log[keyEnd..keyEnd + 4]);
        if end > |log| then Replayed(m, Err(ValueTooLong))
        else
          match DecodeValue(log[keyEnd + 4..end])
          case Err(e) => Replayed(m, Err(BadValue(e)))
          case Ok(v) => ReplayFrom(log, end, m[log[at + 4..keyEnd] := v])
  }

  function Replay(log: Bytes, m: Mem): Replayed {
    if |log| == 0 then Replayed(m, Ok(()))
    else if |log| < 4 then Replayed(m, Err(EmptyWal))
    else ReplayFrom(log, 0, m)
  }

  /** The replay loop reads one well-formed entry. */
  lemma ReplayEntry(log: Bytes, at: nat, key: Bytes, value: Bytes, v: Option<TableEntry>, m: Mem, next: nat)
    requires key != [] && |value| > 0 && DecodeValue(value) == Ok(v)
    requires next == at + 8 + |key| + |value| && next <= |log|
    requires FromLe(log[at..at + 4]) == |key| && log[at + 4..at + 4 + |key|] == key
    requires var keyEnd := at + 4 + |key|;
             FromLe(log[keyEnd..keyEnd + 4]) == |value| && log[keyEnd + 4..keyEnd + 4 + |value|] == value
    ensures ReplayFrom(log, at, m) == ReplayFrom(log, next, m[key := v])
  {
    hide DecodeValue;
    hide FromLe;
  }

  lemma ReplayOne(log: Bytes, at: nat, w: LoggedWrite, m: Mem, tail: Bytes)
    requires GoodWrite(w.key, w.entry)
    requires at <= |log| && log[at..] == EncodeRecord(RecordOf(w.key, w.entry)) + tail
    ensures var next := at + |EncodeRecord(RecordOf(w.key, w.entry))|;
            next <= |log| && log[next..] == tail && ReplayFrom(log, at, m) == ReplayFrom(log, next, m[w.key := w.entry])
  {
    hide Decode;
    hide ValueBytes;
    hide DecodeValue;
    hide ReplayFrom;
    var value := ValueBytes(w.entry);
    ValueRoundTrip(w.entry);
    Assoc(Prefixed(w.key), Prefixed(value), tail);
    PeelPrefixed(log, at, w.key, Prefixed(value) + tail);
    PeelPrefixed(log, at + 4 + |w.key|, value, tail);
    ReplayEntry(log, at, w.key, value, w.entry, m, at + 8 + |w.key| + |value|);
  }

  lemma LoggedFrom(ws: seq<LoggedWrite>, i: nat)
    requires i <= |ws|
    ensures i < |ws| ==>
              EncodeFrom(Logged(ws), i)
              == EncodeRecord(RecordOf(ws[i].key, ws[i].entry)) + EncodeFrom(Logged(ws), i + 1)
    ensures i == |ws| ==> EncodeFrom(Logged(ws), i) == []
  {
    hide EncodeRecord;
  }

  lemma {:induction false} ReplayLogged(log: Bytes, at: nat, ws: seq<LoggedWrite>, i: nat, m: Mem)
    requires GoodLog(ws) && i <= |ws|
    requires at <= |log| && log[at..] == EncodeFrom(Logged(ws), i)
    ensures ReplayFrom(log, at, m) == Replayed(Applied(ws, i, m), Ok(()))
    decreases |ws| - i
  {
    hide ReplayFrom;
    hide EncodeRecord;
    hide EncodeFrom;
    hide Logged;
    hide GoodWrite;
    LoggedFrom(ws, i);
    if i < |ws| {
      var w := ws[i];
      ReplayOne(log, at, w, m, EncodeFrom(Logged(ws), i + 1));
      ReplayLogged(log, at + |EncodeRecord(RecordOf(w.key, w.entry))|, ws, i + 1, m[w.key := w.entry]);
    } else {
      ReplayNothing(log, at, m);
    }
  }

  lemma ReplayNothing(log: Bytes, at: nat, m: Mem)
    requires at >= |log|
    ensures ReplayFrom(log, at, m) == Replayed(m, Ok(()))
  {
  }

  /** Replaying a log gives the map its writes built. */
  lemma ReplayIs(ws: seq<LoggedWrite>, m: Mem)
    requires GoodLog(ws)
    ensures Replay(Records.Encode(Logged(ws)), m) == Replayed(Applied(ws, 0, m), Ok(()))
  {
    var log := Records.Encode(Logged(ws));
    assert log[0..] == log;
    ReplayLogged(log, 0, ws, 0, m);
    if |ws| > 0 { OffsetSplits(Logged(ws), 1); }
  }

  /** A log cut at an entry boundary replays to the state after that many writes. */
  lemma ReplayPrefix(ws: seq<LoggedWrite>, n: nat, m: Mem)
    requires GoodLog(ws) && n <= |ws|
    ensures Offset(Logged(ws), n) <= |Records.Encode(Logged(ws))|
    ensures Replay(Records.Encode(Logged(ws))[..Offset(Logged(ws), n)], m) == Replayed(Applied(ws[..n], 0, m), Ok(()))
  {
    var a, b := Logged(ws[..n]), Logged(ws[n..]);
    assert Logged(ws) == a + b;
    EncodeConcat(a, b);
    OffsetOfPrefix(a, b, n);
    OffsetSplits(a, n);
    assert (Records.Encode(a) + Records.Encode(b))[..|Records.Encode(a)|] == Records.Encode(a);
    ReplayIs(ws[..n], m);
  }

  lemma {:induction false} OffsetOfPrefix(a: seq<Record>, b: seq<Record>, n: nat)
    requires n <= |a|
    ensures Offset(a + b, n) == Offset(a, n)
  {
    if n > 0 { OffsetOfPrefix(a, b, n - 1); }
  }

  lemma LogBytesSnoc(ws: seq<LoggedWrite>, w: LoggedWrite)
    ensures |Records.Encode(Logged(ws + [w]))| == |Records.Encode(Logged(ws))| + Size(w.key, w.entry)
  {
    hide EncodeRecord;
    hide Records.Encode;
    hide ValueBytes;
    assert Logged(ws + [w]) == Logged(ws) + [RecordOf(w.key, w.entry)];
    EncodeSnoc(Logged(ws), RecordOf(w.key, w.entry));
  }

  lemma SplitLog(ws: seq<LoggedWrite>)
    requires |ws| > 0
    ensures var (init, w) := (ws[..|ws| - 1], ws[|ws| - 1]);
            && Applied(ws, 0, map[]) == Applied(init, 0, map[])[w.key := w.entry]
            && |Records.Encode(Logged(ws))| == |Records.Encode(Logged(init))| + Size(w.key, w.entry)
  {
    hide Applied;
    hide Records.Encode;
    hide Logged;
    hide Size;
    var (init, w) := (ws[..|ws| - 1], ws[|ws| - 1]);
    assert ws == init + [w];
    AppliedSnoc(init, w, 0, map[]);
    LogBytesSnoc(init, w);
  }

  lemma {:induction false} AppliedKeys(ws: seq<LoggedWrite>)
    ensures forall k :: k in Applied(ws, 0, map[]) <==> exists i :: 0 <= i < |ws| && ws[i].key == k
  {
    hide Size;
    hide Logged;
    hide Records.Encode;
    if |ws| > 0 {
      hide Applied;
      var (init, w) := (ws[..|ws| - 1], ws[|ws| - 1]);
      AppliedKeys(init);
      SplitLog(ws);
      forall k ensures k in Applied(ws, 0, map[]) <==> exists i :: 0 <= i < |ws| && ws[i].key == k {
        if k in Applied(init, 0, map[]) {
          var i :| 0 <= i < |init| && init[i].key == k;
          assert ws[i].key == k;
        }
        if i :| 0 <= i < |ws| && ws[i].key == k {
          if i < |init| { assert init[i].key == k; }
        }
      }
    }
  }

  ghost predicate NoRewrites(ws: seq<LoggedWrite>) {
    forall i, j | 0 <= i < j < |ws| :: ws[i].key != ws[j].key
  }

  lemma NoRewritesSnoc(ws: seq<LoggedWrite>)
    requires |ws| > 0
    ensures var (init, w) := (ws[..|ws| - 1], ws[|ws| - 1]);
            NoRewrites(ws) <==> NoRewrites(init) && w.key !in Applied(init, 0, map[])
  {
    var (init, w) := (ws[..|ws| - 1], ws[|ws| - 1]);
    AppliedKeys(init);
    if NoRewrites(init) && w.key !in Applied(init, 0, map[]) {
      forall i, j | 0 <= i < j < |ws| ensures ws[i].key != ws[j].key {
        if j < |ws| - 1 { assert init[i].key != init[j].key; } else { assert init[i].key != w.key; }
      }
    }
    if NoRewrites(ws) {
      forall i, j | 0 <= i < j < |init| ensures init[i].key != init[j].key {
        assert ws[i].key != ws[j].key;
      }
    }
  }

  /** A log is at least as long as the records of the map it replays to, and exactly as long when
      and only when no key was written twice. */
  lemma {:induction false} LogCovers(ws: seq<LoggedWrite>)
    ensures Total(Applied(ws, 0, map[])) <= |Records.Encode(Logged(ws))|
    ensures Total(Applied(ws, 0, map[])) == |Records.Encode(Logged(ws))| <==> NoRewrites(ws)
  {
    hide Size;
    hide Total;
    hide Applied;
    hide Records.Encode;
    hide NoRewrites;
    if |ws| > 0 {
      var (init, w) := (ws[..|ws| - 1], ws[|ws| - 1]);
      LogCovers(init);
      SplitLog(ws);
      NoRewritesSnoc(ws);
      TotalUpdate(Applied(init, 0, map[]), w.key, w.entry);
      SizePositive(w.key, w.entry);
      if w.key in Applied(init, 0, map[]) { SizePositive(w.key, Applied(init, 0, map[])[w.key]); }
    } else {
      EmptyLog(ws);
    }
  }

  lemma EmptyLog(ws: seq<LoggedWrite>)
    requires ws == []
    ensures Total(Applied(ws, 0, map[])) == 0 && |Records.Encode(Logged(ws))| == 0 && NoRewrites(ws)
  {
    assert Applied(ws, 0, map[]) == map[];
  }

  lemma SizePositive(k: Bytes, v: Option<TableEntry>)
    ensures Size(k, v) > 0
  {
  }
}
