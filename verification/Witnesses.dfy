/** Runs from an empty store on which the store falls short of its promise: a read that misses
    because the level array is stale, a `get` that returns an encoding, and a deleted key that a
    compaction brings back. */
module Witnesses {
  import opened Wrappers
  import opened Bytes
  import opened Codec
  import opened Records
  import opened Merging
  import opened SSTable
  import opened Levels
  import opened LsmTree
  import opened Names
  import opened MemMap
  import opened Memtable
  import opened Join
  import opened Build
  import opened Units
  import opened Promotion
  import opened Lookups
  import opened Preservation
  import opened Store
  import opened Runs
  import opened Overwrites
  import Serving
  import Service
  import Lifecycle

  /** A write that may come at any time: well-formed, below 2^30 bytes, with a usable probe count. */
  ghost predicate Plain(key: Bytes, v: Option<TableEntry>, env: Env) {
    GoodWrite(key, v) && 4 * Size(key, v) <= U32_LIMIT && 2 <= env.k <= 16
  }

  /** Such a write after the deadline flushes, and is enabled when its table's name is free. */
  lemma LateWrite(db: Db, c: Config, key: Bytes, v: Option<TableEntry>, env: Env)
    requires SizeOk(db) && ValidConfig(c) && Plain(key, v, env) && env.now > db.flushBy
    requires FreeSlot(TopLevel(db.disk.levels), TableName(env.uuid), env.now)
    ensures WriteReady(db, c, key, v, env) && ShouldFlush(Inserted(db, c, key, v), c, env)
    ensures var after := AfterWrite(db, c, key, v, env);
            && after.mem == map[] && after.flushBy == env.now + c.ramMaxTime
            && after.disk.levels == TableWritten(Inserted(db, c, key, v), c, env).levels
  {
    hide GoodWrite;
    hide Size;
    hide Total;
    hide FlushIndexFits;
    hide TableWritten;
    WriteIndexFits(db, c, key, v, env);
  }

  /** A write that flushes can be cut short before its first durable step and after each of the three. */
  lemma CrashPoints(db: Db, c: Config, key: Bytes, v: Option<TableEntry>, env: Env, steps: nat)
    requires c.walEnabled && WriteReady(db, c, key, v, env) && SizeOk(db) && steps <= 3
    requires ShouldFlush(Inserted(db, c, key, v), c, env) && |db.disk.wal| + Size(key, v) < HALF
    ensures CrashReady(db, c, key, v, env, steps)
  {
    hide WriteReady;
    hide WriteTrail;
    hide EncodeRecord;
    hide SizeOk;
    hide ShouldFlush;
    hide Inserted;
    TrailOf(db, c, key, v, env);
  }

  /** So can the first write of an empty store. */
  lemma CrashAnywhere(c: Config, now: nat, key: Bytes, v: Option<TableEntry>, env: Env, steps: nat, later: nat)
    requires ValidConfig(c) && c.walEnabled && Plain(key, v, env) && env.now > now + c.ramMaxTime && steps <= 3
    ensures Enabled(EmptyStore(c, now), c, CrashOp(key, v, env, steps, later))
  {
    hide WriteReady;
    hide Size;
    hide SizeOk;
    hide ShouldFlush;
    hide AfterWrite;
    hide Inserted;
    hide FreeSlot;
    hide CrashReady;
    hide GoodWrite;
    var db := EmptyStore(c, now);
    EmptyParts(c, now);
    EmptySlot(db, TableName(env.uuid), env.now);
    LateWrite(db, c, key, v, env);
    CrashPoints(db, c, key, v, env, steps);
  }

  lemma EmptySlot(db: Db, name: string, created: nat)
    requires db.disk.levels == []
    ensures FreeSlot(TopLevel(db.disk.levels), name, created)
  {
  }

  /** Log append, table file, log cleared. */
  lemma TrailOf(db: Db, c: Config, key: Bytes, v: Option<TableEntry>, env: Env)
    requires SizeOk(db) && c.walEnabled && ShouldFlush(Inserted(db, c, key, v), c, env)
    ensures var (trail, log) := (WriteTrail(db, c, key, v, env), db.disk.wal + EncodeRecord(RecordOf(key, v)));
            |trail| == 3 && trail[0].wal == log && trail[1].wal == log && trail[2].wal == []
  {
    hide EncodeRecord;
    hide FlushBytes;
  }

  /** A first put that flushes is not found: the level array was loaded before. */
  lemma StaleRun(c: Config, now: nat, key: Bytes, e: TableEntry, env: Env)
    requires ValidConfig(c) && Plain(key, Some(e), env) && env.now > now + c.ramMaxTime
    ensures var (db, ops) := (EmptyStore(c, now), [WriteOp(key, Some(e), env)]);
            && Runnable(db, c, ops)
            && var s := Serving.Serve(Serving.Fresh(db, map[]), c, map[], ops);
               && AllValid(s.loaded) && Serving.ServedLookup(s, key) == None
               && Seen(LastWrite(ModelRun(map[], ops), key)) == Some(e)
  {
    hide Plain;
    hide TableWritten;
    hide WriteReady;
    hide Meaning;
    hide Replay;
    var (db, op) := (EmptyStore(c, now), WriteOp(key, Some(e), env));
    EmptyParts(c, now);
    LateWrite(db, c, key, Some(e), env);
    assert [op][1..] == [];
    NoLevels(key);
    NoneMeans();
  }

  lemma EmptyParts(c: Config, now: nat)
    requires ValidConfig(c)
    ensures var db := EmptyStore(c, now);
            db.mem == map[] && SizeOk(db) && db.flushBy == now + c.ramMaxTime && db.disk.levels == []
  {
    EmptyInv(c, now);
  }

  /** After the same run `get` on a reloaded level array returns the encoding. */
  lemma EncodedRun(c: Config, now: nat, key: Bytes, e: TableEntry, env: Env, filter: Option<set<Bytes>>)
    requires ValidConfig(c) && Plain(key, Some(e), env) && env.now > now + c.ramMaxTime
    ensures var (db, ops) := (EmptyStore(c, now), [WriteOp(key, Some(e), env)]);
            && Runnable(db, c, ops)
            && var after := Run(db, c, ops);
               && AllValid(after.disk.levels)
               && Service.GetSpec(after.mem, after.disk.levels, key, filter) ==
                    Service.GetResponse(Some(Codec.Encode(e)), map[])
               && Service.Meant(ModelRun(map[], ops), key, filter).value == Some(e.value) != Some(Codec.Encode(e))
  {
    hide Plain;
    hide TableWritten;
    hide WriteReady;
    hide Inv;
    hide Replay;
    hide Service.GetSpec;
    hide Codec.Encode;
    var (db, op) := (EmptyStore(c, now), WriteOp(key, Some(e), env));
    EmptyParts(c, now);
    EmptyInv(c, now);
    LateWrite(db, c, key, Some(e), env);
    assert [op][1..] == [];
    Service.FlushedGetIsWrong(db, c, map[], key, e, env, filter);
    assert |Codec.Encode(e)| > |e.value|;
  }

  // ---- a deleted key comes back ----

  lemma OneRecord(key: Bytes, v: Option<TableEntry>)
    ensures RecordsOf(map[key := v]) == [RecordOf(key, v)]
  {
    hide ValueBytes;
    var m := map[key := v];
    assert m.Keys == {key};
    assert |{key}| == 1;
    assert SortedKeys({key})[0] in {key};
  }

  /** The newer list first. */
  function Two(key: Bytes, newer: Bytes, older: Bytes): (xs: seq<seq<Record>>)
    ensures |xs| == 2 && xs[0] == [Record(key, newer)] && xs[1] == [Record(key, older)]
  {
    [[Record(key, newer)], [Record(key, older)]]
  }

  lemma FindOne(key: Bytes, b: Bytes)
    ensures Find([Record(key, b)], key) == Some(b)
  {
  }

  lemma StripOne(key: Bytes, b: Bytes)
    requires |key| == 1
    ensures Strip([Record(key, b)]) == if b == TOMBSTONE then [] else [Record(key, b)]
  {
    var rs := [Record(key, b)];
    assert StripFrom(rs, 1) == [];
  }

  /** The newer list has the tombstone of a one-byte key, the older one a value: the merge has the
      value. */
  lemma TombstoneDropped(key: Bytes, b: Bytes)
    requires |key| == 1 && |b| > 1
    ensures Overlay(Two(key, TOMBSTONE, b)) == [Record(key, b)]
  {
    hide Strip;
    var xs := Two(key, TOMBSTONE, b);
    StripOne(key, TOMBSTONE);
    StripOne(key, b);
    MergeNothing([Record(key, b)]);
    hide Merge;
    assert xs[1..] == [xs[1]] && xs[1..][1..] == [];
    assert Overlay(xs[1..]) == Merge(Strip(xs[1]), Overlay([]));
  }

  lemma TwoLookups(xs: seq<seq<Record>>, key: Bytes)
    requires |xs| == 2
    ensures FirstHit(xs, 0, key) == Override(Find(xs[0], key), Find(xs[1], key))
    ensures FirstKept(xs, key) == Override(Kept(key, Find(xs[0], key)), Kept(key, Find(xs[1], key)))
  {
    hide Find;
    hide Kept;
    assert FirstHit(xs, 1, key) == Find(xs[1], key);
    assert xs[1..] == [xs[1]] && xs[1..][1..] == [];
    assert FirstKept(xs[1..], key) == Kept(key, Find(xs[1], key));
  }

  lemma TombstoneLookups(key: Bytes, b: Bytes)
    requires |key| == 1 && |b| > 1
    ensures FirstHit(Two(key, TOMBSTONE, b), 0, key) == Some(TOMBSTONE)
    ensures FirstKept(Two(key, TOMBSTONE, b), key) == Some(b)
  {
    hide Find;
    hide FirstHit;
    hide FirstKept;
    FindOne(key, TOMBSTONE);
    FindOne(key, b);
    TwoLookups(Two(key, TOMBSTONE, b), key);
  }

  /** One late write on an empty memory becomes one table with one record. */
  lemma OneTable(db: Db, c: Config, model: Model, key: Bytes, v: Option<TableEntry>, env: Env)
    requires Inv(db, c, model) && db.mem == map[] && Plain(key, v, env) && env.now > db.flushBy
    requires FreeSlot(TopLevel(db.disk.levels), TableName(env.uuid), env.now)
    ensures Enabled(db, c, WriteOp(key, v, env))
    ensures var (after, b) := (Step(db, c, WriteOp(key, v, env)), FlushBytes(map[key := v], c.pageSize, env.k));
            && Inv(after, c, model[key := v])
            && after.mem == map[] && after.flushBy == env.now + c.ramMaxTime
            && IsTable(b) && Contents(b) == [RecordOf(key, v)]
            && after.disk.levels == [TopLevel(db.disk.levels)[TableName(env.uuid) := FileData(env.now, b)]]
                                    + (if db.disk.levels == [] then [] else db.disk.levels[1..])
  {
    hide GoodWrite;
    hide Size;
    hide Total;
    hide TableWritten;
    hide FlushBytes;
    hide GoodRecords;
    hide IsTable;
    hide FreeSlot;
    hide GoodLevels;
    hide AllValid;
    hide WalOk;
    hide Agrees;
    LateWrite(db, c, key, v, env);
    WriteKeeps(db, c, model, key, v, env);
    InsertKeeps(db, c, model, key, v, env);
    var ins := Inserted(db, c, key, v);
    assert ins.mem == map[key := v];
    FlushedFile(ins, c, env);
    OneRecord(key, v);
  }

  lemma NamesApart(a: string, b: string)
    requires a != b
    ensures TableName(a) != TableName(b)
  {
    if TableName(a) == TableName(b) {
      assert "ss-table-entry_" + a + ".bin" == "ss-table-entry_" + (a + ".bin");
      assert "ss-table-entry_" + b + ".bin" == "ss-table-entry_" + (b + ".bin");
      DropSame("ss-table-entry_", a + ".bin", b + ".bin");
      DropSuffix(a, b, ".bin");
    }
  }

  /** A late write moves on what is on disk, but not what the reader has loaded. */
  lemma LateServe(s: Serving.Server, c: Config, model: Model, key: Bytes, v: Option<TableEntry>, env: Env)
    requires Inv(s.db, c, model) && s.db.mem == map[] && Plain(key, v, env) && env.now > s.db.flushBy
    requires FreeSlot(TopLevel(s.db.disk.levels), TableName(env.uuid), env.now)
    ensures Enabled(s.db, c, WriteOp(key, v, env))
    ensures var t := Serving.ServeStep(s, c, model, WriteOp(key, v, env));
            && t.db == Step(s.db, c, WriteOp(key, v, env))
            && t.loaded == s.loaded && t.onDisk == model[key := v] && t.base == s.base
  {
    hide Plain;
    hide TableWritten;
    hide WriteReady;
    hide GoodLevels;
    hide AllValid;
    hide WalOk;
    hide Agrees;
    hide GoodMem;
    hide FreeSlot;
    LateWrite(s.db, c, key, v, env);
  }

  /** Put and flush, reload, delete and flush: the last write is a delete, and `get` on the loaded
      level array still returns the encoding of the value. */
  lemma StaleDelete(c: Config, now: nat, key: Bytes, e: TableEntry, put: Env, delete: Env, filter: Option<set<Bytes>>)
    requires ValidConfig(c) && Plain(key, Some(e), put) && Plain(key, None, delete)
    requires Late(c, now + c.ramMaxTime, put, delete)
    ensures var ops := [WriteOp(key, Some(e), put)] + ([ReloadOp] + ([WriteOp(key, None, delete)] + []));
            && Runnable(EmptyStore(c, now), c, ops)
            && var s := Serving.Serve(Serving.Fresh(EmptyStore(c, now), map[]), c, map[], ops);
               && AllValid(s.loaded)
               && Service.GetSpec(s.db.mem, s.loaded, key, filter) ==
                    Service.GetResponse(Some(Codec.Encode(e)), map[])
               && Service.Meant(ModelRun(map[], ops), key, filter) == Service.NOTHING
  {
    hide Inv;
    hide Plain;
    hide WriteReady;
    hide IsTable;
    hide Contents;
    hide FlushBytes;
    hide TableName;
    hide IsBin;
    hide Codec.Encode;
    hide Service.GetSpec;
    hide AllValid;
    hide Enabled;
    hide Step;
    var (a, b, d) := (WriteOp(key, Some(e), put), ReloadOp, WriteOp(key, None, delete));
    var s0 := Serving.Fresh(EmptyStore(c, now), map[]);
    EmptyParts(c, now);
    EmptyInv(c, now);
    LateServe(s0, c, map[], key, Some(e), put);
    OneTable(s0.db, c, map[], key, Some(e), put);
    var s1 := Serving.ServeStep(s0, c, map[], a);
    ReloadIs(s1, c, map[key := Some(e)]);
    var s2 := Serving.ServeStep(s1, c, map[key := Some(e)], b);
    NamesApart(put.uuid, delete.uuid);
    LateServe(s2, c, map[key := Some(e)], key, None, delete);
    OneTable(s2.db, c, map[key := Some(e)], key, None, delete);
    var s3 := Serving.ServeStep(s2, c, map[key := Some(e)], d);
    var model := map[key := Some(e)][key := None];
    Serving.ServeNothing(s3, c, model);
    Serving.ServeCons(s2, c, map[key := Some(e)], d, []);
    Serving.ServeCons(s1, c, map[key := Some(e)], b, [d] + []);
    Serving.ServeCons(s0, c, map[], a, [b] + ([d] + []));
    Serving.EveryGetIff(c, now, [a] + ([b] + ([d] + [])), key, filter);
  }

  lemma ReloadIs(s: Serving.Server, c: Config, model: Model)
    ensures Enabled(s.db, c, ReloadOp) && Serving.ServeStep(s, c, model, ReloadOp) == Serving.Fresh(s.db, s.onDisk)
  {
  }

  /** Two writes of one key, the later one in `b`. */
  function Twice(key: Bytes, v: Option<TableEntry>, w: Option<TableEntry>, a: Env, b: Env): seq<Op> {
    [WriteOp(key, v, a), WriteOp(key, w, b)]
  }

  /** The two writes come late, one after the other, and flush under different names. */
  ghost predicate Late(c: Config, flushBy: nat, a: Env, b: Env) {
    a.now > flushBy && b.now > a.now + c.ramMaxTime && a.uuid != b.uuid
  }

  /** Level 1 after the two flushes. */
  ghost function TwoTables(c: Config, key: Bytes, v: Option<TableEntry>, w: Option<TableEntry>, a: Env, b: Env): Dir {
    map[TableName(a.uuid) := FileData(a.now, FlushBytes(map[key := v], c.pageSize, a.k)),
        TableName(b.uuid) := FileData(b.now, FlushBytes(map[key := w], c.pageSize, b.k))]
  }

  ghost predicate Holds(b: Bytes, key: Bytes, v: Option<TableEntry>) {
    IsTable(b) && Contents(b) == [RecordOf(key, v)]
  }

  lemma TwoFlushes(db: Db, c: Config, model: Model, key: Bytes, v: Option<TableEntry>, w: Option<TableEntry>, a: Env,
                   b: Env)
    requires Inv(db, c, model) && db.mem == map[] && TopLevel(db.disk.levels) == map[]
    requires Plain(key, v, a) && Plain(key, w, b) && Late(c, db.flushBy, a, b)
    ensures Runnable(db, c, Twice(key, v, w, a, b))
    ensures var after := Run(db, c, Twice(key, v, w, a, b));
            && Inv(after, c, model[key := w]) && after.mem == map[] && after.flushBy == b.now + c.ramMaxTime
            && after.disk.levels == [TwoTables(c, key, v, w, a, b)]
                                    + (if db.disk.levels == [] then [] else db.disk.levels[1..])
    ensures Holds(FlushBytes(map[key := v], c.pageSize, a.k), key, v)
    ensures Holds(FlushBytes(map[key := w], c.pageSize, b.k), key, w)
  {
    hide Inv;
    hide Plain;
    hide Enabled;
    hide Runs.Step;
    hide IsTable;
    hide Contents;
    hide FlushBytes;
    hide TableName;
    hide IsBin;
    hide ValueBytes;
    var (put, again) := (WriteOp(key, v, a), WriteOp(key, w, b));
    OneTable(db, c, model, key, v, a);
    var mid := Runs.Step(db, c, put);
    NamesApart(a.uuid, b.uuid);
    OneTable(mid, c, model[key := v], key, w, b);
    RunOne(db, c, model, put);
    RunOne(mid, c, model[key := v], again);
    RunConcat(db, c, model, [put], [again]);
    assert Twice(key, v, w, a, b) == [put] + [again];
    assert model[key := v][key := w] == model[key := w];
    assert TopLevel(Runs.Step(mid, c, again).disk.levels) == TwoTables(c, key, v, w, a, b);
  }

  lemma PlainFits(key: Bytes, v: Option<TableEntry>, env: Env)
    requires Plain(key, v, env)
    ensures Fits(RecordOf(key, v)) && |Records.Encode([RecordOf(key, v)])| == Size(key, v)
    ensures v.Some? ==> WellFormed(v.value)
  {
    hide EncodeRecord;
    EncodeOne(RecordOf(key, v));
    RecordOfGood(key, v);
  }

  lemma OneHolds(b: Bytes, key: Bytes, v: Option<TableEntry>)
    requires Holds(b, key, v) && Fits(RecordOf(key, v))
    ensures HoldsRecords(SSTableFile(b), [RecordOf(key, v)])
  {
    hide IsTable;
    hide Contents;
  }

  /** The files of the level, newest first. */
  function TwoNames(a: Env, b: Env): seq<string> {
    [TableName(b.uuid), TableName(a.uuid)]
  }

  lemma TwoWhole(c: Config, flushBy: nat, key: Bytes, v: Option<TableEntry>, w: Option<TableEntry>, a: Env, b: Env)
    requires Plain(key, v, a) && Plain(key, w, b) && Late(c, flushBy, a, b)
    requires Holds(FlushBytes(map[key := v], c.pageSize, a.k), key, v)
    requires Holds(FlushBytes(map[key := w], c.pageSize, b.k), key, w)
    ensures WholeLevel(TwoTables(c, key, v, w, a, b), TwoNames(a, b), Two(key, ValueBytes(w), ValueBytes(v)))
  {
    hide Holds;
    hide FlushBytes;
    hide TableName;
    hide IsBin;
    hide HoldsRecords;
    hide ValueBytes;
    hide Plain;
    var level := TwoTables(c, key, v, w, a, b);
    NamesApart(a.uuid, b.uuid);
    TableNameIsBin(a.uuid);
    TableNameIsBin(b.uuid);
    PlainFits(key, v, a);
    PlainFits(key, w, b);
    OneHolds(level[TableName(a.uuid)].bytes, key, v);
    OneHolds(level[TableName(b.uuid)].bytes, key, w);
  }

  lemma SmallTable(key: Bytes, v: Option<TableEntry>, env: Env)
    requires Plain(key, v, env)
    ensures SparseSize([RecordOf(key, v)], 2) < U32_LIMIT && |Records.Encode([RecordOf(key, v)])| < U64_LIMIT
  {
    hide ValueBytes;
    hide Records.Encode;
    hide CompactIndex;
    hide ValidIndex;
    hide EncodeMarks;
    var rs := [RecordOf(key, v)];
    PlainFits(key, v, env);
    CompactIndexValid(rs, Stride(2));
    IndexTakesAtMost(rs, CompactIndex(rs, Stride(2)));
  }

  /** The levels after level 1 was compacted into an empty level, or over its only table. */
  ghost function AfterCompaction(level: Dir, names: seq<string>, created: nat, bytes: Bytes): seq<Dir> {
    var out := OutName(0, 0, 0);
    [Lifecycle.Residue(level, SetOf(names), {out}), map[PromotedName(out) := FileData(created, bytes)]]
  }

  lemma CompactionPromotes(before: seq<Dir>, names: seq<string>, created: nat, bytes: Bytes)
    requires |names| == 2 && 0 < |before| <= 2
    requires |before| == 2 ==> forall n | n in before[1] :: n == PromotedName(OutName(0, 0, 0))
    ensures Promoted(before, AfterCompaction(before[0], names, created, bytes), 0, names, {OutName(0, 0, 0)}, created,
                     bytes)
  {
    hide OutName;
    hide PromotedName;
    hide Lifecycle.Residue;
    hide SetOf;
    assert Passes(2) == 1;
    assert FromUnit(OutName(0, 0, 0), 0, 1, 0);
    var (name, f) := (PromotedName(OutName(0, 0, 0)), FileData(created, bytes));
    assert DirAt(before, 1)[name := f] == map[name := f];
  }

  lemma NoResidue(level: Dir, names: seq<string>, made: set<string>)
    requires forall n | n in level :: n in names
    ensures Lifecycle.Residue(level, SetOf(names), made) == map[]
  {
  }

  /** Put a one-byte key, flush, delete it, flush, compact level 1: the key is deleted before the
      compaction and has its old value after it. */
  lemma DeletedKeyReturns(c: Config, now: nat, key: Bytes, e: TableEntry, put: Env, delete: Env, created: nat, k: nat)
    requires ValidConfig(c) && Late(c, now + c.ramMaxTime, put, delete) && 2 <= k <= 16
    requires |key| == 1 && Plain(key, Some(e), put) && Plain(key, None, delete)
    ensures var ops := Twice(key, Some(e), None, put, delete);
            && Runnable(EmptyStore(c, now), c, ops)
            && LastWrite(ModelRun(map[], ops), key) == Some(None)
            && var (db, names, xs) := (Run(EmptyStore(c, now), c, ops), TwoNames(put, delete),
                                       Two(key, TOMBSTONE, Codec.Encode(e)));
               && |db.disk.levels| == 1 && PromoteReady(db.disk.levels, 0, names, xs, created, k)
               && var bytes := CompactBytes(Overlay(xs), 2, k);
                  var after := AfterCompaction(db.disk.levels[0], names, created, bytes);
                  && Promoted(db.disk.levels, after, 0, names, {OutName(0, 0, 0)}, created, bytes)
                  && AllValid(db.disk.levels) && AllValid(after)
                  && Lookup(db.mem, db.disk.levels, key) == Some(None)
                  && Lookup(db.mem, after, key) == Some(Some(e))
  {
    hide Plain;
    hide Enabled;
    hide Runs.Step;
    hide Holds;
    hide FlushBytes;
    hide TwoTables;
    hide WholeLevel;
    hide SparseSize;
    hide Promoted;
    hide CompactBytes;
    hide AfterCompaction;
    hide DiskLookup;
    hide GoodLevels;
    hide GoodMem;
    hide WalOk;
    hide SizeOk;
    hide Codec.Encode;
    hide OutName;
    hide PromotedName;
    hide Overlay;
    hide DecodeValue;
    hide Records.Encode;
    var (start, ops) := (EmptyStore(c, now), Twice(key, Some(e), None, put, delete));
    var (names, xs) := (TwoNames(put, delete), Two(key, TOMBSTONE, Codec.Encode(e)));
    EmptyParts(c, now);
    EmptyInv(c, now);
    TwoFlushes(start, c, map[], key, Some(e), None, put, delete);
    var db := Run(start, c, ops);
    TwoWhole(c, start.flushBy, key, Some(e), None, put, delete);
    TombstoneDropped(key, Codec.Encode(e));
    SmallTable(key, Some(e), put);
    CompactionPromotes(db.disk.levels, names, created, CompactBytes(Overlay(xs), 2, k));
    TombstoneLookups(key, Codec.Encode(e));
    CompactionLookups(db.disk.levels,
                      AfterCompaction(db.disk.levels[0], names, created, CompactBytes(Overlay(xs), 2, k)),
                      0, names, xs, {OutName(0, 0, 0)}, created, k, key);
    assert db.disk.levels[..0] == [] && db.disk.levels[1..] == [];
    NoLevels(key);
    TombstoneMeans();
    PlainFits(key, Some(e), put);
    ValueRoundTrip(Some(e));
    ModelOfTwo(map[], key, Some(e), None, put, delete);
  }

  lemma ModelOfTwo(model: Model, key: Bytes, v: Option<TableEntry>, w: Option<TableEntry>, a: Env, b: Env)
    ensures ModelRun(model, Twice(key, v, w, a, b)) == model[key := w]
  {
    hide ModelRun;
    var (put, again) := (WriteOp(key, v, a), WriteOp(key, w, b));
    assert Twice(key, v, w, a, b) == [put] + ([again] + []);
    ModelCons(model, put, [again] + []);
    ModelCons(model[key := v], again, []);
    ModelNothing(model[key := w]);
    assert model[key := v][key := w] == model[key := w];
  }

  // ---- an overwritten table ----

  lemma TwoValues(key: Bytes, newer: Bytes, older: Bytes)
    requires |newer| > 1 && |older| > 1
    ensures Overlay(Two(key, newer, older)) == [Record(key, newer)]
  {
    var xs := Two(key, newer, older);
    var (l, r) := (xs[0], xs[1]);
    KeptOne(key, newer);
    KeptOne(key, older);
    hide Strip;
    MergeNothing(r);
    CmpLaws(key, key);
    assert xs[1..] == [r] && xs[1..][1..] == [];
    assert Overlay(xs[1..]) == Merge(Strip(r), Overlay([])) == r;
    assert MergeFrom(l, 1, r, 1) == [];
    assert Merge(l, r) == [Record(key, newer)];
  }

  lemma KeptOne(key: Bytes, b: Bytes)
    requires |b| > 1
    ensures Strip([Record(key, b)]) == [Record(key, b)] && Stripped([Record(key, b)])
  {
    var rs := [Record(key, b)];
    assert StripFrom(rs, 1) == [];
  }

  lemma OtherKey(key: Bytes, newer: Bytes, older: Bytes, x: Bytes)
    requires x != key
    ensures FirstKept(Two(key, newer, older), x) == None
  {
    hide FirstKept;
    var xs := Two(key, newer, older);
    ScanMisses(xs[0], 0, x);
    ScanMisses(xs[1], 0, x);
    TwoLookups(xs, x);
  }

  /** Compacting level 1 after a value was written twice. */
  ghost function CompactTwice(level: Dir, key: Bytes, e: TableEntry, a: Env, b: Env, created: nat, k: nat): Op {
    var (names, xs) := (TwoNames(a, b), Two(key, Codec.Encode(e), Codec.Encode(e)));
    CompactOp(0, names, xs, {OutName(0, 0, 0)}, created, k,
              AfterCompaction(level, names, created, CompactBytes(Overlay(xs), 2, k)))
  }

  /** Level 1 with the tables of a value written twice is ready to be compacted over any level 2 that
      has at most a table of the output's own name. */
  lemma TwiceReady(c: Config, flushBy: nat, key: Bytes, e: TableEntry, a: Env, b: Env, before: seq<Dir>, created: nat,
                   k: nat)
    requires Plain(key, Some(e), a) && Plain(key, Some(e), b) && Late(c, flushBy, a, b) && 2 <= k <= 16
    requires Holds(FlushBytes(map[key := Some(e)], c.pageSize, a.k), key, Some(e))
    requires Holds(FlushBytes(map[key := Some(e)], c.pageSize, b.k), key, Some(e))
    requires 0 < |before| <= 2 && before[0] == TwoTables(c, key, Some(e), Some(e), a, b)
    requires |before| == 2 ==> forall n | n in before[1] :: n == PromotedName(OutName(0, 0, 0))
    ensures var op := CompactTwice(before[0], key, e, a, b, created, k);
            && OverwriteReady(before, 0, op.names, op.xs, created, k)
            && (|before| == 1 ==> PromoteReady(before, 0, op.names, op.xs, created, k))
            && Promoted(before, op.after, 0, op.names, op.made, created, CompactBytes(Overlay(op.xs), 2, k))
            && Gentle(op) && TableLeft(2) == PromotedName(OutName(0, 0, 0))
            && op.after[0] == map[] && |op.after| == 2 && forall n | n in op.after[1] :: n == TableLeft(2)
  {
    hide Plain;
    hide Holds;
    hide FlushBytes;
    hide WholeLevel;
    hide SparseSize;
    hide Promoted;
    hide CompactBytes;
    hide Codec.Encode;
    hide OutName;
    hide PromotedName;
    hide Overlay;
    hide Records.Encode;
    hide TableName;
    hide Stripped;
    var op := CompactTwice(before[0], key, e, a, b, created, k);
    TwoWhole(c, flushBy, key, Some(e), Some(e), a, b);
    TwoValues(key, Codec.Encode(e), Codec.Encode(e));
    KeptOne(key, Codec.Encode(e));
    SmallTable(key, Some(e), b);
    CompactionPromotes(before, op.names, created, CompactBytes(Overlay(op.xs), 2, k));
    NoResidue(before[0], op.names, op.made);
    assert Passes(2) == 1;
  }

  /** A run from an empty store: write a value twice, each time flushed, and compact. */
  ghost function TwiceCompacted(c: Config, now: nat, x: Bytes, e: TableEntry, a: Env, b: Env, created: nat,
                                k: nat): seq<Op>
  {
    Twice(x, Some(e), Some(e), a, b)
    + [CompactTwice(TwoTables(c, x, Some(e), Some(e), a, b), x, e, a, b, created, k)]
  }

  lemma FirstHalf(c: Config, now: nat, x: Bytes, e: TableEntry, a: Env, b: Env, created: nat, k: nat)
    requires ValidConfig(c) && Late(c, now + c.ramMaxTime, a, b) && 2 <= k <= 16
    requires Plain(x, Some(e), a) && Plain(x, Some(e), b)
    ensures Runnable(EmptyStore(c, now), c, TwiceCompacted(c, now, x, e, a, b, created, k))
    ensures var db := Run(EmptyStore(c, now), c, TwiceCompacted(c, now, x, e, a, b, created, k));
            && Inv(db, c, map[x := Some(e)]) && db.mem == map[] && db.flushBy == b.now + c.ramMaxTime
            && |db.disk.levels| == 2 && db.disk.levels[0] == map[]
            && forall n | n in db.disk.levels[1] :: n == TableLeft(2)
    ensures ModelRun(map[], TwiceCompacted(c, now, x, e, a, b, created, k)) == map[x := Some(e)]
  {
    hide Inv;
    hide Plain;
    hide Holds;
    hide FlushBytes;
    hide TwoTables;
    hide PromoteReady;
    hide Promoted;
    hide OverwriteReady;
    hide CompactBytes;
    hide TableLeft;
    hide CompactTwice;
    hide WriteReady;
    hide CrashReady;
    hide Gentle;
    hide NothingReturns;
    var (start, ops) := (EmptyStore(c, now), Twice(x, Some(e), Some(e), a, b));
    EmptyParts(c, now);
    EmptyInv(c, now);
    TwoFlushes(start, c, map[], x, Some(e), Some(e), a, b);
    var db := Run(start, c, ops);
    var level := TwoTables(c, x, Some(e), Some(e), a, b);
    var op := CompactTwice(level, x, e, a, b, created, k);
    assert db.disk.levels == [level];
    TwiceReady(c, start.flushBy, x, e, a, b, [level], created, k);
    CompactTwiceIs(level, x, e, a, b, created, k);
    InvValid(db, c, map[x := Some(e)]);
    GentleReturnsNothing(db.disk.levels, op);
    assert Enabled(db, c, op);
    CompactKeeps(db, c, map[x := Some(e)], op);
    RunOne(db, c, map[x := Some(e)], op);
    RunConcat(start, c, map[], ops, [op]);
    ModelOfTwo(map[], x, Some(e), Some(e), a, b);
  }

  lemma CompactTwiceIs(level: Dir, key: Bytes, e: TableEntry, a: Env, b: Env, created: nat, k: nat)
    ensures var op := CompactTwice(level, key, e, a, b, created, k);
            op.CompactOp? && op.idx == 0 && |op.names| == 2 && op.created == created && op.k == k
  {
  }

  lemma InvValid(db: Db, c: Config, model: Model)
    requires Inv(db, c, model)
    ensures AllValid(db.disk.levels) && GoodLevels(db.disk.levels)
  {
  }

  /** Write x twice, compact; write y twice, compact again: the second output overwrites the first,
      and x is gone. */
  lemma OverwrittenKeyLost(c: Config, now: nat, x: Bytes, e: TableEntry, a: Env, b: Env, created: nat, k: nat,
                           y: Bytes, f: TableEntry, a2: Env, b2: Env, created2: nat)
    requires ValidConfig(c) && Late(c, now + c.ramMaxTime, a, b) && Late(c, b.now + c.ramMaxTime, a2, b2)
    requires 2 <= k <= 16
    requires Plain(x, Some(e), a) && Plain(x, Some(e), b) && Plain(y, Some(f), a2) && Plain(y, Some(f), b2) && x != y
    ensures var ops := TwiceCompacted(c, now, x, e, a, b, created, k) + Twice(y, Some(f), Some(f), a2, b2);
            && Runnable(EmptyStore(c, now), c, ops)
            && var db := Run(EmptyStore(c, now), c, ops);
               && |db.disk.levels| == 2 && AllValid(db.disk.levels)
               && Lookup(db.mem, db.disk.levels, x) == Some(Some(e)) == LastWrite(ModelRun(map[], ops), x)
               && var op := CompactTwice(db.disk.levels[0], y, f, a2, b2, created2, k);
                  && OverwriteReady(db.disk.levels, 0, op.names, op.xs, created2, k)
                  && Promoted(db.disk.levels, op.after, 0, op.names, op.made, created2,
                              CompactBytes(Overlay(op.xs), 2, k))
                  && AllValid(op.after) && Lookup(db.mem, op.after, x) == None
  {
    hide Plain;
    hide Holds;
    hide FlushBytes;
    hide TwoTables;
    hide OverwriteReady;
    hide Promoted;
    hide CompactBytes;
    hide TableLeft;
    hide Enabled;
    hide Runs.Step;
    hide Gentle;
    hide TwiceCompacted;
    hide Twice;
    hide Late;
    hide Lookup;
    hide AfterCompaction;
    hide Overlay;
    var (start, ops1, ops2) := (EmptyStore(c, now), TwiceCompacted(c, now, x, e, a, b, created, k),
                                Twice(y, Some(f), Some(f), a2, b2));
    FirstHalf(c, now, x, e, a, b, created, k);
    var (mid, model) := (Run(start, c, ops1), map[x := Some(e)]);
    hide Inv;
    TwoFlushes(mid, c, model, y, Some(f), Some(f), a2, b2);
    RunConcat(start, c, map[], ops1, ops2);
    ModelOfTwo(model, y, Some(f), Some(f), a2, b2);
    var db := Run(mid, c, ops2);
    InvValid(db, c, model[y := Some(f)]);
    LookupIs(db, c, model[y := Some(f)], x);
    assert db.disk.levels[1] == mid.disk.levels[1];
    NameLeft();
    TwiceReady(c, mid.flushBy, y, f, a2, b2, db.disk.levels, created2, k);
    LostAfter(db, c, model[y := Some(f)], y, f, a2, b2, created2, k, x);
  }

  lemma NameLeft()
    ensures TableLeft(2) == PromotedName(OutName(0, 0, 0))
  {
    assert Passes(2) == 1;
  }

  lemma LookupIs(db: Db, c: Config, model: Model, x: Bytes)
    requires Inv(db, c, model)
    ensures AllValid(db.disk.levels) && Lookup(db.mem, db.disk.levels, x) == LastWrite(model, x)
  {
    hide Lookup;
  }

  lemma LostAfter(db: Db, c: Config, model: Model, y: Bytes, f: TableEntry, a: Env, b: Env, created: nat, k: nat,
                  x: Bytes)
    requires |db.disk.levels| == 2 && db.mem == map[] && x != y && GoodLevels(db.disk.levels)
    requires forall n | n in db.disk.levels[1] :: n == TableLeft(2)
    requires var op := CompactTwice(db.disk.levels[0], y, f, a, b, created, k);
             && OverwriteReady(db.disk.levels, 0, op.names, op.xs, created, k)
             && Promoted(db.disk.levels, op.after, 0, op.names, op.made, created, CompactBytes(Overlay(op.xs), 2, k))
    ensures var op := CompactTwice(db.disk.levels[0], y, f, a, b, created, k);
            AllValid(op.after) && Lookup(db.mem, op.after, x) == None
  {
    hide OverwriteReady;
    hide PromoteReady;
    hide Promoted;
    hide CompactBytes;
    hide GoodLevels;
    hide AllValid;
    hide DiskLookup;
    hide Overlay;
    hide AfterCompaction;
    hide TableLeft;
    hide Codec.Encode;
    hide FirstKept;
    var levels := db.disk.levels;
    var op := CompactTwice(levels[0], y, f, a, b, created, k);
    var bare := Dropped(levels, 1, TableLeft(2));
    OverwriteIsDropFirst(levels, op.after, 0, op.names, op.xs, op.made, created, k, CompactBytes(Overlay(op.xs), 2, k));
    DropGood(levels, 1, TableLeft(2));
    CompactionLookups(bare, op.after, 0, op.names, op.xs, op.made, created, k, x);
    OtherKey(y, Codec.Encode(f), Codec.Encode(f), x);
    assert bare[..0] == [] && levels[1] - {TableLeft(2)} == map[];
    assert bare[1..] == [map[]];
    NoLevels(x);
    EmptyTop(x);
    NoneMeans();
  }
}
