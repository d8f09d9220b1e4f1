/** What a key looks up to across the memtable and the levels, and how that changes when a table is
    added on top or a whole level is compacted into the next one. */
module Lookups {
  import opened Wrappers
  import opened Bytes
  import opened Codec
  import opened Records
  import opened Merging
  import opened SSTable
  import opened Levels
  import opened LsmTree
  import opened Join
  import opened Storage
  import opened MemMap
  import opened Memtable
  import opened TableReader
  import opened Build

  // ---- what is on disk ----

  /** A record that a write left behind. */
  ghost predicate GoodRecord(r: Record) {
    && DecodeValue(r.value).Ok?
    && GoodWrite(r.key, DecodeValue(r.value).value)
    && r == RecordOf(r.key, DecodeValue(r.value).value)
  }

  ghost predicate GoodRecords(rs: seq<Record>) {
    forall i | 0 <= i < |rs| :: GoodRecord(rs[i])
  }

  ghost predicate GoodDir(d: Dir) {
    ValidDir(d) && forall n | n in d && IsBin(n) :: GoodRecords(Contents(d[n].bytes))
  }

  ghost predicate GoodLevels(levels: seq<Dir>) {
    forall i | 0 <= i < |levels| :: GoodDir(levels[i])
  }

  ghost predicate GoodMem(m: Mem) {
    forall k | k in m :: GoodWrite(k, m[k])
  }

  // ---- lookups ----

  /** What the stored bytes of a key mean: `None` is never written, `Some(None)` a tombstone. */
  ghost function Meaning(b: Option<Bytes>): Option<Option<TableEntry>> {
    if b.Some? && DecodeValue(b.value).Ok? then Some(DecodeValue(b.value).value) else None
  }

  ghost function DiskLookup(levels: seq<Dir>, key: Bytes): Option<Bytes>
    requires AllValid(levels)
  {
    TreeLookup(ViewsOf(levels), key)
  }

  /** The memtable first, then the levels. */
  ghost function Lookup(m: Mem, levels: seq<Dir>, key: Bytes): Option<Option<TableEntry>>
    requires AllValid(levels)
  {
    if key in m then Some(m[key]) else Meaning(DiskLookup(levels, key))
  }

  lemma LevelsValid(levels: seq<Dir>)
    requires GoodLevels(levels)
    ensures AllValid(levels)
  {
  }

  // ---- the flushed table ----

  lemma RecordOfGood(key: Bytes, v: Option<TableEntry>)
    requires GoodWrite(key, v)
    ensures GoodRecord(RecordOf(key, v)) && Fits(RecordOf(key, v))
  {
    ValueRoundTrip(v);
  }

  lemma FlushTableValid(m: Mem, pageSize: nat, k: nat)
    requires GoodMem(m) && 2 <= k <= 16 && Total(m) < U64_LIMIT
    requires FlushIndexFits(m, pageSize)
    ensures ValidTable(FlushTable(m, pageSize, k)) && GoodRecords(RecordsOf(m))
  {
    hide GoodRecord;
    hide ValueBytes;
    hide FlushIndex;
    var rs := RecordsOf(m);
    RecordsOfIs(m);
    TotalIsEncoded(m);
    FlushIndexValid(rs, pageSize * PAGE_PER_BLOCK);
    forall i | 0 <= i < |rs| ensures Fits(rs[i]) && GoodRecord(rs[i]) && |rs[i].key| <= 9996 {
      RecordOfGood(rs[i].key, m[rs[i].key]);
    }
  }

  /** The sparse index of the flushed table fits its u32 length field. */
  ghost predicate FlushIndexFits(m: Mem, pageSize: nat) {
    FlushIndexValid(RecordsOf(m), pageSize * PAGE_PER_BLOCK);
    |EncodeMarks(MarksOf(RecordsOf(m), FlushIndex(RecordsOf(m), pageSize * PAGE_PER_BLOCK)))| < U32_LIMIT
  }

  /** It always does when the records take less than 3 GiB. */
  lemma SmallIndexFits(m: Mem, pageSize: nat)
    requires 4 * Total(m) < 3 * U32_LIMIT
    ensures FlushIndexFits(m, pageSize)
  {
    hide ValueBytes;
    hide FlushIndex;
    hide ValidIndex;
    hide EncodeRecord;
    hide MarksOf;
    var rs := RecordsOf(m);
    var index := FlushIndex(rs, pageSize * PAGE_PER_BLOCK);
    FlushIndexValid(rs, pageSize * PAGE_PER_BLOCK);
    TotalIsEncoded(m);
    IndexTakesAtMost(rs, index);
  }

  lemma IndexTakesAtMost(rs: seq<Record>, index: seq<nat>)
    requires ValidIndex(index, |rs|) && forall i | 0 <= i < |rs| :: |rs[i].value| >= 1
    ensures 3 * |EncodeMarks(MarksOf(rs, index))| <= 4 * |Records.Encode(rs)|
  {
    hide Offset;
    MarksTake(rs, index, 0);
    assert index != [] ==> index[0] == 0;
    OffsetZero(rs);
  }

  lemma OffsetZero(rs: seq<Record>)
    ensures Offset(rs, 0) == 0
  {
  }

  /** So a write of less than 1 GiB never outgrows the index length field. */
  lemma WriteIndexFits(db: Db, c: Config, key: Bytes, v: Option<TableEntry>, env: Env)
    requires SizeOk(db) && ValidConfig(c) && 4 * Size(key, v) <= U32_LIMIT
    ensures FlushIndexFits(Inserted(db, c, key, v).mem, c.pageSize)
  {
    hide Size;
    hide Total;
    hide FlushIndexFits;
    TotalUpdate(db.mem, key, v);
    SmallIndexFits(db.mem[key := v], c.pageSize);
  }

  // ---- how much of a table a search reads ----

  /** A flushed table starts a new block only when one more record would go beyond four pages. */
  lemma FlushedBlocksFull(m: Mem, pageSize: nat, k: nat, i: nat)
    requires i + 1 < |FlushTable(m, pageSize, k).index|
    ensures var t := FlushTable(m, pageSize, k);
            t.index[i] < t.index[i + 1] < |t.records| && Span(t.records, t.index[i], t.index[i + 1] + 1) > 4 * pageSize
  {
    hide FlushBlocks;
    hide RecordsOf;
    hide Offset;
    var (rs, index) := (RecordsOf(m), FlushTable(m, pageSize, k).index);
    FlushBlocksBounded(rs, 4 * pageSize, |rs|);
    FlushBlocksAgree(rs, 4 * pageSize, |rs|);
    assert FlushBlockOk(index, rs, 4 * pageSize, |rs|, i);
    assert Earlier(index, i, i + 1);
  }

  /** A compacted table starts a new block only after 64 KiB for each level. */
  lemma CompactedBlocksFull(rs: seq<Record>, level: nat, k: nat, i: nat)
    requires level >= 1 && i + 1 < |CompactTable(rs, level, k).index|
    ensures var index := CompactTable(rs, level, k).index;
            index[i] < index[i + 1] <= |rs| && Span(rs, index[i], index[i + 1]) >= 65536 * level
  {
    hide CompactBlocks;
    hide Offset;
    var index := CompactTable(rs, level, k).index;
    var stride := 65536 * level;
    CompactBlocksBounded(rs, stride, |rs|);
    assert index == CompactBlocks(rs, stride, |rs|).index;
    assert CompactBlockOk(index, rs, stride, |rs|, i);
  }

  /** A search of a flushed table reads at most four pages, or one longer record, and one record more. */
  lemma FlushedTableReads(m: Mem, pageSize: nat, k: nat, created: nat, key: Bytes)
    requires ValidTable(FlushTable(m, pageSize, k)) && Inside(FlushTable(m, pageSize, k), key)
    ensures var t := FlushTable(m, pageSize, k);
            var r, j := ReaderOf(t, created), BlockFor(t, key);
            && 0 <= j < |t.index|
            && SearchSpec(r, key).stop - SearchStart(r, key)
               <= (if SizeAt(t.records, t.index[j]) > 4 * pageSize then SizeAt(t.records, t.index[j]) else 4 * pageSize)
                  + SizeAt(t.records, BlockEnd(t.index, |t.records|, j))
  {
    hide FlushIndex;
    hide ReaderOf;
    hide SearchSpec;
    hide SearchStart;
    hide ValidTable;
    hide BlockFor;
    FlushSearchReads(FlushTable(m, pageSize, k), 4 * pageSize, created, key);
  }

  /** A search of a compacted table on level `level` reads less than 64 KiB for each level and two
      records more. */
  lemma CompactedTableReads(rs: seq<Record>, level: nat, k: nat, created: nat, key: Bytes)
    requires ValidTable(CompactTable(rs, level, k)) && Inside(CompactTable(rs, level, k), key) && level >= 1
    ensures var t := CompactTable(rs, level, k);
            var r, j := ReaderOf(t, created), BlockFor(t, key);
            && 0 <= j < |t.index|
            && var end := BlockEnd(t.index, |t.records|, j);
               && end > 0
               && SearchSpec(r, key).stop - SearchStart(r, key)
                  < 65536 * level + SizeAt(t.records, end - 1) + SizeAt(t.records, end)
  {
    hide CompactIndex;
    hide ReaderOf;
    hide SearchSpec;
    hide SearchStart;
    hide ValidTable;
    hide BlockFor;
    CompactSearchReads(CompactTable(rs, level, k), 65536 * level, created, key);
  }

  // ---- adding a newest table ----

  /** A name and a birth time that a new table may take in a directory. */
  ghost predicate FreeSlot(d: Dir, name: string, created: nat) {
    name !in d && forall n | n in d && IsBin(n) :: d[n].created < created
  }

  lemma AddTableGood(d: Dir, name: string, f: FileData)
    requires GoodDir(d) && FreeSlot(d, name, f.created) && IsBin(name)
    requires IsTable(f.bytes) && GoodRecords(Contents(f.bytes))
    ensures GoodDir(d[name := f])
  {
    hide GoodRecords;
    hide IsTable;
    hide IsBin;
    hide Contents;
  }

  lemma AddTableView(d: Dir, name: string, f: FileData)
    requires ValidDir(d) && ValidDir(d[name := f]) && FreeSlot(d, name, f.created) && IsBin(name)
    ensures ViewOf(d[name := f]) == ViewOf(d)[f.created := Contents(f.bytes)]
    ensures forall c | c in ViewOf(d) :: c < f.created
  {
    hide IsTable;
    hide IsBin;
    hide Contents;
    hide ViewOf;
    var (v, e) := (ViewOf(d), d[name := f]);
    var w := ViewOf(e);
    forall c | c in v ensures c < f.created && c in w && w[c] == v[c] {
      var n := ViewFrom(d, c);
      ViewAt(e, n);
    }
    ViewAt(e, name);
    forall c | c in w ensures c == f.created || c in v {
      var n := ViewFrom(e, c);
      if n != name { ViewAt(d, n); }
    }
  }

  lemma EmptyDir()
    ensures GoodDir(map[]) && ViewOf(map[]) == map[]
    ensures forall key :: LevelLookup(map[], key) == None
  {
  }

  /** A tree is its top level over the rest. */
  lemma TreeCons(d: Dir, rest: seq<Dir>, key: Bytes)
    requires ValidDir(d) && AllValid(rest)
    ensures AllValid([d] + rest)
    ensures DiskLookup([d] + rest, key) ==
            if LevelLookup(ViewOf(d), key).Some? then LevelLookup(ViewOf(d), key) else DiskLookup(rest, key)
  {
    hide ValidDir;
    hide LevelLookup;
    hide ViewOf;
    var vs := ViewsOf([d] + rest);
    assert vs[0] == ViewOf(d) && vs[1..] == ViewsOf(rest);
  }

  lemma EmptyTop(key: Bytes)
    ensures var none: seq<Dir>, bare: seq<Dir> := [], [map[]];
            AllValid(none) && AllValid(bare) && DiskLookup(none, key) == DiskLookup(bare, key)
  {
    EmptyDir();
    TreeCons(map[], [], key);
    var none: seq<Dir>, bare: seq<Dir> := [], [map[]];
    assert bare + none == bare;
  }

  /** With a new table on top, the new table answers for its keys and the old levels for the rest. */
  lemma TopTable(d: Dir, rest: seq<Dir>, name: string, f: FileData, key: Bytes)
    requires GoodDir(d) && GoodLevels(rest) && FreeSlot(d, name, f.created) && IsBin(name)
    requires IsTable(f.bytes) && GoodRecords(Contents(f.bytes))
    ensures GoodLevels([d[name := f]] + rest) && AllValid([d[name := f]] + rest) && AllValid([d] + rest)
    ensures DiskLookup([d[name := f]] + rest, key) ==
            Override(Find(Contents(f.bytes), key), DiskLookup([d] + rest, key))
  {
    hide IsTable;
    hide Contents;
    hide GoodRecords;
    hide LevelLookup;
    hide ViewOf;
    hide DiskLookup;
    hide Find;
    AddTableGood(d, name, f);
    AddTableView(d, name, f);
    AddNewest(ViewOf(d), f.created, Contents(f.bytes), key);
    LevelsValid(rest);
    TreeCons(d, rest, key);
    TreeCons(d[name := f], rest, key);
  }

  // ---- flushing ----

  lemma TopGood(levels: seq<Dir>)
    requires GoodLevels(levels)
    ensures GoodDir(TopLevel(levels)) && (levels != [] ==> GoodLevels(levels[1..]))
  {
    hide GoodDir;
    EmptyDir();
  }

  lemma TableNameIsBin(uuid: string)
    ensures IsBin(TableName(uuid))
  {
    var n := TableName(uuid);
    assert n[|n| - 4..] == ".bin";
  }

  /** What a flush needs from outside: a fresh file name, a clock past every table of level 1, a
      probe count in the clamp's range; and that the sparse index fits its length field. */
  ghost predicate FlushReady(db: Db, c: Config, env: Env) {
    && FreeSlot(TopLevel(db.disk.levels), TableName(env.uuid), env.now)
    && 2 <= env.k <= 16
    && FlushIndexFits(db.mem, c.pageSize)
  }

  lemma FlushedFile(db: Db, c: Config, env: Env)
    requires GoodMem(db.mem) && FlushReady(db, c, env) && Total(db.mem) < U64_LIMIT
    ensures var bytes := FlushBytes(db.mem, c.pageSize, env.k);
            && IsTable(bytes) && Contents(bytes) == RecordsOf(db.mem) && GoodRecords(Contents(bytes))
            && TableWritten(db, c, env).levels ==
                 [TopLevel(db.disk.levels)[TableName(env.uuid) := FileData(env.now, bytes)]]
                 + (if db.disk.levels == [] then [] else db.disk.levels[1..])
  {
    hide GoodRecords;
    hide ValidTable;
    hide IsBin;
    FlushTableValid(db.mem, c.pageSize, env.k);
    ContentsOf(FlushTable(db.mem, c.pageSize, env.k));
    WriteNew(TopLevel(db.disk.levels), TableName(env.uuid), env.now, FlushBytes(db.mem, c.pageSize, env.k));
  }

  lemma WriteNew(d: Dir, name: string, now: nat, bytes: Bytes)
    requires name !in d
    ensures Storage.Write(Create(d, name, now), name, bytes) == d[name := FileData(now, bytes)]
  {
  }

  /** Writing the memtable out as a table changes no lookup, whether or not the memtable is still
      there. */
  lemma FlushKeepsLookups(db: Db, c: Config, env: Env, key: Bytes)
    requires GoodLevels(db.disk.levels) && GoodMem(db.mem) && FlushReady(db, c, env) && Total(db.mem) < U64_LIMIT
    ensures AllValid(db.disk.levels)
    ensures var levels := TableWritten(db, c, env).levels;
            && GoodLevels(levels) && AllValid(levels)
            && Lookup(db.mem, levels, key) == Lookup(db.mem, db.disk.levels, key)
            && Lookup(map[], levels, key) == Lookup(db.mem, db.disk.levels, key)
  {
    hide GoodRecords;
    hide GoodDir;
    hide DiskLookup;
    hide IsTable;
    hide Contents;
    hide FreeSlot;
    hide FlushBytes;
    hide TableWritten;
    hide DecodeValue;
    hide ValueBytes;
    var levels := db.disk.levels;
    var d := TopLevel(levels);
    var rest := if levels == [] then [] else levels[1..];
    var f := FileData(env.now, FlushBytes(db.mem, c.pageSize, env.k));
    FlushedFile(db, c, env);
    LevelsValid(levels);
    TopGood(levels);
    TableNameIsBin(env.uuid);
    TopTable(d, rest, TableName(env.uuid), f, key);
    EmptyTop(key);
    if levels == [] { assert [d] + rest == [map[]]; } else { assert [d] + rest == levels; }
    RecordsOfIs(db.mem);
    if key in db.mem { ValueRoundTrip(db.mem[key]); }
  }
}
