/** The memtable with its write-ahead log, its size counter and its flush to level 1. The class is
    the source's object; `Db` and the functions on it say what each operation does. */
module Memtable {
  import opened Wrappers
  import opened Bytes
  import opened Codec
  import opened Records
  import opened SSTable
  import opened Levels
  import opened Storage
  import opened MemMap
  import Build
  import Bloom

  /** The u32 of the size counter. */
  newtype Counter = x: int | 0 <= x < 0x1_0000_0000

  const HALF: nat := 0x8000_0000
  const PAGE_PER_BLOCK: nat := 4

  datatype Config = Config(ramMaxSize: nat, ramMaxTime: nat, walEnabled: bool, pageSize: nat)

  predicate ValidConfig(c: Config) {
    1024 <= c.ramMaxSize <= HALF && 10 <= c.ramMaxTime <= 10080 && c.pageSize > 0
  }

  /** From one KiB to two GiB and from ten seconds to 10080 of them, limits included. */
  lemma ConfigLimits(log: bool, page: nat)
    requires page > 0
    ensures ValidConfig(Config(1024, 10, log, page)) && ValidConfig(Config(2048 * 1024 * 1024, 10080, log, page))
    ensures !ValidConfig(Config(1023, 600, log, page)) && !ValidConfig(Config(2048 * 1024 * 1024 + 1, 600, log, page))
    ensures !ValidConfig(Config(1024, 9, log, page)) && !ValidConfig(Config(1024, 10081, log, page))
  {
  }

  /** What the outside world supplies to one operation: the clock reading, the UUID of the file a
      flush would create, and the probe count the filter formula would pick. */
  datatype Env = Env(now: nat, uuid: string, k: nat)

  datatype Db = Db(mem: Mem, size: nat, flushBy: nat, disk: DiskState)

  // ---- the size counter ----

  /** The counter never under-counts the live records, and stays below half the u32 range. */
  ghost predicate SizeOk(db: Db) {
    Total(db.mem) <= db.size < HALF
  }

  function OldSize(db: Db, key: Bytes): nat {
    if key in db.mem then Size(key, db.mem[key]) else 0
  }

  lemma SizeCovers(db: Db, key: Bytes)
    requires SizeOk(db)
    ensures OldSize(db, key) <= db.size
  {
    TotalUpdate(db.mem, key, None);
  }

  // ---- what the operations do ----

  function TableName(uuid: string): string {
    "ss-table-entry_" + uuid + ".bin"
  }

  function FlushTable(m: Mem, pageSize: nat, k: nat): Table {
    Table(RecordsOf(m), FlushIndex(RecordsOf(m), pageSize * PAGE_PER_BLOCK), k)
  }

  lemma FlushIndexValid(rs: seq<Record>, target: nat)
    ensures ValidIndex(FlushIndex(rs, target), |rs|)
  {
    FlushBlocksAgree(rs, target, |rs|);
  }

  ghost function FlushBytes(m: Mem, pageSize: nat, k: nat): Bytes {
    FlushIndexValid(RecordsOf(m), pageSize * PAGE_PER_BLOCK);
    Layout(FlushTable(m, pageSize, k))
  }

  /** After the log append, before the map changes. */
  function LogAppended(db: Db, c: Config, key: Bytes, v: Option<TableEntry>): DiskState {
    if c.walEnabled then db.disk.(wal := db.disk.wal + EncodeRecord(RecordOf(key, v))) else db.disk
  }

  function Inserted(db: Db, c: Config, key: Bytes, v: Option<TableEntry>): Db
    requires SizeOk(db)
  {
    SizeCovers(db, key);
    Db(db.mem[key := v], db.size - OldSize(db, key) + Size(key, v), db.flushBy, LogAppended(db, c, key, v))
  }

  function TopLevel(levels: seq<Dir>): Dir {
    if levels == [] then map[] else levels[0]
  }

  /** The levels once the flushed table's file is in place. */
  ghost function TableWritten(db: Db, c: Config, env: Env): DiskState {
    var name := TableName(env.uuid);
    var top := Storage.Write(Create(TopLevel(db.disk.levels), name, env.now), name,
                             FlushBytes(db.mem, c.pageSize, env.k));
    db.disk.(levels := [top] + (if db.disk.levels == [] then [] else db.disk.levels[1..]))
  }

  ghost function Flushed(db: Db, c: Config, env: Env): Db {
    Db(map[], 0, env.now + c.ramMaxTime, TableWritten(db, c, env).(wal := []))
  }

  predicate ShouldFlush(db: Db, c: Config, env: Env) {
    db.size >= c.ramMaxSize || env.now > db.flushBy
  }

  ghost function AfterWrite(db: Db, c: Config, key: Bytes, v: Option<TableEntry>, env: Env): Db
    requires SizeOk(db)
  {
    var ins := Inserted(db, c, key, v);
    if ShouldFlush(ins, c, env) then Flushed(ins, c, env) else ins
  }

  /** The disk after every durable step of a write, in order. */
  ghost function WriteTrail(db: Db, c: Config, key: Bytes, v: Option<TableEntry>, env: Env): seq<DiskState>
    requires SizeOk(db)
  {
    var ins := Inserted(db, c, key, v);
    (if c.walEnabled then [ins.disk] else [])
    + (if ShouldFlush(ins, c, env) then FlushTrail(ins, c, env) else [])
  }

  ghost function FlushTrail(db: Db, c: Config, env: Env): seq<DiskState> {
    [TableWritten(db, c, env), Flushed(db, c, env).disk]
  }

  /** What restarting on a disk gives: the log replayed into an empty map. */
  function Recovered(d: DiskState, c: Config, now: nat): Db {
    var r := if c.walEnabled then Replay(d.wal, map[]) else Replayed(map[], Ok(()));
    Db(r.mem, if c.walEnabled && r.status.Ok? then |d.wal| % U32_LIMIT else 0, now + c.ramMaxTime, d)
  }

  /** With an entry below 2^31 bytes and a valid configuration the counter arithmetic neither
      underflows nor overflows, and a flush never divides by zero. */
  lemma SizeKept(db: Db, c: Config, key: Bytes, v: Option<TableEntry>, env: Env)
    requires SizeOk(db) && ValidConfig(c) && Size(key, v) < HALF
    ensures OldSize(db, key) <= db.size
    ensures db.size - OldSize(db, key) + Size(key, v) < U32_LIMIT
    ensures var ins := Inserted(db, c, key, v);
            ins.size > 0 && ins.mem != map[] && Total(ins.mem) <= ins.size
    ensures SizeOk(AfterWrite(db, c, key, v, env))
    ensures var (ins, after) := (Inserted(db, c, key, v), AfterWrite(db, c, key, v, env));
            after.size - Total(after.mem) == if ShouldFlush(ins, c, env) then 0 else db.size - Total(db.mem)
  {
    hide Size;
    hide Total;
    hide TableWritten;
    TotalUpdate(db.mem, key, v);
    SizePositive(key, v);
    TotalEmpty();
  }

  /** What one write does, by the configured limits: reaching the size limit or passing the deadline
      empties the memory into a table and clears the log, anything else just adds the entry. */
  ghost predicate WroteWithin(db: Db, after: Db, c: Config, key: Bytes, v: Option<TableEntry>, env: Env) {
    var inserted := db.size - (if key in db.mem then Size(key, db.mem[key]) else 0) + Size(key, v);
    && after.size < c.ramMaxSize
    && (inserted >= c.ramMaxSize || env.now > db.flushBy ==>
          && after.mem == map[] && after.size == 0 && after.flushBy == env.now + c.ramMaxTime
          && after.disk.wal == [] && |after.disk.levels| > 0 && TableName(env.uuid) in after.disk.levels[0]
          && after.disk.levels[0][TableName(env.uuid)].bytes == FlushBytes(db.mem[key := v], c.pageSize, env.k))
    && (inserted < c.ramMaxSize && env.now <= db.flushBy ==>
          && after.mem == db.mem[key := v] && after.size == inserted && after.flushBy == db.flushBy
          && after.disk.levels == db.disk.levels
          && after.disk.wal == db.disk.wal + if c.walEnabled then EncodeRecord(RecordOf(key, v)) else [])
  }

  lemma WritesWithin(db: Db, c: Config, key: Bytes, v: Option<TableEntry>, env: Env)
    requires SizeOk(db) && ValidConfig(c)
    ensures WroteWithin(db, AfterWrite(db, c, key, v, env), c, key, v, env)
  {
    hide Size;
    hide FlushBytes;
    hide EncodeRecord;
    hide RecordOf;
    hide TableName;
    SizeCovers(db, key);
    assert db.disk.wal + [] == db.disk.wal;
  }

  lemma TotalEmpty()
    ensures Total(map[]) == 0
  {
  }

  // ---- building the table ----

  /** The builder's running state after `n` records. */
  ghost predicate FlushInv(rs: seq<Record>, target: nat, n: nat, data: Bytes, marks: seq<Mark>, block: nat,
                           maxKey: Bytes)
    requires n <= |rs|
  {
    && data == Records.Encode(rs[..n])
    && ValidIndex(FlushBlocks(rs, target, n).index, n)
    && marks == MarksOf(rs, FlushBlocks(rs, target, n).index)
    && block == FlushBlocks(rs, target, n).bytes
    && maxKey == MaxKey(rs[..n])
  }

  lemma FlushStart(rs: seq<Record>, target: nat)
    ensures FlushInv(rs, target, 0, [], [], 0, [])
  {
    assert rs[..0] == [];
    assert MarksOf(rs, []) == [];
  }

  lemma PrefixLength(rs: seq<Record>, n: nat)
    requires n <= |rs|
    ensures |Records.Encode(rs[..n])| == Offset(rs, n)
  {
    assert rs == rs[..n] + rs[n..];
    OffsetOfPrefix(rs[..n], rs[n..], n);
    OffsetSplits(rs[..n], n);
  }

  lemma FlushStep(rs: seq<Record>, target: nat, n: nat, data: Bytes, marks: seq<Mark>, block: nat, maxKey: Bytes)
    requires n < |rs| && FlushInv(rs, target, n, data, marks, block, maxKey)
    ensures var size := |EncodeRecord(rs[n])|;
            var opens := block == 0 || block + size > target;
            FlushInv(rs, target, n + 1, data + EncodeRecord(rs[n]),
                     if opens then marks + [Mark(|data|, rs[n].key)] else marks,
                     if opens then size else block + size, rs[n].key)
  {
    hide EncodeRecord;
    hide Records.Encode;
    PrefixLength(rs, n);
    assert rs[..n + 1] == rs[..n] + [rs[n]];
    EncodeSnoc(rs[..n], rs[n]);
    FlushBlocksAgree(rs, target, n + 1);
    var b := FlushBlocks(rs, target, n);
    if block == 0 || block + |EncodeRecord(rs[n])| > target {
      assert MarksOf(rs, b.index + [n]) == marks + [MarkOf(rs, n)];
    }
  }

  lemma FlushDone(rs: seq<Record>, target: nat, data: Bytes, marks: seq<Mark>, block: nat, maxKey: Bytes)
    requires FlushInv(rs, target, |rs|, data, marks, block, maxKey)
    ensures ValidIndex(FlushIndex(rs, target), |rs|)
    ensures data == Records.Encode(rs) && marks == MarksOf(rs, FlushIndex(rs, target)) && maxKey == MaxKey(rs)
  {
    assert rs[..|rs|] == rs;
  }

  lemma KeysOfRecords(m: Mem)
    ensures KeysOf(RecordsOf(m)) == SortedKeys(m.Keys)
  {
  }

  lemma SpliceAt(crc: Bytes, filter: Bytes, size: Bytes, marks: Bytes, enc: Bytes, data: Bytes, footer: Bytes)
    requires |crc| == HEADER_SIZE
    ensures var b := crc + filter;
            b[..HEADER_SIZE] + size + b[HEADER_SIZE..] + marks + enc + data + footer
            == crc + (size + (filter + (marks + (enc + (data + footer)))))
  {
    var b := crc + filter;
    assert b[..HEADER_SIZE] == crc && b[HEADER_SIZE..] == filter;
    Build.Nest(crc, size, filter, marks, enc, data, footer);
  }

  /** What the builder writes after the last record is the table's file. */
  lemma FlushAssembles(m: Mem, pageSize: nat, k: nat, data: Bytes, marks: seq<Mark>, block: nat, maxKey: Bytes,
                       enc: Bytes,
                         footer: Bytes)
    requires FlushInv(RecordsOf(m), pageSize * PAGE_PER_BLOCK, |RecordsOf(m)|, data, marks, block, maxKey)
    requires enc == EncodeMarks(marks) && footer == U32(|maxKey|) + maxKey
    ensures var b := HeaderCrc() + Bloom.Block(k, SortedKeys(m.Keys));
            b[..HEADER_SIZE] + U64(|footer|) + b[HEADER_SIZE..] + U32(|enc|) + enc + data + footer
            == FlushBytes(m, pageSize, k)
  {
    hide FlushInv;
    hide HeaderCrc;
    hide Bloom.Block;
    hide Records.Encode;
    hide MarksOf;
    hide EncodeMarks;
    hide RecordsOf;
    hide SortedKeys;
    KeysOfRecords(m);
    FlushDone(RecordsOf(m), pageSize * PAGE_PER_BLOCK, data, marks, block, maxKey);
    SpliceAt(HeaderCrc(), Bloom.Block(k, SortedKeys(m.Keys)), U64(|Footer(maxKey)|), U32(|enc|), enc, data,
             Footer(maxKey));
  }

  /** One pass over the sorted map; the footer size is spliced in behind the CRC at the end. */
  method BuildFlush(m: Mem, pageSize: nat, k: nat) returns (buffer: Bytes)
    ensures buffer == FlushBytes(m, pageSize, k)
  {
    hide EncodeRecord;
    hide FlushInv;
    hide HeaderCrc;
    hide Bloom.Block;
    hide RecordsOf;
    hide SortedKeys;
    hide FlushBytes;
    hide U32;
    hide U64;
    hide EncodeMarks;
    hide Footer;
    hide Prefixed;
    hide RecordOf;
    hide PAGE_PER_BLOCK;
    var keys := SortedKeys(m.Keys);
    ghost var rs := RecordsOf(m);
    KeysOfRecords(m);
    var crc := HeaderCrc();
    var filter := Bloom.GenerateFilter(k, keys);
    buffer := crc + filter;
    var target := pageSize * PAGE_PER_BLOCK;
    var data: Bytes, marks: seq<Mark>, maxKey: Bytes, block: nat := [], [], [], 0;
    FlushStart(rs, target);
    for n := 0 to |keys|
      invariant FlushInv(rs, target, n, data, marks, block, maxKey)
    {
      FlushStep(rs, target, n, data, marks, block, maxKey);
      RecordKey(m, n);
      var key := keys[n];
      if block == 0 { marks := marks + [Mark(|data|, key)]; }
      var entry := ToWalEntry(key, m[key]);
      if block > 0 && block + |entry| > target {
        marks := marks + [Mark(|data|, key)];
        block := 0;
      }
      data := data + entry;
      block := block + |entry|;
      maxKey := key;
    }
    var footer := U32(|maxKey|);
    footer := footer + maxKey;
    var enc := Build.SerializeMarks(marks);
    FlushAssembles(m, pageSize, k, data, marks, block, maxKey, enc, footer);
    buffer := buffer[..HEADER_SIZE] + U64(|footer|) + buffer[HEADER_SIZE..];
    buffer := buffer + U32(|enc|);
    buffer := buffer + enc;
    buffer := buffer + data;
    buffer := buffer + footer;
  }

  lemma RecordKey(m: Mem, n: nat)
    requires n < |m|
    ensures |SortedKeys(m.Keys)| == |m| && SortedKeys(m.Keys)[n] in m
    ensures RecordsOf(m)[n] == RecordOf(SortedKeys(m.Keys)[n], m[SortedKeys(m.Keys)[n]])
  {
  }

  // ---- the class ----

  /** The table is written into level 1, which is made if it is missing. */
  lemma WrittenLevels(db: Db, c: Config, env: Env)
    ensures var levels := if |db.disk.levels| == 0 then db.disk.levels + [map[]] else db.disk.levels;
            var (name, bytes) := (TableName(env.uuid), FlushBytes(db.mem, c.pageSize, env.k));
            TableWritten(db, c, env) ==
              db.disk.(levels := levels[0 := Storage.Write(Create(levels[0], name, env.now), name, bytes)])
  {
    hide FlushBytes;
    hide TableName;
    hide Storage.Write;
  }

  datatype MemtableError = WriteAheadLog(error: ReplayError) | FlushErr | MissingKey

  class Memtable {
    const disk: Disk
    const config: Config
    var inMemory: Mem
    var currentSizeBytes: Counter
    var flushBy: nat
    /** The disk after every durable step so far. */
    ghost var trail: seq<DiskState>

    ghost function State(): Db
      reads this, disk
    {
      Db(inMemory, currentSizeBytes as nat, flushBy, disk.State())
    }

    ghost predicate Valid()
      reads this, disk
    {
      ValidConfig(config) && SizeOk(State())
    }

    constructor (disk: Disk, config: Config, now: nat)
      requires ValidConfig(config)
      ensures this.disk == disk && this.config == config && trail == [] && Valid()
      ensures State() == Db(map[], 0, now + config.ramMaxTime, disk.State())
    {
      this.disk, this.config := disk, config;
      inMemory, currentSizeBytes, flushBy, trail := map[], 0, now + config.ramMaxTime, [];
      new;
      TotalEmpty();
    }

    /** Start on an existing disk: drain the log, replay it when the log is enabled. */
    static method Start(disk: Disk, config: Config, now: nat) returns (r: Result<Memtable, MemtableError>)
      requires ValidConfig(config)
      ensures var end := if config.walEnabled then Replay(disk.wal, map[]).status else Ok(());
              && (r.Ok? <==> end.Ok?)
              && (end.Err? ==> r == Err(WriteAheadLog(end.error)))
              && (end.Ok? ==> fresh(r.value) && r.value.disk == disk && r.value.config == config && r.value.trail == []
                              && r.value.State() == Recovered(disk.State(), config, now)
                              && r.value.flushBy == now + config.ramMaxTime
                              && (!config.walEnabled ==> r.value.inMemory == map[] && r.value.currentSizeBytes == 0))
    {
      var wal := disk.wal;
      var m := new Memtable(disk, config, now);
      if config.walEnabled {
        var done := m.RebuildMemtable(wal);
        if done.Err? { return Err(done.error); }
      }
      return Ok(m);
    }

    method RebuildMemtable(log: Bytes) returns (r: Result<(), MemtableError>)
      modifies this`inMemory, this`currentSizeBytes
      ensures var end := Replay(log, old(inMemory));
              && inMemory == end.mem
              && (end.status.Ok? ==> r == Ok(()))
              && (end.status.Err? ==> r == Err(WriteAheadLog(end.status.error)))
              && currentSizeBytes as nat ==
                   if end.status.Ok? && log != [] then |log| % U32_LIMIT else old(currentSizeBytes) as nat
    {
      hide DecodeValue;
      if |log| == 0 { return Ok(()); }
      if |log| < 4 { return Err(WriteAheadLog(EmptyWal)); }
      var idx := 0;
      while idx < |log|
        invariant 0 <= idx <= |log|
        invariant ReplayFrom(log, idx, inMemory) == ReplayFrom(log, 0, old(inMemory))
        invariant currentSizeBytes == old(currentSizeBytes)
      {
        if idx + 4 > |log| { return Err(WriteAheadLog(SlicePanic)); }
        var keyLen := FromLe(log[idx..idx + 4]);
        if keyLen == 0 { return Err(WriteAheadLog(ZeroKeyLength)); }
        idx := idx + 4;
        if idx + keyLen >= |log| { return Err(WriteAheadLog(KeyTooLong)); }
        var key := log[idx..idx + keyLen];
        idx := idx + keyLen;
        if idx + 4 >= |log| { return Err(WriteAheadLog(NoValueLength)); }
        var valueLen := FromLe(log[idx..idx + 4]);
        idx := idx + 4;
        if idx + valueLen > |log| { return Err(WriteAheadLog(ValueTooLong)); }
        var raw := log[idx..idx + valueLen];
        idx := idx + valueLen;
        var value := DecodeRaw(raw);
        if value.Err? { return Err(WriteAheadLog(BadValue(value.error))); }
        inMemory := inMemory[key := value.value];
      }
      currentSizeBytes := (|log| % U32_LIMIT) as Counter;
      return Ok(());
    }

    static method DecodeRaw(raw: Bytes) returns (v: Result<Option<TableEntry>, DecodeError>)
      ensures v == DecodeValue(raw)
    {
      if raw == TOMBSTONE { return Ok(None); }
      var e := Deserialize(raw);
      if e.Err? { return Err(e.error); }
      return Ok(Some(e.value));
    }

    method ExistingEntrySize(key: Bytes) returns (size: Option<nat>)
      ensures size == if key in inMemory then Some(Size(key, inMemory[key])) else None
    {
      if key !in inMemory { return None; }
      var buffer := ToWalEntry(key, inMemory[key]);
      return Some(|buffer|);
    }

    method Get(key: Bytes) returns (r: Result<Option<TableEntry>, MemtableError>)
      ensures r == if key in inMemory then Ok(inMemory[key]) else Err(MissingKey)
    {
      if key !in inMemory { return Err(MissingKey); }
      return Ok(inMemory[key]);
    }

    /** Log, count, insert, and flush if it is time. */
    method Put(key: Bytes, value: TableEntry, env: Env) returns (r: Result<(), MemtableError>)
      requires Valid() && Size(key, Some(value)) < HALF
      modifies this, disk
      ensures Valid() && r == Ok(())
      ensures State() == AfterWrite(old(State()), config, key, Some(value), env)
      ensures WroteWithin(old(State()), State(), config, key, Some(value), env)
      ensures trail == old(trail) + WriteTrail(old(State()), config, key, Some(value), env)
    {
      r := Write(key, Some(value), env);
    }

    method Delete(key: Bytes, env: Env) returns (r: Result<(), MemtableError>)
      requires Valid() && Size(key, None) < HALF
      modifies this, disk
      ensures Valid() && r == Ok(())
      ensures State() == AfterWrite(old(State()), config, key, None, env)
      ensures WroteWithin(old(State()), State(), config, key, None, env)
      ensures trail == old(trail) + WriteTrail(old(State()), config, key, None, env)
    {
      r := Write(key, None, env);
    }

    method Write(key: Bytes, v: Option<TableEntry>, env: Env) returns (r: Result<(), MemtableError>)
      requires Valid() && Size(key, v) < HALF
      modifies this, disk
      ensures Valid() && r == Ok(())
      ensures State() == AfterWrite(old(State()), config, key, v, env)
      ensures WroteWithin(old(State()), State(), config, key, v, env)
      ensures trail == old(trail) + WriteTrail(old(State()), config, key, v, env)
    {
      hide Size;
      hide Total;
      hide TableWritten;
      hide Inserted;
      hide WroteWithin;
      SizeKept(State(), config, key, v, env);
      WritesWithin(State(), config, key, v, env);
      Insert(key, v);
      r := ManageFlush(env);
    }

    /** Log append, size accounting, map insert. */
    method Insert(key: Bytes, v: Option<TableEntry>)
      requires Valid() && Size(key, v) < HALF
      modifies this, disk
      ensures State() == Inserted(old(State()), config, key, v)
      ensures trail == old(trail) + if config.walEnabled then [disk.State()] else []
    {
      hide Total;
      SizeCovers(State(), key);
      var existing := ExistingEntrySize(key);
      hide Size;
      var entry := ToWalEntry(key, v);
      if config.walEnabled {
        disk.AppendWal(entry);
        trail := trail + [disk.State()];
      }
      Account(existing, |entry|);
      inMemory := inMemory[key := v];
    }

    /** The counter moves by the difference of the sizes, in u32 arithmetic. */
    method Account(existing: Option<nat>, size: nat)
      requires size < HALF && currentSizeBytes as nat < HALF
      requires existing.Some? ==> existing.value <= currentSizeBytes as nat
      modifies this`currentSizeBytes
      ensures currentSizeBytes as int ==
                old(currentSizeBytes) as int - (if existing.Some? then existing.value else 0) + size
    {
      var newSize := size as Counter;
      match existing {
        case Some(n) =>
          var oldSize := n as Counter;
          if newSize > oldSize {
            currentSizeBytes := currentSizeBytes + (newSize - oldSize);
          } else {
            currentSizeBytes := currentSizeBytes - (oldSize - newSize);
          }
        case None =>
          currentSizeBytes := currentSizeBytes + newSize;
      }
    }

    method ManageFlush(env: Env) returns (r: Result<(), MemtableError>)
      requires ValidConfig(config) && inMemory != map[] && currentSizeBytes > 0
      modifies this, disk
      ensures r == Ok(())
      ensures State() ==
              if ShouldFlush(old(State()), config, env) then Flushed(old(State()), config, env) else old(State())
      ensures trail == old(trail) +
              if ShouldFlush(old(State()), config, env) then FlushTrail(old(State()), config, env) else []
      ensures old(currentSizeBytes) as nat >= config.ramMaxSize || env.now > old(flushBy) ==>
                inMemory == map[] && currentSizeBytes == 0 && disk.wal == []
      ensures old(currentSizeBytes) as nat < config.ramMaxSize && env.now <= old(flushBy) ==>
                State() == old(State()) && trail == old(trail)
    {
      hide TableWritten;
      if currentSizeBytes as nat >= config.ramMaxSize || env.now > flushBy {
        r := Flush(env);
      } else {
        r := Ok(());
      }
    }

    /** Write the table file, clear the log, reset the memory. The page size is divided by the
        counter on the way, so the counter must not be zero. */
    method Flush(env: Env) returns (r: Result<(), MemtableError>)
      requires ValidConfig(config) && (inMemory != map[] ==> currentSizeBytes > 0)
      modifies this, disk
      ensures old(inMemory) == map[] ==> r == Err(FlushErr) && State() == old(State()) && trail == old(trail)
      ensures old(inMemory) != map[] ==>
                && r == Ok(())
                && State() == Flushed(old(State()), config, env)
                && trail == old(trail) + FlushTrail(old(State()), config, env)
    {
      hide FlushBytes;
      hide Total;
      hide Size;
      hide Storage.Write;
      hide TableWritten;
      hide TableName;
      if inMemory == map[] { return Err(FlushErr); }
      ghost var before := State();
      WrittenLevels(before, config, env);
      disk.EnsureLevel(0);
      var name := TableName(env.uuid);
      var ratio := config.pageSize / (currentSizeBytes as nat);
      var buffer := BuildFlush(inMemory, config.pageSize, env.k);
      var top := Storage.Write(Create(disk.levels[0], name, env.now), name, buffer);
      disk.SetDir(0, top);
      assert disk.State() == TableWritten(before, config, env);
      trail := trail + [disk.State()];
      disk.ClearWal();
      trail := trail + [disk.State()];
      flushBy := env.now + config.ramMaxTime;
      currentSizeBytes := 0;
      inMemory := map[];
      return Ok(());
    }
  }
}
