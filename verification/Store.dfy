/** The state of the store, what every reachable state satisfies, and that writes with the flushes
    they trigger and crashes between any two durable steps of a write keep it. */
module Store {
  import opened Wrappers
  import opened Bytes
  import opened Records
  import opened Levels
  import opened LsmTree
  import opened Storage
  import opened MemMap
  import opened Memtable
  import opened Lookups
  import Codec

  /** The specification: a plain map from key to last write. */
  type Model = Mem

  function LastWrite(model: Model, key: Bytes): Option<Option<Codec.TableEntry>> {
    if key in model then Some(model[key]) else None
  }

  /** Replaying the log gives the memtable. */
  ghost predicate WalOk(db: Db, c: Config) {
    c.walEnabled ==> exists ws :: LogOf(db, ws)
  }

  ghost predicate LogOf(db: Db, ws: seq<LoggedWrite>) {
    GoodLog(ws) && db.disk.wal == Encode(Logged(ws)) && Applied(ws, 0, map[]) == db.mem
  }

  ghost predicate Agrees(m: Mem, levels: seq<Dir>, model: Model)
    requires AllValid(levels)
  {
    forall key :: Lookup(m, levels, key) == LastWrite(model, key)
  }

  /** What every reachable state satisfies. */
  ghost predicate Inv(db: Db, c: Config, model: Model) {
    && ValidConfig(c) && SizeOk(db) && GoodMem(db.mem) && GoodLevels(db.disk.levels) && AllValid(db.disk.levels)
    && WalOk(db, c)
    && Agrees(db.mem, db.disk.levels, model)
  }

  // ---- writes ----

  /** What a write needs: a key and entry the formats carry, below 2^31 bytes; and, if it triggers
      the flush, what the flush needs. */
  ghost predicate WriteReady(db: Db, c: Config, key: Bytes, v: Option<Codec.TableEntry>, env: Env) {
    && SizeOk(db) && ValidConfig(c)
    && GoodWrite(key, v) && Size(key, v) < HALF
    && (ShouldFlush(Inserted(db, c, key, v), c, env) ==> FlushReady(Inserted(db, c, key, v), c, env))
  }

  /** Any write of at most 2^30 bytes may come at any time, when its table would be the newest of level 1
      under a free name. */
  lemma SmallWriteReady(db: Db, c: Config, key: Bytes, v: Option<Codec.TableEntry>, env: Env)
    requires SizeOk(db) && ValidConfig(c) && GoodWrite(key, v) && Size(key, v) <= 0x4000_0000 && 2 <= env.k <= 16
    requires FreeSlot(TopLevel(db.disk.levels), TableName(env.uuid), env.now)
    ensures WriteReady(db, c, key, v, env)
  {
    hide GoodWrite;
    hide Size;
    hide Total;
    hide FlushIndexFits;
    WriteIndexFits(db, c, key, v, env);
  }

  lemma InsertLog(db: Db, c: Config, key: Bytes, v: Option<Codec.TableEntry>)
    requires SizeOk(db) && WalOk(db, c) && GoodWrite(key, v)
    ensures WalOk(Inserted(db, c, key, v), c)
  {
    hide EncodeRecord;
    hide GoodWrite;
    hide Encode;
    hide Applied;
    hide Size;
    hide Total;
    if c.walEnabled {
      var ws :| LogOf(db, ws);
      var w := LoggedWrite(key, v);
      AppliedSnoc(ws, w, 0, map[]);
      assert Logged(ws + [w]) == Logged(ws) + [RecordOf(key, v)];
      EncodeSnoc(Logged(ws), RecordOf(key, v));
      assert LogOf(Inserted(db, c, key, v), ws + [w]);
    }
  }

  /** The state after the log append and the map insert satisfies the invariant for the new model,
      but for the size bound that the flush check restores. */
  lemma InsertKeeps(db: Db, c: Config, model: Model, key: Bytes, v: Option<Codec.TableEntry>, env: Env)
    requires Inv(db, c, model) && WriteReady(db, c, key, v, env)
    ensures var ins := Inserted(db, c, key, v);
            && GoodMem(ins.mem) && ins.disk.levels == db.disk.levels && WalOk(ins, c)
            && Total(ins.mem) < U64_LIMIT
            && Agrees(ins.mem, ins.disk.levels, model[key := v])
  {
    hide GoodWrite;
    hide Size;
    hide Total;
    hide DiskLookup;
    hide GoodLevels;
    hide FlushReady;
    SizeKept(db, c, key, v, env);
    InsertLog(db, c, key, v);
    hide WalOk;
    var ins := Inserted(db, c, key, v);
    forall k ensures Lookup(ins.mem, ins.disk.levels, k) == LastWrite(model[key := v], k) {
      assert Lookup(db.mem, db.disk.levels, k) == LastWrite(model, k);
    }
  }

  lemma FlushKeeps(db: Db, c: Config, model: Model, env: Env, m: Mem)
    requires GoodLevels(db.disk.levels) && AllValid(db.disk.levels) && GoodMem(db.mem)
    requires FlushReady(db, c, env) && Total(db.mem) < U64_LIMIT
    requires Agrees(db.mem, db.disk.levels, model) && (m == db.mem || m == map[])
    ensures var levels := TableWritten(db, c, env).levels;
            GoodLevels(levels) && AllValid(levels) && Agrees(m, levels, model)
  {
    hide GoodLevels;
    hide AllValid;
    hide TableWritten;
    hide Lookup;
    hide FlushReady;
    forall key
      ensures var levels := TableWritten(db, c, env).levels;
              GoodLevels(levels) && AllValid(levels) && Lookup(m, levels, key) == LastWrite(model, key)
    {
      FlushKeepsLookups(db, c, env, key);
      assert Lookup(db.mem, db.disk.levels, key) == LastWrite(model, key);
    }
    FlushKeepsLookups(db, c, env, []);
  }

  lemma EmptyLogOk(db: Db, c: Config)
    requires db.mem == map[] && db.disk.wal == []
    ensures WalOk(db, c)
  {
    assert Applied([], 0, map[]) == map[];
    assert Logged([]) == [];
    assert LogOf(db, []);
  }

  lemma WriteKeeps(db: Db, c: Config, model: Model, key: Bytes, v: Option<Codec.TableEntry>, env: Env)
    requires Inv(db, c, model) && WriteReady(db, c, key, v, env)
    ensures Inv(AfterWrite(db, c, key, v, env), c, model[key := v])
  {
    hide GoodLevels;
    hide AllValid;
    hide TableWritten;
    hide Agrees;
    hide GoodMem;
    hide FlushReady;
    hide WalOk;
    hide Inserted;
    hide Size;
    hide Total;
    SizeKept(db, c, key, v, env);
    InsertKeeps(db, c, model, key, v, env);
    var ins := Inserted(db, c, key, v);
    if ShouldFlush(ins, c, env) {
      FlushKeeps(ins, c, model[key := v], env, map[]);
      EmptyLogOk(Flushed(ins, c, env), c);
      NoEntries();
    }
  }

  lemma NoEntries()
    ensures GoodMem(map[])
  {
  }

  // ---- crashes ----

  /** The disk a crash leaves when `steps` durable steps of a write were done. */
  ghost function DiskAt(db: Db, c: Config, key: Bytes, v: Option<Codec.TableEntry>, env: Env, steps: nat): DiskState
    requires SizeOk(db)
    requires steps <= |WriteTrail(db, c, key, v, env)|
  {
    if steps == 0 then db.disk else WriteTrail(db, c, key, v, env)[steps - 1]
  }

  ghost predicate CrashReady(db: Db, c: Config, key: Bytes, v: Option<Codec.TableEntry>, env: Env, steps: nat) {
    && c.walEnabled && WriteReady(db, c, key, v, env)
    && steps <= |WriteTrail(db, c, key, v, env)|
    && |DiskAt(db, c, key, v, env, steps).wal| < HALF
  }

  /** Restarting on a disk whose log replays to `m`. */
  lemma RecoverIs(d: DiskState, c: Config, m: Mem, now: nat, ws: seq<LoggedWrite>)
    requires c.walEnabled && GoodLog(ws) && d.wal == Encode(Logged(ws)) && Applied(ws, 0, map[]) == m
    requires |d.wal| < HALF
    ensures var db := Recovered(d, c, now); db.mem == m && db.disk == d && SizeOk(db) && WalOk(db, c)
    ensures Replay(d.wal, map[]).status.Ok?
  {
    hide Replay;
    hide Total;
    hide GoodLog;
    hide Encode;
    ReplayIs(ws, map[]);
    LogCovers(ws);
    assert LogOf(Recovered(d, c, now), ws);
  }

  lemma RecoverKeeps(db: Db, c: Config, model: Model, d: DiskState, now: nat)
    requires ValidConfig(c) && c.walEnabled && GoodMem(db.mem) && WalOk(db, c)
    requires d.wal == db.disk.wal && |d.wal| < HALF
    requires GoodLevels(d.levels) && AllValid(d.levels) && Agrees(db.mem, d.levels, model)
    ensures Inv(Recovered(d, c, now), c, model) && Replay(d.wal, map[]).status.Ok?
  {
    hide GoodLevels;
    hide AllValid;
    hide Agrees;
    hide GoodMem;
    hide Recovered;
    hide GoodLog;
    hide Encode;
    hide Replay;
    var ws :| LogOf(db, ws);
    RecoverIs(d, c, db.mem, now, ws);
  }

  /** A crash after any number of durable steps, then a restart: replay succeeds, and every lookup
      is that of the state before the write if nothing reached the disk, and of the state after it
      otherwise. */
  lemma CrashKeeps(db: Db, c: Config, model: Model, key: Bytes, v: Option<Codec.TableEntry>, env: Env, steps: nat,
                   now: nat)
    requires Inv(db, c, model) && CrashReady(db, c, key, v, env, steps)
    ensures var d := DiskAt(db, c, key, v, env, steps);
            && Replay(d.wal, map[]).status.Ok?
            && Inv(Recovered(d, c, now), c, if steps == 0 then model else model[key := v])
  {
    hide GoodLevels;
    hide AllValid;
    hide TableWritten;
    hide Agrees;
    hide GoodMem;
    hide FlushReady;
    hide WalOk;
    hide Inserted;
    hide Size;
    hide Total;
    hide Recovered;
    hide Replay;
    if steps == 0 {
      RecoverKeeps(db, c, model, db.disk, now);
    } else {
      InsertKeeps(db, c, model, key, v, env);
      var ins := Inserted(db, c, key, v);
      var d := DiskAt(db, c, key, v, env, steps);
      TrailIs(db, c, key, v, env, steps);
      if steps == 1 {
        RecoverKeeps(ins, c, model[key := v], d, now);
      } else if steps == 2 {
        FlushKeeps(ins, c, model[key := v], env, ins.mem);
        RecoverKeeps(ins, c, model[key := v], d, now);
      } else {
        FlushKeeps(ins, c, model[key := v], env, map[]);
        var flushed := Flushed(ins, c, env);
        EmptyLogOk(flushed, c);
        NoEntries();
        RecoverKeeps(flushed, c, model[key := v], d, now);
      }
    }
  }

  lemma TrailIs(db: Db, c: Config, key: Bytes, v: Option<Codec.TableEntry>, env: Env, steps: nat)
    requires c.walEnabled && SizeOk(db) && 1 <= steps <= |WriteTrail(db, c, key, v, env)|
    ensures var (ins, d) := (Inserted(db, c, key, v), DiskAt(db, c, key, v, env, steps));
            && (steps == 1 ==> d == ins.disk)
            && (steps > 1 ==> ShouldFlush(ins, c, env))
            && (steps == 2 ==> d == TableWritten(ins, c, env) && d.wal == ins.disk.wal)
            && (steps > 2 ==> steps == 3 && d == Flushed(ins, c, env).disk)
  {
    hide FlushBytes;
    hide Size;
  }
}
