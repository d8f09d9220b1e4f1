/** Reads between reloads. The level array is read at a start, at a restart and when a pass of the
    coordinator announces its end; a flush or a merge does not refresh it. Which reads are right
    nevertheless, and what `get` answers, in every run. */
module Serving {
  import opened Wrappers
  import opened Bytes
  import opened Codec
  import opened Levels
  import opened LsmTree
  import opened MemMap
  import opened Memtable
  import opened Lookups
  import opened Preservation
  import opened Store
  import opened Runs
  import opened Service
  import Promotion

  /** The store, the levels the reader was last loaded from, and what happened since: `flushed` are
      the keys of all memtables flushed after that load, `onDisk` the last writes as they were when a
      table was last written, and `base` that same map as it was at the load. */
  datatype Server = Server(db: Db, loaded: seq<Dir>, flushed: set<Bytes>, onDisk: Model, base: Model)

  function Fresh(db: Db, onDisk: Model): Server {
    Server(db, db.disk.levels, {}, onDisk, onDisk)
  }

  ghost function ServeStep(s: Server, c: Config, model: Model, op: Op): Server
    requires Enabled(s.db, c, op)
  {
    var db := Step(s.db, c, op);
    match op
    case WriteOp(key, v, env) =>
      var ins := Inserted(s.db, c, key, v);
      if ShouldFlush(ins, c, env)
      then Server(db, s.loaded, s.flushed + ins.mem.Keys, model[key := v], s.base)
      else Server(db, s.loaded, s.flushed, s.onDisk, s.base)
    case CrashOp(key, v, _, steps, _) => Fresh(db, if steps >= 2 then model[key := v] else s.onDisk)
    case CompactOp(_, _, _, _, _, _, _) => s.(db := db)
    case ReloadOp => Fresh(db, s.onDisk)
  }

  ghost function Serve(s: Server, c: Config, model: Model, ops: seq<Op>): Server
    requires Runnable(s.db, c, ops)
    decreases |ops|
  {
    if ops == [] then s
    else Serve(ServeStep(s, c, model, ops[0]), c, ModelStep(model, ops[0]), ops[1..])
  }

  lemma ServeCons(s: Server, c: Config, model: Model, op: Op, rest: seq<Op>)
    requires Enabled(s.db, c, op) && Runnable(ServeStep(s, c, model, op).db, c, rest)
    ensures Runnable(s.db, c, [op] + rest)
    ensures Serve(s, c, model, [op] + rest) == Serve(ServeStep(s, c, model, op), c, ModelStep(model, op), rest)
    ensures ModelRun(model, [op] + rest) == ModelRun(ModelStep(model, op), rest)
  {
    hide Enabled;
    hide Step;
    var ops := [op] + rest;
    assert ops[0] == op && ops[1..] == rest;
  }

  lemma ServeNothing(s: Server, c: Config, model: Model)
    ensures Runnable(s.db, c, []) && Serve(s, c, model, []) == s && ModelRun(model, []) == model
  {
  }

  /** The tables alone show a client what the map does. */
  ghost predicate DiskSeen(levels: seq<Dir>, m: Model) {
    && GoodLevels(levels) && AllValid(levels)
    && forall key :: Seen(Meaning(DiskLookup(levels, key))) == Seen(LastWrite(m, key))
  }

  /** A key that was not flushed since the load, and is not in memory, was not written since. */
  ghost predicate Settled(s: Server, model: Model) {
    forall key | key !in s.db.mem && key !in s.flushed :: Seen(LastWrite(model, key)) == Seen(LastWrite(s.base, key))
  }

  ghost predicate ServeInv(s: Server, c: Config, model: Model) {
    && SeenInv(s.db, c, model)
    && DiskSeen(s.db.disk.levels, s.onDisk) && DiskSeen(s.loaded, s.base)
    && Settled(s, model)
  }

  lemma FreshSettled(db: Db, c: Config, model: Model, onDisk: Model)
    requires SeenInv(db, c, model) && DiskSeen(db.disk.levels, onDisk)
    ensures ServeInv(Fresh(db, onDisk), c, model)
  {
    hide SeenInv;
    hide AllValid;
    hide GoodLevels;
    hide DiskLookup;
    hide Meaning;
    forall key | key !in db.mem ensures Seen(LastWrite(model, key)) == Seen(LastWrite(onDisk, key)) {
      SeenLookup(db, c, model, key);
      assert Seen(Meaning(DiskLookup(db.disk.levels, key))) == Seen(LastWrite(onDisk, key));
    }
  }

  lemma NoMemory(db: Db, c: Config, model: Model)
    requires SeenInv(db, c, model) && db.mem == map[]
    ensures DiskSeen(db.disk.levels, model)
  {
    hide SeenInv;
    hide AllValid;
    hide GoodLevels;
    hide DiskLookup;
    hide Meaning;
    SeenLookup(db, c, model, []);
    forall key ensures Seen(Meaning(DiskLookup(db.disk.levels, key))) == Seen(LastWrite(model, key)) {
      SeenLookup(db, c, model, key);
    }
  }

  lemma WriteServes(s: Server, c: Config, model: Model, op: Op)
    requires ServeInv(s, c, model) && op.WriteOp? && Enabled(s.db, c, op)
    ensures ServeInv(ServeStep(s, c, model, op), c, ModelStep(model, op))
  {
    hide SeenInv;
    hide DiskSeen;
    hide WriteReady;
    hide TableWritten;
    hide Total;
    hide Size;
    SeenStep(s.db, c, model, op);
    var db := Step(s.db, c, op);
    SizeKept(s.db, c, op.key, op.v, op.env) by { WriteParts(s.db, c, op.key, op.v, op.env); }
    if db.mem == map[] { NoMemory(db, c, ModelStep(model, op)); }
  }

  lemma WriteParts(db: Db, c: Config, key: Bytes, v: Option<TableEntry>, env: Env)
    requires WriteReady(db, c, key, v, env)
    ensures SizeOk(db) && ValidConfig(c) && Size(key, v) < HALF
  {
  }

  /** A table written from the memtable holds every last write, whether or not the rest of the flush
      happens. */
  lemma TableHolds(db: Db, c: Config, model: Model, key: Bytes, v: Option<TableEntry>, env: Env)
    requires SeenInv(db, c, model) && WriteReady(db, c, key, v, env)
    requires ShouldFlush(Inserted(db, c, key, v), c, env)
    ensures DiskSeen(TableWritten(Inserted(db, c, key, v), c, env).levels, model[key := v])
  {
    hide Inv;
    hide WriteReady;
    WriteParts(db, c, key, v, env);
    SeenStep(db, c, model, WriteOp(key, v, env));
    NoMemory(AfterWrite(db, c, key, v, env), c, model[key := v]);
  }

  lemma CrashLevels(db: Db, c: Config, key: Bytes, v: Option<TableEntry>, env: Env, steps: nat)
    requires c.walEnabled && SizeOk(db) && steps <= |WriteTrail(db, c, key, v, env)|
    ensures var (ins, d) := (Inserted(db, c, key, v), DiskAt(db, c, key, v, env, steps));
            && (steps < 2 ==> d.levels == db.disk.levels)
            && (steps >= 2 ==> ShouldFlush(ins, c, env) && d.levels == TableWritten(ins, c, env).levels)
  {
    hide TableWritten;
    if steps > 0 { TrailIs(db, c, key, v, env, steps); }
  }

  lemma CrashServes(s: Server, c: Config, model: Model, op: Op)
    requires ServeInv(s, c, model) && op.CrashOp? && Enabled(s.db, c, op)
    ensures ServeInv(ServeStep(s, c, model, op), c, ModelStep(model, op))
  {
    hide SeenInv;
    hide DiskSeen;
    hide WriteReady;
    hide DiskAt;
    hide Settled;
    hide ServeInv;
    hide WriteTrail;
    hide TableWritten;
    ServeParts(s, c, model);
    var CrashOp(key, v, env, steps, now) := op;
    var db := Step(s.db, c, op);
    SeenStep(s.db, c, model, op);
    WriteParts(s.db, c, key, v, env);
    CrashLevels(s.db, c, key, v, env, steps);
    if steps >= 2 { TableHolds(s.db, c, model, key, v, env); }
    FreshSettled(db, c, ModelStep(model, op), if steps >= 2 then model[key := v] else s.onDisk);
  }

  lemma ServeParts(s: Server, c: Config, model: Model)
    requires ServeInv(s, c, model)
    ensures SeenInv(s.db, c, model) && DiskSeen(s.db.disk.levels, s.onDisk) && DiskSeen(s.loaded, s.base)
  {
    hide SeenInv;
    hide DiskSeen;
  }

  lemma CompactServes(s: Server, c: Config, model: Model, op: Op)
    requires ServeInv(s, c, model) && op.CompactOp? && Enabled(s.db, c, op)
    ensures ServeInv(ServeStep(s, c, model, op), c, ModelStep(model, op))
  {
    hide Inv;
    hide AllValid;
    hide GoodLevels;
    hide DiskLookup;
    hide Meaning;
    hide Settled;
    hide PromoteReady;
    hide Promotion.Promoted;
    hide NothingReturns;
    var exact :| SeenAs(s.db, c, exact, model);
    SeenStep(s.db, c, model, op);
    CompactLookup(s.db, c, exact, op, []);
    forall key ensures Seen(Meaning(DiskLookup(op.after, key))) == Seen(LastWrite(s.onDisk, key)) {
      CompactLookup(s.db, c, exact, op, key);
    }
    SameReader(s, Step(s.db, c, op), model);
  }

  /** What the reader was loaded from does not depend on the tables that are there now. */
  lemma SameReader(s: Server, db: Db, model: Model)
    requires Settled(s, model) && db.mem == s.db.mem
    ensures Settled(s.(db := db), model)
  {
  }

  lemma ReloadServes(s: Server, c: Config, model: Model, op: Op)
    requires ServeInv(s, c, model) && op.ReloadOp? && Enabled(s.db, c, op)
    ensures ServeInv(ServeStep(s, c, model, op), c, ModelStep(model, op))
  {
    hide SeenInv;
    hide DiskSeen;
    hide Settled;
    FreshSettled(s.db, c, model, s.onDisk);
  }

  lemma {:induction false} ServeKeeps(s: Server, c: Config, model: Model, ops: seq<Op>)
    requires ServeInv(s, c, model) && Runnable(s.db, c, ops)
    ensures ServeInv(Serve(s, c, model, ops), c, ModelRun(model, ops))
    ensures Serve(s, c, model, ops).db == Run(s.db, c, ops)
    decreases |ops|
  {
    hide ServeInv;
    hide Enabled;
    hide Step;
    if ops != [] {
      match ops[0] {
        case WriteOp(_, _, _) => WriteServes(s, c, model, ops[0]);
        case CrashOp(_, _, _, _, _) => CrashServes(s, c, model, ops[0]);
        case CompactOp(_, _, _, _, _, _, _) => CompactServes(s, c, model, ops[0]);
        case ReloadOp => ReloadServes(s, c, model, ops[0]);
      }
      ServeKeeps(ServeStep(s, c, model, ops[0]), c, ModelStep(model, ops[0]), ops[1..]);
    }
  }

  /** What a read through the memtable and then the loaded levels finds. */
  ghost function ServedLookup(s: Server, key: Bytes): Option<Option<TableEntry>>
    requires AllValid(s.loaded)
  {
    Lookup(s.db.mem, s.loaded, key)
  }

  lemma ServeReaches(c: Config, now: nat, ops: seq<Op>)
    requires ValidConfig(c) && Runnable(EmptyStore(c, now), c, ops)
    ensures var s := Serve(Fresh(EmptyStore(c, now), map[]), c, map[], ops);
            ServeInv(s, c, ModelRun(map[], ops)) && s.db == Run(EmptyStore(c, now), c, ops)
  {
    hide ServeInv;
    EmptyServes(c, now);
    ServeKeeps(Fresh(EmptyStore(c, now), map[]), c, map[], ops);
  }

  /** In every run, a read is right exactly when the key is in memory, or no memtable flushed since
      the load held it, or the key's last write is what the tables held at the load. */
  lemma EveryReadIff(c: Config, now: nat, ops: seq<Op>, key: Bytes)
    requires ValidConfig(c) && Runnable(EmptyStore(c, now), c, ops)
    ensures var (s, model) := (Serve(Fresh(EmptyStore(c, now), map[]), c, map[], ops), ModelRun(map[], ops));
            && s.db == Run(EmptyStore(c, now), c, ops) && AllValid(s.loaded)
            && (Seen(ServedLookup(s, key)) == Seen(LastWrite(model, key)) <==>
                  || key in s.db.mem
                  || key !in s.flushed
                  || Seen(LastWrite(model, key)) == Seen(LastWrite(s.base, key)))
  {
    hide SeenInv;
    hide DiskLookup;
    hide Meaning;
    hide AllValid;
    hide GoodLevels;
    hide Inv;
    ServeReaches(c, now, ops);
    var (s, model) := (Serve(Fresh(EmptyStore(c, now), map[]), c, map[], ops), ModelRun(map[], ops));
    SeenLookup(s.db, c, model, key);
    assert Seen(Meaning(DiskLookup(s.loaded, key))) == Seen(LastWrite(s.base, key));
  }

  // ---- what get answers ----

  /** `get` for a key that is not in memory, by what the tables held at the load. */
  function StoredAnswer(base: Model, key: Bytes): GetResponse {
    match Seen(LastWrite(base, key))
    case None => NOTHING
    case Some(e) => GetResponse(Some(Codec.Encode(e)), map[])
  }

  lemma StoredAnswerIs(levels: seq<Dir>, base: Model, key: Bytes, filter: Option<set<Bytes>>)
    requires DiskSeen(levels, base)
    ensures GetSpec(map[], levels, key, filter) == StoredAnswer(base, key)
  {
    hide GoodLevels;
    hide AllValid;
    hide DiskLookup;
    hide DecodeValue;
    hide Codec.Encode;
    assert Seen(Meaning(DiskLookup(levels, key))) == Seen(LastWrite(base, key));
    StoredIsEncoded(levels, key);
    if Seen(LastWrite(base, key)).Some? {
      assert |Codec.Encode(Seen(LastWrite(base, key)).value)| >= 5;
    }
  }

  lemma MemoryAnswerIs(mem: Mem, levels: seq<Dir>, model: Model, key: Bytes, filter: Option<set<Bytes>>)
    requires AllValid(levels) && key in mem && Seen(Some(mem[key])) == Seen(LastWrite(model, key))
    ensures GetSpec(mem, levels, key, filter) == Meant(model, key, filter)
  {
  }

  /** In every run, `get` gives the last write with its metadata exactly when the key is in memory;
      or the tables showed nothing for it at the load, and its last write is not a value; or the
      encoding of the value they showed happens to be what was last written, without metadata. */
  lemma EveryGetIff(c: Config, now: nat, ops: seq<Op>, key: Bytes, filter: Option<set<Bytes>>)
    requires ValidConfig(c) && Runnable(EmptyStore(c, now), c, ops)
    ensures var (s, model) := (Serve(Fresh(EmptyStore(c, now), map[]), c, map[], ops), ModelRun(map[], ops));
            && AllValid(s.loaded)
            && var (r, want, shown) := (GetSpec(s.db.mem, s.loaded, key, filter), Meant(model, key, filter),
                                        Seen(LastWrite(s.base, key)));
               && (key !in s.db.mem ==> r == StoredAnswer(s.base, key))
               && (r == want <==>
                     || key in s.db.mem
                     || (shown == None && want.value == None)
                     || (shown.Some? && want == GetResponse(Some(Codec.Encode(shown.value)), map[])))
  {
    hide SeenInv;
    hide DiskLookup;
    hide Meaning;
    hide AllValid;
    hide GoodLevels;
    hide Inv;
    hide Settled;
    hide Codec.Encode;
    ServeReaches(c, now, ops);
    var (s, model) := (Serve(Fresh(EmptyStore(c, now), map[]), c, map[], ops), ModelRun(map[], ops));
    SeenLookup(s.db, c, model, key);
    StoredAnswerIs(s.loaded, s.base, key, filter);
    if key in s.db.mem { MemoryAnswerIs(s.db.mem, s.loaded, model, key, filter); }
  }

  lemma EmptyServes(c: Config, now: nat)
    requires ValidConfig(c)
    ensures ServeInv(Fresh(EmptyStore(c, now), map[]), c, map[])
  {
    hide Inv;
    hide SeenInv;
    var db := EmptyStore(c, now);
    EmptyInv(c, now);
    InvIsSeen(db, c, map[]);
    assert db.mem == map[];
    NoMemory(db, c, map[]);
    FreshSettled(db, c, map[], map[]);
  }
}
