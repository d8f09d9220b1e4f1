/** The whole store as a state machine: writes with the flushes they trigger, crashes between any
    two durable steps followed by a restart, and whole-level compactions. In every reachable state
    every key looks up to its last write, the log replays to the memtable, and the counter is exact
    but for what a replay overwrote. */
module Runs {
  import opened Wrappers
  import opened Bytes
  import opened Records
  import opened Merging
  import opened Levels
  import opened LsmTree
  import opened Storage
  import opened MemMap
  import opened Memtable
  import opened Build
  import opened Promotion
  import opened Lookups
  import opened Preservation
  import opened Store
  import Codec

  // ---- runs ----

  datatype Op =
    | WriteOp(key: Bytes, v: Option<Codec.TableEntry>, env: Env)
    | CrashOp(key: Bytes, v: Option<Codec.TableEntry>, env: Env, steps: nat, now: nat)
    | CompactOp(idx: nat, names: seq<string>, xs: seq<seq<Record>>, made: set<string>, created: nat, k: nat,
                after: seq<Dir>)
    | ReloadOp

  /** When an operation may happen. A compaction takes a whole level as one unit and brings no
      deleted key back. */
  ghost predicate Enabled(db: Db, c: Config, op: Op) {
    match op
    case WriteOp(key, v, env) => WriteReady(db, c, key, v, env)
    case CrashOp(key, v, env, steps, now) => CrashReady(db, c, key, v, env, steps)
    case CompactOp(idx, names, xs, made, created, k, after) =>
      && |names| >= 2 && PromoteReady(db.disk.levels, idx, names, xs, created, k)
      && Promoted(db.disk.levels, after, idx, names, made, created, CompactBytes(Overlay(xs), idx + 2, k))
      && NothingReturns(db.disk.levels, idx, xs)
    case ReloadOp => true
  }

  /** No key comes back by compacting these lists of level `idx`. */
  ghost predicate NothingReturns(levels: seq<Dir>, idx: nat, xs: seq<seq<Record>>) {
    AllValid(levels) && idx < |levels| && forall key :: !Resurrects(levels, idx, xs, key)
  }

  /** A compaction that meets no tombstone of a one-byte key. */
  ghost predicate Gentle(op: Op) {
    op.CompactOp? ==> forall i | 0 <= i < |op.xs| :: Stripped(op.xs[i])
  }

  ghost predicate AllGentle(ops: seq<Op>) {
    forall i | 0 <= i < |ops| :: Gentle(ops[i])
  }

  ghost function Step(db: Db, c: Config, op: Op): Db
    requires Enabled(db, c, op)
  {
    match op
    case WriteOp(key, v, env) => AfterWrite(db, c, key, v, env)
    case CrashOp(key, v, env, steps, now) => Recovered(DiskAt(db, c, key, v, env, steps), c, now)
    case CompactOp(_, _, _, _, _, _, after) => db.(disk := db.disk.(levels := after))
    case ReloadOp => db
  }

  function ModelStep(model: Model, op: Op): Model {
    match op
    case WriteOp(key, v, env) => model[key := v]
    case CrashOp(key, v, env, steps, now) => if steps == 0 then model else model[key := v]
    case CompactOp(_, _, _, _, _, _, _) => model
    case ReloadOp => model
  }

  lemma StrippedHits(xs: seq<seq<Record>>, i: nat, key: Bytes)
    requires i <= |xs| && forall j | 0 <= j < |xs| :: Stripped(xs[j])
    ensures |key| == 1 ==> FirstHit(xs, i, key) != Some(TOMBSTONE)
    decreases |xs| - i
  {
    if i < |xs| {
      StrippedHits(xs, i + 1, key);
      if Find(xs[i], key) == Some(TOMBSTONE) {
        var p := ScanHits(xs[i], 0, key);
        assert !IsTombstone(xs[i][p]);
      }
    }
  }

  /** A gentle compaction brings nothing back. */
  lemma GentleReturnsNothing(levels: seq<Dir>, op: Op)
    requires op.CompactOp? && Gentle(op) && AllValid(levels) && op.idx < |levels|
    ensures NothingReturns(levels, op.idx, op.xs)
  {
    hide ValidDir;
    hide DiskLookup;
    hide Stripped;
    forall key ensures !Resurrects(levels, op.idx, op.xs, key) {
      StrippedHits(op.xs, 0, key);
    }
  }

  lemma CompactKeepsKey(db: Db, c: Config, model: Model, op: Op, key: Bytes)
    requires Inv(db, c, model) && op.CompactOp? && Enabled(db, c, op) && Gentle(op)
    ensures AllValid(op.after) && GoodLevels(op.after)
    ensures Lookup(db.mem, op.after, key) == LastWrite(model, key)
  {
    hide GoodLevels;
    hide AllValid;
    hide Promoted;
    hide PromoteReady;
    hide DiskLookup;
    hide Stripped;
    hide GoodMem;
    hide WalOk;
    hide SizeOk;
    hide NothingReturns;
    StrippedHits(op.xs, 0, key);
    CompactionPreserves(db.disk.levels, op.after, op.idx, op.names, op.xs, op.made, op.created, op.k, key);
    assert Lookup(db.mem, db.disk.levels, key) == LastWrite(model, key);
  }

  lemma CompactKeeps(db: Db, c: Config, model: Model, op: Op)
    requires Inv(db, c, model) && op.CompactOp? && Enabled(db, c, op) && Gentle(op)
    ensures Inv(Step(db, c, op), c, model)
  {
    hide Enabled;
    hide GoodLevels;
    hide AllValid;
    hide Lookup;
    hide GoodMem;
    hide WalOk;
    hide SizeOk;
    CompactKeepsKey(db, c, model, op, []);
    forall key ensures Lookup(db.mem, op.after, key) == LastWrite(model, key) {
      CompactKeepsKey(db, c, model, op, key);
    }
    SameWal(db, op.after, c);
    assert SizeOk(Step(db, c, op)) by { SameSize(db, op.after); }
  }

  lemma SameSize(db: Db, levels: seq<Dir>)
    requires SizeOk(db)
    ensures SizeOk(db.(disk := db.disk.(levels := levels)))
  {
  }

  lemma SameWal(db: Db, levels: seq<Dir>, c: Config)
    requires WalOk(db, c)
    ensures WalOk(db.(disk := db.disk.(levels := levels)), c)
  {
    if c.walEnabled {
      var ws :| LogOf(db, ws);
      assert LogOf(db.(disk := db.disk.(levels := levels)), ws);
    }
  }

  ghost predicate Runnable(db: Db, c: Config, ops: seq<Op>)
    decreases |ops|
  {
    ops == [] || (Enabled(db, c, ops[0]) && Runnable(Step(db, c, ops[0]), c, ops[1..]))
  }

  ghost function Run(db: Db, c: Config, ops: seq<Op>): Db
    requires Runnable(db, c, ops)
    decreases |ops|
  {
    if ops == [] then db else Run(Step(db, c, ops[0]), c, ops[1..])
  }

  function ModelRun(model: Model, ops: seq<Op>): Model
    decreases |ops|
  {
    if ops == [] then model else ModelRun(ModelStep(model, ops[0]), ops[1..])
  }

  lemma ModelCons(model: Model, op: Op, rest: seq<Op>)
    ensures ModelRun(model, [op] + rest) == ModelRun(ModelStep(model, op), rest)
  {
    hide ModelStep;
    var ops := [op] + rest;
    assert ops[0] == op && ops[1..] == rest;
  }

  lemma ModelNothing(model: Model)
    ensures ModelRun(model, []) == model
  {
  }

  lemma RunOne(db: Db, c: Config, model: Model, op: Op)
    requires Enabled(db, c, op)
    ensures Runnable(db, c, [op]) && Run(db, c, [op]) == Step(db, c, op)
    ensures ModelRun(model, [op]) == ModelStep(model, op)
  {
    hide Enabled;
    hide Step;
    hide ModelStep;
    var ops := [op];
    assert ops[1..] == [];
  }

  lemma {:induction false} RunConcat(db: Db, c: Config, model: Model, a: seq<Op>, b: seq<Op>)
    requires Runnable(db, c, a) && Runnable(Run(db, c, a), c, b)
    ensures Runnable(db, c, a + b) && Run(db, c, a + b) == Run(Run(db, c, a), c, b)
    ensures ModelRun(model, a + b) == ModelRun(ModelRun(model, a), b)
    decreases |a|
  {
    hide Enabled;
    hide Step;
    hide ModelStep;
    if a == [] {
      assert a + b == b;
    } else {
      RunConcat(Step(db, c, a[0]), c, ModelStep(model, a[0]), a[1..], b);
      assert (a + b)[0] == a[0] && (a + b)[1..] == a[1..] + b;
    }
  }

  lemma StepKeeps(db: Db, c: Config, model: Model, op: Op)
    requires Inv(db, c, model) && Enabled(db, c, op) && Gentle(op)
    ensures Inv(Step(db, c, op), c, ModelStep(model, op))
  {
    hide Inv;
    match op
    case WriteOp(key, v, env) => WriteKeeps(db, c, model, key, v, env);
    case CrashOp(key, v, env, steps, now) => CrashKeeps(db, c, model, key, v, env, steps, now);
    case CompactOp(_, _, _, _, _, _, _) => CompactKeeps(db, c, model, op);
    case ReloadOp =>
  }

  lemma {:induction false} RunKeeps(db: Db, c: Config, model: Model, ops: seq<Op>)
    requires Inv(db, c, model) && Runnable(db, c, ops) && AllGentle(ops)
    ensures Inv(Run(db, c, ops), c, ModelRun(model, ops))
    decreases |ops|
  {
    hide Inv;
    hide Enabled;
    hide Step;
    hide Gentle;
    if ops != [] {
      StepKeeps(db, c, model, ops[0]);
      RunKeeps(Step(db, c, ops[0]), c, ModelStep(model, ops[0]), ops[1..]);
    }
  }

  function EmptyStore(c: Config, now: nat): Db {
    Recovered(DiskState([], []), c, now)
  }

  /** Over every run from an empty store whose compactions meet no tombstone of a one-byte key, every
      key looks up to its last write, tombstones included. */
  lemma EveryRunAgrees(c: Config, now: nat, ops: seq<Op>, key: Bytes)
    requires ValidConfig(c) && Runnable(EmptyStore(c, now), c, ops) && AllGentle(ops)
    ensures var db := Run(EmptyStore(c, now), c, ops);
            && AllValid(db.disk.levels)
            && Lookup(db.mem, db.disk.levels, key) == LastWrite(ModelRun(map[], ops), key)
  {
    hide Lookup;
    EmptyInv(c, now);
    RunKeeps(EmptyStore(c, now), c, map[], ops);
  }

  lemma EmptyInv(c: Config, now: nat)
    requires ValidConfig(c)
    ensures Inv(EmptyStore(c, now), c, map[])
  {
    var db := EmptyStore(c, now);
    assert db.mem == map[] && db.size == 0;
    TotalEmpty();
    EmptyLogOk(db, c);
    forall key ensures Lookup(db.mem, db.disk.levels, key) == LastWrite(map[], key) {
      NoLevels(key);
    }
  }

  // ---- what a client sees ----

  /** Deleted and never written look alike to a client. */
  function Seen(v: Option<Option<Codec.TableEntry>>): Option<Codec.TableEntry> {
    if v.Some? then v.value else None
  }

  ghost predicate SameSeen(a: Model, b: Model) {
    forall key :: Seen(LastWrite(a, key)) == Seen(LastWrite(b, key))
  }

  /** The model without the tombstones that a compaction dropped for good. */
  ghost function Forget(mem: Mem, after: seq<Dir>, model: Model): Model
    requires AllValid(after)
  {
    map key | key in model && Lookup(mem, after, key).Some? :: model[key]
  }

  /** One stored byte is a tombstone or nothing. */
  lemma OneByteMeans(b: Bytes)
    requires |b| == 1
    ensures Seen(Meaning(Some(b))) == None
  {
  }

  /** What the tables mean for a key is the same, except that a tombstone may be gone for good. */
  lemma CompactMeaning(levels: seq<Dir>, op: Op, key: Bytes)
    requires op.CompactOp? && GoodLevels(levels) && |op.names| >= 2
    requires PromoteReady(levels, op.idx, op.names, op.xs, op.created, op.k)
    requires Promoted(levels, op.after, op.idx, op.names, op.made, op.created,
                      CompactBytes(Overlay(op.xs), op.idx + 2, op.k))
    requires NothingReturns(levels, op.idx, op.xs)
    ensures AllValid(op.after) && GoodLevels(op.after)
    ensures var (was, now) := (Meaning(DiskLookup(levels, key)), Meaning(DiskLookup(op.after, key)));
            now == was || (was == Some(None) && now == None)
  {
    hide GoodLevels;
    hide AllValid;
    hide Promoted;
    hide PromoteReady;
    hide DiskLookup;
    hide DecodeValue;
    hide Meaning;
    hide FirstHit;
    hide FirstKept;
    hide Visible;
    hide CompactBytes;
    hide Overlay;
    CompactionLookups(levels, op.after, op.idx, op.names, op.xs, op.made, op.created, op.k, key);
    if |key| == 1 && FirstHit(op.xs, 0, key) == Some(TOMBSTONE) {
      if DiskLookup(levels[..op.idx], key).None? {
        assert !Resurrects(levels, op.idx, op.xs, key);
        UnseenMeans(DiskLookup(op.after, key));
        TombstoneMeans();
      }
    } else {
      CompactionPreserves(levels, op.after, op.idx, op.names, op.xs, op.made, op.created, op.k, key);
    }
  }

  /** A compaction that brings nothing back changes no lookup, except that a deleted key may become
      one that was never written. */
  lemma CompactLookup(db: Db, c: Config, model: Model, op: Op, key: Bytes)
    requires Inv(db, c, model) && op.CompactOp? && Enabled(db, c, op)
    ensures AllValid(op.after) && GoodLevels(op.after)
    ensures Lookup(db.mem, op.after, key) == LastWrite(Forget(db.mem, op.after, model), key)
    ensures Seen(Lookup(db.mem, op.after, key)) == Seen(LastWrite(model, key))
    ensures Seen(Meaning(DiskLookup(op.after, key))) == Seen(Meaning(DiskLookup(db.disk.levels, key)))
  {
    hide GoodLevels;
    hide AllValid;
    hide Promoted;
    hide PromoteReady;
    hide NothingReturns;
    hide DiskLookup;
    hide GoodMem;
    hide WalOk;
    hide SizeOk;
    hide Meaning;
    assert Lookup(db.mem, db.disk.levels, key) == LastWrite(model, key);
    CompactMeaning(db.disk.levels, op, key);
  }

  /** The invariant holds for a model that differs only in forgotten tombstones. */
  lemma CompactForgets(db: Db, c: Config, model: Model, op: Op)
    requires Inv(db, c, model) && op.CompactOp? && Enabled(db, c, op)
    ensures AllValid(op.after)
    ensures Inv(Step(db, c, op), c, Forget(db.mem, op.after, model))
    ensures SameSeen(Forget(db.mem, op.after, model), model)
  {
    hide Enabled;
    hide GoodLevels;
    hide AllValid;
    hide Lookup;
    hide GoodMem;
    hide WalOk;
    hide SizeOk;
    hide Forget;
    hide Meaning;
    CompactLookup(db, c, model, op, []);
    forall key
      ensures Lookup(db.mem, op.after, key) == LastWrite(Forget(db.mem, op.after, model), key)
      ensures Seen(LastWrite(Forget(db.mem, op.after, model), key)) == Seen(LastWrite(model, key))
    {
      CompactLookup(db, c, model, op, key);
    }
    SameWal(db, op.after, c);
    SameSize(db, op.after);
  }

  ghost predicate SeenAs(db: Db, c: Config, exact: Model, model: Model) {
    Inv(db, c, exact) && SameSeen(exact, model)
  }

  /** Some model that a client cannot tell from `model` meets the invariant. */
  ghost predicate SeenInv(db: Db, c: Config, model: Model) {
    exists exact :: SeenAs(db, c, exact, model)
  }

  lemma SameAfterWrite(a: Model, b: Model, key: Bytes, v: Option<Codec.TableEntry>)
    requires SameSeen(a, b)
    ensures SameSeen(a[key := v], b[key := v])
  {
    var (x, y) := (a[key := v], b[key := v]);
    forall k ensures Seen(LastWrite(x, k)) == Seen(LastWrite(y, k)) {
      assert Seen(LastWrite(a, k)) == Seen(LastWrite(b, k));
    }
  }

  lemma SeenStep(db: Db, c: Config, model: Model, op: Op)
    requires SeenInv(db, c, model) && Enabled(db, c, op)
    ensures SeenInv(Step(db, c, op), c, ModelStep(model, op))
  {
    hide Inv;
    hide SameSeen;
    var exact :| SeenAs(db, c, exact, model);
    match op {
      case WriteOp(key, v, env) =>
        WriteKeeps(db, c, exact, key, v, env);
        SameAfterWrite(exact, model, key, v);
        assert SeenAs(Step(db, c, op), c, exact[key := v], model[key := v]);
      case CrashOp(key, v, env, steps, now) =>
        CrashKeeps(db, c, exact, key, v, env, steps, now);
        SameAfterWrite(exact, model, key, v);
        assert SeenAs(Step(db, c, op), c, ModelStep(exact, op), ModelStep(model, op));
      case CompactOp(_, _, _, _, _, _, after) =>
        CompactForgets(db, c, exact, op);
        SameSeenTrans(Forget(db.mem, after, exact), exact, model);
        assert SeenAs(Step(db, c, op), c, Forget(db.mem, after, exact), model);
      case ReloadOp =>
    }
  }

  lemma SameSeenTrans(a: Model, b: Model, c: Model)
    requires SameSeen(a, b) && SameSeen(b, c)
    ensures SameSeen(a, c)
  {
    forall k ensures Seen(LastWrite(a, k)) == Seen(LastWrite(c, k)) {
      assert Seen(LastWrite(a, k)) == Seen(LastWrite(b, k));
      assert Seen(LastWrite(b, k)) == Seen(LastWrite(c, k));
    }
  }

  lemma {:induction false} RunSeen(db: Db, c: Config, model: Model, ops: seq<Op>)
    requires SeenInv(db, c, model) && Runnable(db, c, ops)
    ensures SeenInv(Run(db, c, ops), c, ModelRun(model, ops))
    decreases |ops|
  {
    hide SeenInv;
    hide Enabled;
    hide Step;
    if ops != [] {
      SeenStep(db, c, model, ops[0]);
      RunSeen(Step(db, c, ops[0]), c, ModelStep(model, ops[0]), ops[1..]);
    }
  }

  lemma SeenLookup(db: Db, c: Config, model: Model, key: Bytes)
    requires SeenInv(db, c, model)
    ensures AllValid(db.disk.levels) && GoodLevels(db.disk.levels)
    ensures Seen(Lookup(db.mem, db.disk.levels, key)) == Seen(LastWrite(model, key))
  {
    hide GoodLevels;
    hide AllValid;
    hide GoodMem;
    hide WalOk;
    hide SizeOk;
    hide Lookup;
    var exact :| SeenAs(db, c, exact, model);
    assert Lookup(db.mem, db.disk.levels, key) == LastWrite(exact, key);
    assert Seen(LastWrite(exact, key)) == Seen(LastWrite(model, key));
  }

  lemma InvIsSeen(db: Db, c: Config, model: Model)
    requires Inv(db, c, model)
    ensures SeenInv(db, c, model)
  {
    hide Inv;
    assert SeenAs(db, c, model, model);
  }

  /** Over every run from an empty store whose compactions bring nothing back, a client sees every
      key's last write. */
  lemma EveryRunSeen(c: Config, now: nat, ops: seq<Op>, key: Bytes)
    requires ValidConfig(c) && Runnable(EmptyStore(c, now), c, ops)
    ensures var db := Run(EmptyStore(c, now), c, ops);
            && AllValid(db.disk.levels)
            && Seen(Lookup(db.mem, db.disk.levels, key)) == Seen(LastWrite(ModelRun(map[], ops), key))
  {
    hide SeenInv;
    hide Inv;
    EmptyInv(c, now);
    InvIsSeen(EmptyStore(c, now), c, map[]);
    RunSeen(EmptyStore(c, now), c, map[], ops);
    SeenLookup(Run(EmptyStore(c, now), c, ops), c, ModelRun(map[], ops), key);
  }

  lemma UnseenMeans(b: Option<Bytes>)
    requires Visible(b) == None
    ensures Seen(Meaning(b)) == None
  {
    hide Meaning;
    NoneMeans();
    if b.Some? { OneByteMeans(b.value); }
  }

  lemma TombstoneMeans()
    ensures Meaning(Some(TOMBSTONE)) == Some(None)
  {
  }

  lemma NoneMeans()
    ensures Meaning(None) == None
  {
  }

  // ---- the log and the counter over a run ----

  lemma InvReplays(db: Db, c: Config, model: Model)
    requires Inv(db, c, model) && c.walEnabled
    ensures Replay(db.disk.wal, map[]) == Replayed(db.mem, Ok(()))
  {
    hide Replay;
    hide GoodLog;
    hide Applied;
    hide Logged;
    hide Records.Encode;
    hide Agrees;
    hide GoodLevels;
    hide GoodMem;
    hide AllValid;
    hide SizeOk;
    var ws :| LogOf(db, ws);
    ReplayIs(ws, map[]);
  }

  /** Over every run with the log on, replaying the log yields exactly the memtable. */
  lemma EveryRunReplays(c: Config, now: nat, ops: seq<Op>)
    requires ValidConfig(c) && c.walEnabled && Runnable(EmptyStore(c, now), c, ops)
    ensures var db := Run(EmptyStore(c, now), c, ops); Replay(db.disk.wal, map[]) == Replayed(db.mem, Ok(()))
  {
    hide Inv;
    hide Replay;
    hide SameSeen;
    EmptyInv(c, now);
    InvIsSeen(EmptyStore(c, now), c, map[]);
    RunSeen(EmptyStore(c, now), c, map[], ops);
    var db := Run(EmptyStore(c, now), c, ops);
    var exact :| SeenAs(db, c, exact, ModelRun(map[], ops));
    InvReplays(db, c, exact);
  }

  /** The log holds two writes of one key. */
  ghost predicate Rewrites(wal: Bytes) {
    exists ws :: GoodLog(ws) && wal == Records.Encode(Logged(ws)) && !NoRewrites(ws)
  }

  /** No replay since the last flush met two writes of one key. */
  ghost function CleanRun(db: Db, c: Config, ops: seq<Op>, clean: bool): bool
    requires Runnable(db, c, ops)
    decreases |ops|
  {
    if ops == [] then clean
    else CleanRun(Step(db, c, ops[0]), c, ops[1..], CleanStep(db, c, ops[0], clean))
  }

  ghost function CleanStep(db: Db, c: Config, op: Op, clean: bool): bool
    requires Enabled(db, c, op)
  {
    match op
    case WriteOp(key, v, env) => clean || ShouldFlush(Inserted(db, c, key, v), c, env)
    case CrashOp(key, v, env, steps, _) => !Rewrites(DiskAt(db, c, key, v, env, steps).wal)
    case CompactOp(_, _, _, _, _, _, _) => clean
    case ReloadOp => clean
  }

  /** After a replay the counter is exact if and only if the log held no key twice. */
  lemma ReplayCounts(db: Db, c: Config, model: Model)
    requires Inv(db, c, model) && c.walEnabled && db.size == |db.disk.wal|
    ensures db.size == Total(db.mem) <==> !Rewrites(db.disk.wal)
  {
    hide Replay;
    hide Applied;
    hide GoodLog;
    hide Logged;
    hide Records.Encode;
    hide NoRewrites;
    hide Total;
    hide Agrees;
    hide GoodLevels;
    hide GoodMem;
    hide AllValid;
    var ws :| LogOf(db, ws);
    LogCovers(ws);
    ReplayIs(ws, map[]);
    if us :| GoodLog(us) && db.disk.wal == Records.Encode(Logged(us)) && !NoRewrites(us) {
      ReplayIs(us, map[]);
      LogCovers(us);
    }
  }

  lemma CleanKept(db: Db, c: Config, model: Model, op: Op, clean: bool)
    requires SeenInv(db, c, model) && Enabled(db, c, op)
    requires db.size == Total(db.mem) <==> clean
    ensures var after := Step(db, c, op); after.size == Total(after.mem) <==> CleanStep(db, c, op, clean)
  {
    hide Inv;
    hide SameSeen;
    hide Total;
    hide Rewrites;
    hide Inserted;
    hide PromoteReady;
    hide Promoted;
    hide NothingReturns;
    match op {
      case WriteOp(key, v, env) =>
        SizeKept(db, c, key, v, env);
      case CrashOp(key, v, env, steps, now) =>
        var exact :| SeenAs(db, c, exact, model);
        CrashKeeps(db, c, exact, key, v, env, steps, now);
        CrashSize(db, c, key, v, env, steps, now);
        ReplayCounts(Step(db, c, op), c, ModelStep(exact, op));
      case CompactOp(_, _, _, _, _, _, _) =>
      case ReloadOp =>
    }
  }

  lemma CrashSize(db: Db, c: Config, key: Bytes, v: Option<Codec.TableEntry>, env: Env, steps: nat, now: nat)
    requires CrashReady(db, c, key, v, env, steps)
    requires Replay(DiskAt(db, c, key, v, env, steps).wal, map[]).status.Ok?
    ensures var (d, after) := (DiskAt(db, c, key, v, env, steps), Recovered(DiskAt(db, c, key, v, env, steps), c, now));
            after.disk == d && after.size == |d.wal|
  {
    hide Replay;
    hide DiskAt;
    hide WriteReady;
    hide WriteTrail;
  }

  lemma {:induction false} CleanRunIs(db: Db, c: Config, model: Model, ops: seq<Op>, clean: bool)
    requires SeenInv(db, c, model) && Runnable(db, c, ops)
    requires db.size == Total(db.mem) <==> clean
    ensures var after := Run(db, c, ops); after.size == Total(after.mem) <==> CleanRun(db, c, ops, clean)
    decreases |ops|
  {
    hide SeenInv;
    hide Enabled;
    hide Step;
    hide CleanStep;
    hide Total;
    if ops != [] {
      SeenStep(db, c, model, ops[0]);
      CleanKept(db, c, model, ops[0], clean);
      CleanRunIs(Step(db, c, ops[0]), c, ModelStep(model, ops[0]), ops[1..], CleanStep(db, c, ops[0], clean));
    }
  }

  /** Over every run the counter is the encoded size of the live records if and only if no replay
      since the last flush overwrote a key. */
  lemma EveryRunCounts(c: Config, now: nat, ops: seq<Op>)
    requires ValidConfig(c) && Runnable(EmptyStore(c, now), c, ops)
    ensures var db := Run(EmptyStore(c, now), c, ops);
            && Total(db.mem) <= db.size
            && (db.size == Total(db.mem) <==> CleanRun(EmptyStore(c, now), c, ops, true))
  {
    hide SameSeen;
    hide Total;
    hide GoodLevels;
    hide GoodMem;
    hide AllValid;
    hide WalOk;
    hide Agrees;
    EmptyInv(c, now);
    InvIsSeen(EmptyStore(c, now), c, map[]);
    TotalEmpty();
    assert EmptyStore(c, now).mem == map[] && EmptyStore(c, now).size == 0;
    RunSeen(EmptyStore(c, now), c, map[], ops);
    CleanRunIs(EmptyStore(c, now), c, map[], ops, true);
    var db := Run(EmptyStore(c, now), c, ops);
    var exact :| SeenAs(db, c, exact, ModelRun(map[], ops));
  }
}
