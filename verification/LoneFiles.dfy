/** A run on which the oldest table of a level, left alone by the units, hides the newer values of its
    keys once those have moved down. */
module LoneFiles {
  import opened Wrappers
  import opened Bytes
  import opened Codec
  import opened Records
  import opened Merging
  import opened Levels
  import opened LsmTree
  import opened Names
  import opened MemMap
  import opened Memtable
  import opened Build
  import opened Join
  import opened AllUnits
  import opened Promotion
  import opened Lookups
  import opened Preservation
  import opened Store
  import opened Runs
  import opened Inversions
  import opened Witnesses

  /** Three late writes of one key, flushed under three names. */
  ghost predicate ThreeLate(c: Config, flushBy: nat, a: Env, b: Env, d: Env) {
    Late(c, flushBy, a, b) && d.now > b.now + c.ramMaxTime && d.uuid != a.uuid && d.uuid != b.uuid
  }

  function Thrice(key: Bytes, u: TableEntry, v: TableEntry, w: TableEntry, a: Env, b: Env, d: Env): seq<Op> {
    Twice(key, Some(u), Some(v), a, b) + [WriteOp(key, Some(w), d)]
  }

  /** Level 1 after the three flushes. */
  ghost function ThreeTables(c: Config, key: Bytes, u: TableEntry, v: TableEntry, w: TableEntry, a: Env, b: Env,
                             d: Env): Dir
  {
    TwoTables(c, key, Some(u), Some(v), a, b)
      [TableName(d.uuid) := FileData(d.now, FlushBytes(map[key := Some(w)], c.pageSize, d.k))]
  }

  lemma ThreeFlushes(c: Config, now: nat, key: Bytes, u: TableEntry, v: TableEntry, w: TableEntry, a: Env, b: Env,
                     d: Env)
    requires ValidConfig(c) && ThreeLate(c, now + c.ramMaxTime, a, b, d)
    requires Plain(key, Some(u), a) && Plain(key, Some(v), b) && Plain(key, Some(w), d)
    ensures var (db, ops) := (EmptyStore(c, now), Thrice(key, u, v, w, a, b, d));
            && Runnable(db, c, ops) && ModelRun(map[], ops) == map[key := Some(w)]
            && var after := Run(db, c, ops);
               && Inv(after, c, map[key := Some(w)]) && after.mem == map[]
               && after.disk.levels == [ThreeTables(c, key, u, v, w, a, b, d)]
    ensures Holds(FlushBytes(map[key := Some(u)], c.pageSize, a.k), key, Some(u))
    ensures Holds(FlushBytes(map[key := Some(v)], c.pageSize, b.k), key, Some(v))
    ensures Holds(FlushBytes(map[key := Some(w)], c.pageSize, d.k), key, Some(w))
  {
    hide Inv;
    hide Plain;
    hide Enabled;
    hide Runs.Step;
    hide IsTable;
    hide Contents;
    hide FlushBytes;
    hide TableName;
    hide IsBin;
    hide ValueBytes;
    hide ModelRun;
    var (start, last) := (EmptyStore(c, now), WriteOp(key, Some(w), d));
    EmptyParts(c, now);
    EmptyInv(c, now);
    TwoFlushes(start, c, map[], key, Some(u), Some(v), a, b);
    var ops := Twice(key, Some(u), Some(v), a, b);
    var model: Model := map[key := Some(v)];
    ModelOfTwo(map[], key, Some(u), Some(v), a, b);
    hide Twice;
    var mid := Run(start, c, ops);
    NamesApart(a.uuid, d.uuid);
    NamesApart(b.uuid, d.uuid);
    OneTable(mid, c, model, key, Some(w), d);
    RunOne(mid, c, model, last);
    RunConcat(start, c, map[], ops, [last]);
    ModelCons(model, last, []);
    ModelNothing(model[key := Some(w)]);
    assert [last] + [] == [last] && model[key := Some(w)] == map[key := Some(w)];
  }

  /** The files of the level, newest first, and what they hold. */
  function ThreeNames(a: Env, b: Env, d: Env): seq<string> {
    [TableName(d.uuid)] + TwoNames(a, b)
  }

  function Three(key: Bytes, u: TableEntry, v: TableEntry, w: TableEntry): seq<seq<Record>> {
    [[Record(key, Codec.Encode(w))]] + Two(key, Codec.Encode(v), Codec.Encode(u))
  }

  lemma ThreeWhole(c: Config, flushBy: nat, key: Bytes, u: TableEntry, v: TableEntry, w: TableEntry, a: Env, b: Env,
                   d: Env)
    requires ThreeLate(c, flushBy, a, b, d)
    requires Plain(key, Some(u), a) && Plain(key, Some(v), b) && Plain(key, Some(w), d)
    requires Holds(FlushBytes(map[key := Some(u)], c.pageSize, a.k), key, Some(u))
    requires Holds(FlushBytes(map[key := Some(v)], c.pageSize, b.k), key, Some(v))
    requires Holds(FlushBytes(map[key := Some(w)], c.pageSize, d.k), key, Some(w))
    ensures WholeLevel(ThreeTables(c, key, u, v, w, a, b, d), ThreeNames(a, b, d), Three(key, u, v, w))
    ensures forall n | n in ThreeTables(c, key, u, v, w, a, b, d) :: IsBin(n)
  {
    hide Holds;
    hide FlushBytes;
    hide TableName;
    hide IsBin;
    hide HoldsRecords;
    hide Codec.Encode;
    hide Plain;
    var level := ThreeTables(c, key, u, v, w, a, b, d);
    NamesApart(a.uuid, b.uuid);
    NamesApart(a.uuid, d.uuid);
    NamesApart(b.uuid, d.uuid);
    TableNameIsBin(a.uuid);
    TableNameIsBin(b.uuid);
    TableNameIsBin(d.uuid);
    PlainFits(key, Some(u), a);
    PlainFits(key, Some(v), b);
    PlainFits(key, Some(w), d);
    OneHolds(level[TableName(a.uuid)].bytes, key, Some(u));
    OneHolds(level[TableName(b.uuid)].bytes, key, Some(v));
    OneHolds(level[TableName(d.uuid)].bytes, key, Some(w));
  }

  /** With units of two, the newest two tables are a unit and the oldest is left alone. */
  lemma ThreeGroups(key: Bytes, u: TableEntry, v: TableEntry, w: TableEntry, a: Env, b: Env, d: Env)
    ensures UnitsOf(ThreeNames(a, b, d), 2) == [[TableName(d.uuid), TableName(b.uuid)]]
    ensures UnitsOf(Three(key, u, v, w), 2) == [Two(key, Codec.Encode(w), Codec.Encode(v))]
    ensures Groups(Three(key, u, v, w), 2, key) == [Some(Codec.Encode(w)), Some(Codec.Encode(u))]
  {
    hide TableName;
    hide Codec.Encode;
    hide Find;
    hide FirstHit;
    var (names, xs) := (ThreeNames(a, b, d), Three(key, u, v, w));
    var (y, z) := (Two(key, Codec.Encode(w), Codec.Encode(v)), [[Record(key, Codec.Encode(u))]]);
    assert names[..2] == [TableName(d.uuid), TableName(b.uuid)] && names[2..] == [TableName(a.uuid)];
    assert xs[..2] == y && xs[2..] == z;
    FindOne(key, Codec.Encode(u));
    FindOne(key, Codec.Encode(v));
    FindOne(key, Codec.Encode(w));
    TwoLookups(y, key);
    OneHit(z, key);
    assert Groups(z, 2, key) == [FirstHit(z, 0, key)];
  }

  lemma OneHit(xs: seq<seq<Record>>, key: Bytes)
    requires |xs| == 1
    ensures FirstHit(xs, 0, key) == Find(xs[0], key)
  {
    hide Find;
    assert FirstHit(xs, 1, key) == None;
  }

  lemma ThreeReady(c: Config, flushBy: nat, key: Bytes, u: TableEntry, v: TableEntry, w: TableEntry, a: Env, b: Env,
                   d: Env, ks: nat -> nat, nows: nat -> nat)
    requires ThreeLate(c, flushBy, a, b, d) && 2 <= ks(0) <= 16 && nows(0) < nows(1) < nows(2)
    requires Plain(key, Some(u), a) && Plain(key, Some(v), b) && Plain(key, Some(w), d)
    requires Holds(FlushBytes(map[key := Some(u)], c.pageSize, a.k), key, Some(u))
    requires Holds(FlushBytes(map[key := Some(v)], c.pageSize, b.k), key, Some(v))
    requires Holds(FlushBytes(map[key := Some(w)], c.pageSize, d.k), key, Some(w))
    requires GoodLevels([ThreeTables(c, key, u, v, w, a, b, d)])
    ensures SeveralReady([ThreeTables(c, key, u, v, w, a, b, d)], 0, ThreeNames(a, b, d), Three(key, u, v, w), 2, ks,
                         nows)
  {
    hide Holds;
    hide FlushBytes;
    hide ThreeTables;
    hide WholeLevel;
    hide SparseSize;
    hide Codec.Encode;
    hide OutName;
    hide PromotedName;
    hide Overlay;
    hide Records.Encode;
    hide TableName;
    hide GoodLevels;
    hide IsBin;
    hide IsTmp;
    hide UnitsOf;
    ThreeWhole(c, flushBy, key, u, v, w, a, b, d);
    ThreeGroups(key, u, v, w, a, b, d);
    TwoValues(key, Codec.Encode(w), Codec.Encode(v));
    SmallTable(key, Some(w), d);
    var out := OutName(0, Passes(2) - 1, 0);
    OutNameIsTmp(0, Passes(2) - 1, 0);
    KindsDiffer(out);
    hide Plain;
  }

  /** Write a key three times, each time flushed, and compact level 1 by units of two. Whatever the
      compaction's clock and probe counts, the key has its last value before and its first value after. */
  lemma LoneFileWins(c: Config, now: nat, key: Bytes, u: TableEntry, v: TableEntry, w: TableEntry, a: Env, b: Env,
                     d: Env, ks: nat -> nat, nows: nat -> nat, ms: seq<Made>, after: seq<Dir>)
    requires ValidConfig(c) && ThreeLate(c, now + c.ramMaxTime, a, b, d)
    requires Plain(key, Some(u), a) && Plain(key, Some(v), b) && Plain(key, Some(w), d)
    requires 2 <= ks(0) <= 16 && nows(0) < nows(1) < nows(2)
    requires var (level, units) := (ThreeTables(c, key, u, v, w, a, b, d), UnitsOf(ThreeNames(a, b, d), 2));
             && AllMade(level, units, UnitsOf(Three(key, u, v, w), 2), 2, ks, nows, ms)
             && AllPromoted([level], after, 0, units, ms)
    ensures var ops := Thrice(key, u, v, w, a, b, d);
            && Runnable(EmptyStore(c, now), c, ops)
            && LastWrite(ModelRun(map[], ops), key) == Some(Some(w))
            && var db := Run(EmptyStore(c, now), c, ops);
               && db.mem == map[] && db.disk.levels == [ThreeTables(c, key, u, v, w, a, b, d)]
               && AllValid(db.disk.levels) && AllValid(after)
               && Lookup(db.mem, db.disk.levels, key) == Some(Some(w))
               && Lookup(db.mem, after, key) == Some(Some(u))
  {
    hide Plain;
    hide Enabled;
    hide Runs.Step;
    hide Holds;
    hide FlushBytes;
    hide ThreeTables;
    hide UnitsOf;
    hide AllMade;
    hide AllPromoted;
    hide Thrice;
    hide DiskLookup;
    hide GoodLevels;
    hide AllValid;
    hide Groups;
    hide KeptGroups;
    hide Codec.Encode;
    hide SeveralReady;
    hide DecodeValue;
    hide ModelRun;
    var level := ThreeTables(c, key, u, v, w, a, b, d);
    ThreeFlushes(c, now, key, u, v, w, a, b, d);
    var db := Run(EmptyStore(c, now), c, Thrice(key, u, v, w, a, b, d));
    InvValid(db, c, map[key := Some(w)]);
    LookupIs(db, c, map[key := Some(w)], key);
    hide Inv;
    ThreeReady(c, now + c.ramMaxTime, key, u, v, w, a, b, d, ks, nows);
    ThreeGroups(key, u, v, w, a, b, d);
    GroupsKept(Three(key, u, v, w), 2, key);
    SeveralLookups([level], after, 0, ThreeNames(a, b, d), Three(key, u, v, w), 2, ks, nows, ms, key);
    var bare: seq<Dir> := [level];
    assert bare[..0] == [] && bare[1..] == [];
    NoLevels(key);
    TwoSome(Some(Codec.Encode(w)), Some(Codec.Encode(u)));
    PlainFits(key, Some(u), a);
    ValueRoundTrip(Some(u));
  }

  lemma TwoSome(x: Option<Bytes>, y: Option<Bytes>)
    requires x.Some? && y.Some?
    ensures FirstSome([x, y]) == x && LastSome([x, y]) == y
  {
    assert LastSome([x, y]) == Override([x, y][1], LastSome([x, y][..1]));
  }
}
