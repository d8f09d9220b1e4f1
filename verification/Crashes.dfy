/** A crash in the middle of a compaction. A restart loads only `.bin` files and resumes no unit, so
    what the drained inputs held is out of reach although a file of the unit stands for them. Which
    lookups survive, for every directory on the trail of a unit. */
module Crashes {
  import opened Wrappers
  import opened Bytes
  import opened Records
  import opened Levels
  import opened LsmTree
  import opened Names
  import opened MemMap
  import opened Memtable
  import opened Lifecycle
  import opened Units
  import opened Trails
  import opened Lookups
  import opened Losses
  import opened Store
  import Join

  /** In a safe directory the tables are inputs and foreign tables, all unchanged. */
  lemma SafeTables(was: Dir, names: seq<string>, xs: seq<seq<Record>>, table: Bytes, made: set<string>, e: Dir)
    requires SafeDir(was, names, xs, table, made, e)
    requires (forall i | 0 <= i < |names| :: IsBin(names[i])) && forall n | n in made :: IsTmp(n)
    ensures SubLevel(e, was)
    ensures forall n | n in was && IsBin(n) && n !in e :: n in names
  {
    hide IsBin;
    hide IsTmp;
    hide IsDrainOf;
    hide StoodFor;
    var inputs := SetOf(names);
    forall n | n in inputs ensures IsBin(n) {
      var i :| 0 <= i < |names| && names[i] == n;
    }
    forall n | n in e && IsBin(n) ensures n in was && e[n] == was[n] {
      if n in inputs {
        var i :| 0 <= i < |names| && names[i] == n;
      } else {
        TableIsForeign(n, inputs, made);
      }
    }
    forall n | n in was && IsBin(n) && n !in e ensures n in names {
      if n !in inputs { TableIsForeign(n, inputs, made); }
    }
  }

  lemma TableIsForeign(n: string, inputs: set<string>, made: set<string>)
    requires IsBin(n) && n !in inputs && (forall x | x in inputs :: IsBin(x)) && forall x | x in made :: IsTmp(x)
    ensures Foreign(n, inputs, made)
  {
    hide IsBin;
    hide IsTmp;
    KindsDiffer(n);
    if IsDrainOf(n, inputs) { DrainNotTmp(n, inputs); }
  }

  lemma MadeIsTmp(made: set<string>, id: nat, pass: nat, pair: nat)
    requires AllFromUnit(made, id, pass, pair)
    ensures forall n | n in made :: IsTmp(n)
  {
    hide IsTmp;
    hide OutName;
    forall n | n in made ensures IsTmp(n) {
      var p: nat, i: nat :| n == OutName(id, p, i) && (p < pass || (p == pass && i < pair));
      OutNameIsTmp(id, p, i);
    }
  }

  /** The input that answers the key across the tree has been drained. */
  ghost predicate AnswerDrained(levels: seq<Dir>, idx: nat, names: seq<string>, e: Dir, key: Bytes)
    requires GoodLevels(levels) && idx < |levels|
  {
    LevelParts(levels, idx, key);
    && DiskLookup(levels[..idx], key).None?
    && exists i :: 0 <= i < |names| && AnswersIn(levels[idx], names[i], key) && names[i] !in e
  }

  /** On the disk: after a crash in any directory of the trail, a key looks up as before exactly when
      the input that answered it has not been drained, or the tables that are left give the same. */
  lemma UnitCrashLookup(levels: seq<Dir>, idx: nat, names: seq<string>, xs: seq<seq<Record>>, table: Bytes,
                        made: set<string>, e: Dir, key: Bytes)
    requires GoodLevels(levels) && idx < |levels| && UnitReady(levels[idx], names, xs)
    requires SafeDir(levels[idx], names, xs, table, made, e) && forall n | n in made :: IsTmp(n)
    ensures GoodDir(e) && GoodLevels(levels[idx := e]) && AllValid(levels[idx := e]) && AllValid(levels)
    ensures ValidDir(levels[idx])
    ensures if AnswerDrained(levels, idx, names, e, key)
            then DiskLookup(levels, key) == LevelLookup(ViewOf(levels[idx]), key) != None
                 && DiskLookup(levels[idx := e], key) == FromLevel(levels, idx, e, key)
            else DiskLookup(levels[idx := e], key) == DiskLookup(levels, key)
  {
    hide DiskLookup;
    hide LevelLookup;
    hide ViewOf;
    hide GoodDir;
    hide AllValid;
    hide AnswersIn;
    hide Join.HoldsRecords;
    hide IsBin;
    hide IsTmp;
    hide SafeDir;
    var d := levels[idx];
    SafeTables(d, names, xs, table, made, e);
    hide UnitReady;
    LevelParts(levels, idx, key);
    SubGood(e, d);
    WithLevel(levels, idx, e, key);
    GoodIsValid(d);
    GoodIsValid(e);
    hide GoodLevels;
    LossInLevel(d, e, key);
    hide SubLevel;
    if n :| AnswersIn(d, n, key) && n !in e {
      AnswerIs(d, n, key);
      TableThere(d, n, key);
      var i :| 0 <= i < |names| && names[i] == n;
    }
  }

  lemma TableThere(d: Dir, n: string, key: Bytes)
    requires ValidDir(d) && AnswersIn(d, n, key)
    ensures n in d && IsBin(n)
  {
  }

  /** In the store: crash in any directory of a unit's trail, then restart. The memtable comes back
      from the log. A key looks up to its last write exactly when it is in the memtable, or the input
      that answered it has not been drained, or what is left means the same; and for every drained
      input a file of the unit holds the merge with its records, which nothing reads. */
  lemma UnitCrashIff(db: Db, c: Config, model: Model, idx: nat, names: seq<string>, xs: seq<seq<Record>>, table: Bytes,
                     made: set<string>, id: nat, pass: nat, trail: seq<Dir>, j: nat, now: nat, key: Bytes)
    requires Inv(db, c, model) && c.walEnabled && |db.disk.wal| < HALF
    requires idx < |db.disk.levels| && UnitReady(db.disk.levels[idx], names, xs)
    requires AllSafe(db.disk.levels[idx], names, xs, table, made, trail) && AllFromUnit(made, id, pass, 0)
    requires j < |trail|
    ensures GoodLevels(db.disk.levels) && GoodDir(trail[j])
    ensures var levels := db.disk.levels;
            var after := Recovered(db.disk.(levels := levels[idx := trail[j]]), c, now);
            && after.mem == db.mem && AllValid(after.disk.levels) && AllValid(levels) && ValidDir(levels[idx])
            && (Lookup(after.mem, after.disk.levels, key) == LastWrite(model, key) <==>
                  || key in db.mem
                  || !AnswerDrained(levels, idx, names, trail[j], key)
                  || Meaning(FromLevel(levels, idx, trail[j], key)) == Meaning(LevelLookup(ViewOf(levels[idx]), key)))
    ensures forall i | 0 <= i < |names| && names[i] !in trail[j] :: StoodFor(xs, table, made, trail[j], i)
  {
    hide DiskLookup;
    hide LevelLookup;
    hide ViewOf;
    hide GoodDir;
    hide AllValid;
    hide AnswersIn;
    hide GoodMem;
    hide GoodLog;
    hide SizeOk;
    hide UnitReady;
    hide Meaning;
    hide GoodLevels;
    hide Recovered;
    hide AnswerDrained;
    hide FromLevel;
    hide IsTmp;
    hide SetOf;
    hide Untouched;
    hide StoodFor;
    hide InPlace;
    hide AllFromUnit;
    hide Applied;
    hide Logged;
    hide Records.Encode;
    var (levels, e) := (db.disk.levels, trail[j]);
    MadeIsTmp(made, id, pass, 0);
    assert SafeDir(levels[idx], names, xs, table, made, e);
    UnitCrashLookup(levels, idx, names, xs, table, made, e, key);
    var ws :| LogOf(db, ws);
    RecoverIs(db.disk.(levels := levels[idx := e]), c, db.mem, now, ws);
    assert Lookup(db.mem, levels, key) == LastWrite(model, key);
  }
}
