/** Output names repeat from run to run, so a compaction can overwrite the table that an earlier one
    left in the next level. When two names are equal, and which lookups survive the overwrite. */
module Overwrites {
  import opened Wrappers
  import opened Bytes
  import opened Records
  import opened Merging
  import opened Levels
  import opened LsmTree
  import opened Names
  import opened Build
  import opened Units
  import opened Promotion
  import opened Lookups
  import opened Preservation
  import opened Losses
  import Lifecycle

  // ---- when names repeat ----

  /** The name of the table that compacting a level of `n` tables leaves in the next level. */
  function TableLeft(n: nat): string
    requires n >= 2
  {
    PromotedName(OutName(0, Passes(n) - 1, 0))
  }

  /** Two compactions of a level leave tables of the same name exactly when they take equally many
      passes. */
  lemma NameRepeatsIff(n: nat, m: nat)
    requires n >= 2 && m >= 2
    ensures TableLeft(n) == TableLeft(m) <==> Passes(n) == Passes(m)
  {
    hide OutName;
    hide PromotedName;
    hide IsTmp;
    var (p, q) := (Passes(n) - 1, Passes(m) - 1);
    if TableLeft(n) == TableLeft(m) {
      OutNameIsTmp(0, p, 0);
      OutNameIsTmp(0, q, 0);
      PromotedApart(OutName(0, p, 0), OutName(0, q, 0));
      OutNamesDiffer(0, p, 0, 0, q, 0);
    }
  }

  /** A second compaction of a level starts while the first one's output, under its name, is still in
      the next level; anything else may have happened in between. Both outputs are there afterwards
      exactly when the two took differently many passes; otherwise the second has replaced the first. */
  lemma TwoOutputs(before: seq<Dir>, mid: seq<Dir>, later: seq<Dir>, after: seq<Dir>, idx: nat,
                   names: seq<string>, made: set<string>, created: nat, bytes: Bytes,
                   names2: seq<string>, made2: set<string>, created2: nat, bytes2: Bytes)
    requires idx < |before| && |names| >= 2 && |names2| >= 2
    requires Promoted(before, mid, idx, names, made, created, bytes)
    requires idx + 1 < |later| && OutputThere(mid, later, idx, TableLeft(|names|))
    requires Promoted(later, after, idx, names2, made2, created2, bytes2)
    ensures var (a, b) := (TableLeft(|names|), TableLeft(|names2|));
            && |after| > idx + 1 && a in after[idx + 1] && b in after[idx + 1]
            && after[idx + 1][b] == FileData(created2, bytes2)
            && (a != b <==> Passes(|names|) != Passes(|names2|))
            && (a != b ==> after[idx + 1][a] == FileData(created, bytes))
            && (a == b ==> later[idx + 1][b] == FileData(created, bytes))
  {
    hide AllFromUnit;
    hide OutName;
    hide PromotedName;
    hide SetOf;
    hide Lifecycle.Residue;
    NameRepeatsIff(|names|, |names2|);
    var (a, b) := (TableLeft(|names|), TableLeft(|names2|));
    assert mid[idx + 1] == DirAt(before, idx + 1)[a := FileData(created, bytes)];
    assert after[idx + 1] == later[idx + 1][b := FileData(created2, bytes2)];
  }

  ghost predicate OutputThere(mid: seq<Dir>, later: seq<Dir>, idx: nat, name: string) {
    && idx + 1 < |mid| && idx + 1 < |later|
    && name in mid[idx + 1] && name in later[idx + 1] && later[idx + 1][name] == mid[idx + 1][name]
  }

  // ---- which lookups survive ----

  /** `PromoteReady` without a free name: the output may overwrite a table, and is newer than all
      the others. */
  ghost predicate OverwriteReady(levels: seq<Dir>, idx: nat, names: seq<string>, xs: seq<seq<Record>>, created: nat,
                                 k: nat)
    requires |names| >= 2
  {
    && idx < |levels|
    && WholeLevel(levels[idx], names, xs)
    && FreeSlot(DirAt(levels, idx + 1) - {TableLeft(|names|)}, TableLeft(|names|), created)
    && 2 <= k <= 16
    && SparseSize(Overlay(xs), idx + 2) < U32_LIMIT
    && |Encode(Overlay(xs))| < U64_LIMIT
  }

  /** The levels without one file. */
  function Dropped(levels: seq<Dir>, j: nat, name: string): seq<Dir> {
    if j < |levels| then levels[j := levels[j] - {name}] else levels
  }

  lemma DropGoodDir(d: Dir, name: string)
    requires GoodDir(d)
    ensures GoodDir(d - {name})
  {
    hide IsBin;
    hide IsTable;
    hide Contents;
    hide GoodRecords;
  }

  lemma DropGood(levels: seq<Dir>, j: nat, name: string)
    requires GoodLevels(levels)
    ensures GoodLevels(Dropped(levels, j, name)) && AllValid(levels) && AllValid(Dropped(levels, j, name))
  {
    hide GoodDir;
    hide AllValid;
    if j < |levels| {
      OneGoodDir(levels, j);
      DropGoodDir(levels[j], name);
    }
    GoodValid(levels);
    GoodValid(Dropped(levels, j, name));
  }

  /** An overwriting compaction does what a compaction does after the old table was deleted. */
  lemma OverwriteIsDropFirst(before: seq<Dir>, after: seq<Dir>, idx: nat, names: seq<string>, xs: seq<seq<Record>>,
                             made: set<string>, created: nat, k: nat, bytes: Bytes)
    requires |names| >= 2 && OverwriteReady(before, idx, names, xs, created, k)
    requires Promoted(before, after, idx, names, made, created, bytes)
    ensures var bare := Dropped(before, idx + 1, TableLeft(|names|));
            && PromoteReady(bare, idx, names, xs, created, k)
            && Promoted(bare, after, idx, names, made, created, bytes)
  {
    hide WholeLevel;
    hide OutName;
    hide PromotedName;
    hide SparseSize;
    hide Overlay;
    hide Encode;
    hide AllFromUnit;
    hide SetOf;
    hide Lifecycle.Residue;
    hide IsBin;
    var name := TableLeft(|names|);
    var bare := Dropped(before, idx + 1, name);
    var f := FileData(created, bytes);
    assert DirAt(bare, idx + 1) == DirAt(before, idx + 1) - {name};
    assert DirAt(bare, idx + 1)[name := f] == DirAt(before, idx + 1)[name := f];
    assert bare[..idx] == before[..idx] && bare[idx] == before[idx];
    assert idx + 2 <= |before| ==> bare[idx + 2..] == before[idx + 2..];
  }

  /** What a key looks up to below level `idx` once a table of the next level is gone. */
  ghost function BelowWithout(levels: seq<Dir>, idx: nat, name: string, key: Bytes): Option<Bytes>
    requires GoodLevels(levels) && idx < |levels|
  {
    DropGood(levels, idx + 1, name);
    PartsGood(Dropped(levels, idx + 1, name), idx);
    DiskLookup(Dropped(levels, idx + 1, name)[idx + 1..], key)
  }

  ghost function Below(levels: seq<Dir>, idx: nat, key: Bytes): Option<Bytes>
    requires GoodLevels(levels) && idx < |levels|
  {
    PartsGood(levels, idx);
    DiskLookup(levels[idx + 1..], key)
  }

  /** The table is the one that answers the key below level `idx`. */
  ghost predicate AnswersNext(levels: seq<Dir>, idx: nat, name: string, key: Bytes)
    requires GoodLevels(levels) && idx < |levels|
  {
    PartsGood(levels, idx);
    idx + 1 < |levels| && AnswersIn(levels[idx + 1], name, key)
  }

  lemma NextGood(levels: seq<Dir>, idx: nat, name: string)
    requires GoodLevels(levels) && idx + 1 < |levels|
    ensures GoodLevels(levels[idx + 1..]) && ValidDir(levels[idx + 1]) && GoodDir(levels[idx + 1] - {name})
  {
    hide GoodDir;
    PartsGood(levels, idx);
    OneGoodDir(levels, idx + 1);
    GoodIsValid(levels[idx + 1]);
    DropGoodDir(levels[idx + 1], name);
  }

  /** Without the table the key looks up below to the same, unless the table answered it: then the
      answer was the table's, and what is left in its level and further down takes over. */
  lemma BelowIs(levels: seq<Dir>, idx: nat, name: string, key: Bytes)
    requires GoodLevels(levels) && idx < |levels|
    ensures if AnswersNext(levels, idx, name, key)
            then idx + 1 < |levels| && name in levels[idx + 1] && IsTable(levels[idx + 1][name].bytes)
                 && Below(levels, idx, key) == Find(Contents(levels[idx + 1][name].bytes), key) != None
            else BelowWithout(levels, idx, name, key) == Below(levels, idx, key)
  {
    hide DiskLookup;
    hide LevelLookup;
    hide ViewOf;
    hide IsTable;
    hide IsBin;
    hide Contents;
    hide Find;
    hide AllValid;
    hide NewestHit;
    hide GoodRecords;
    if idx + 1 < |levels| {
      var (low, d) := (levels[idx + 1..], levels[idx + 1]);
      var e := d - {name};
      NextGood(levels, idx, name);
      assert Dropped(levels, idx + 1, name)[idx + 1..] == low[0 := e];
      hide GoodLevels;
      LevelParts(low, 0, key);
      WithLevel(low, 0, e, key);
      assert low[..0] == [];
      NoLevels(key);
      DropInLevel(d, name, key);
    }
  }

  /** Dropping a table that does not answer the key in its level changes nothing in the level. */
  lemma DropInLevel(d: Dir, name: string, key: Bytes)
    requires GoodDir(d)
    ensures ValidDir(d) && GoodDir(d - {name}) && ValidDir(d - {name})
    ensures if AnswersIn(d, name, key)
            then LevelLookup(ViewOf(d), key) == Find(Contents(d[name].bytes), key) != None
            else LevelLookup(ViewOf(d - {name}), key) == LevelLookup(ViewOf(d), key)
  {
    hide IsTable;
    hide IsBin;
    hide Contents;
    hide Find;
    hide LevelLookup;
    hide ViewOf;
    hide NewestHit;
    hide GoodRecords;
    DropGoodDir(d, name);
    GoodIsValid(d);
    GoodIsValid(d - {name});
    hide ValidDir;
    LossInLevel(d, d - {name}, key);
    if AnswersIn(d, name, key) { AnswerIs(d, name, key); }
  }

  /** What a client sees of a key is the same before and after a compaction whose output may overwrite
      a table of the next level, exactly when: an upper level holds the key; or the newest entry in
      the level is a tombstone of a one-byte key, and nothing visible takes its place; or it is any
      other entry; or the level has none, and the overwritten table did not answer the key or what
      remains shows the same. But for tombstones of one-byte keys the lookup itself is then the same. */
  lemma OverwriteKeepsIff(before: seq<Dir>, after: seq<Dir>, idx: nat, names: seq<string>, xs: seq<seq<Record>>,
                          made: set<string>, created: nat, k: nat, key: Bytes)
    requires GoodLevels(before) && |names| >= 2 && OverwriteReady(before, idx, names, xs, created, k)
    requires Promoted(before, after, idx, names, made, created, CompactBytes(Overlay(xs), idx + 2, k))
    ensures AllValid(before) && AllValid(after) && AllValid(before[..idx])
    ensures var (hit, kept, name) := (FirstHit(xs, 0, key), FirstKept(xs, key), TableLeft(|names|));
            var (upper, was, now) := (DiskLookup(before[..idx], key), Below(before, idx, key),
                                      BelowWithout(before, idx, name, key));
            var dropped := |key| == 1 && hit == Some(TOMBSTONE);
            && (Visible(DiskLookup(after, key)) == Visible(DiskLookup(before, key)) <==>
                  || upper.Some?
                  || (dropped && Visible(Override(kept, now)) == None)
                  || (!dropped && hit.Some?)
                  || (!dropped && !AnswersNext(before, idx, name, key))
                  || (!dropped && Visible(now) == Visible(was)))
            && (!dropped ==>
                  (DiskLookup(after, key) == DiskLookup(before, key) <==>
                     upper.Some? || hit.Some? || !AnswersNext(before, idx, name, key) || now == was))
  {
    hide GoodLevels;
    hide AllValid;
    hide DiskLookup;
    hide OverwriteReady;
    hide PromoteReady;
    hide Promoted;
    hide CompactBytes;
    hide Overlay;
    hide AnswersNext;
    hide IsBin;
    hide IsTable;
    hide Contents;
    hide Find;
    hide Below;
    hide BelowWithout;
    hide TableLeft;
    var name := TableLeft(|names|);
    OverwriteParts(before, after, idx, names, xs, made, created, k, key);
    BelowIs(before, idx, name, key);
    if |key| != 1 || FirstHit(xs, 0, key) != Some(TOMBSTONE) {
      KeptIsHit(xs, 0, key);
      assert xs[0..] == xs;
    }
  }

  lemma OverwriteParts(before: seq<Dir>, after: seq<Dir>, idx: nat, names: seq<string>, xs: seq<seq<Record>>,
                       made: set<string>, created: nat, k: nat, key: Bytes)
    requires GoodLevels(before) && |names| >= 2 && OverwriteReady(before, idx, names, xs, created, k)
    requires Promoted(before, after, idx, names, made, created, CompactBytes(Overlay(xs), idx + 2, k))
    ensures AllValid(before) && AllValid(after) && AllValid(before[..idx]) && idx < |before|
    ensures var upper := DiskLookup(before[..idx], key);
            && DiskLookup(before, key) == Override(upper, Override(FirstHit(xs, 0, key), Below(before, idx, key)))
            && DiskLookup(after, key) ==
                 Override(upper, Override(FirstKept(xs, key), BelowWithout(before, idx, TableLeft(|names|), key)))
  {
    hide GoodLevels;
    hide AllValid;
    hide DiskLookup;
    hide WholeLevel;
    hide FreeSlot;
    hide PromoteReady;
    hide Promoted;
    hide CompactBytes;
    hide SparseSize;
    hide Overlay;
    hide TableLeft;
    hide Encode;
    var name := TableLeft(|names|);
    var bare := Dropped(before, idx + 1, name);
    OverwriteIsDropFirst(before, after, idx, names, xs, made, created, k, CompactBytes(Overlay(xs), idx + 2, k));
    DropGood(before, idx + 1, name);
    BeforeLookup(before, idx, names, xs, key);
    CompactionLookups(bare, after, idx, names, xs, made, created, k, key);
    assert bare[..idx] == before[..idx];
  }
}
