/** When one unit takes a whole level, what every key looks up to before and after, and exactly when
    the two agree. */
module Preservation {
  import opened Wrappers
  import opened Bytes
  import opened Records
  import opened Merging
  import opened SSTable
  import opened Levels
  import opened LsmTree
  import opened Names
  import opened MemMap
  import opened Build
  import opened Join
  import opened Lifecycle
  import opened Units
  import opened Promotion
  import opened Lookups

  /** The newest list that holds the key, tombstones included. */
  function FirstHit(xs: seq<seq<Record>>, i: nat, key: Bytes): Option<Bytes>
    decreases |xs| - i
  {
    if i >= |xs| then None else Override(Find(xs[i], key), FirstHit(xs, i + 1, key))
  }

  /** `names` are all the tables of the directory, newest first, and `xs` what they hold. */
  ghost predicate WholeLevel(d: Dir, names: seq<string>, xs: seq<seq<Record>>) {
    && UnitReady(d, names, xs)
    && (forall n | n in d && IsBin(n) :: n in names)
    && (forall i, j | 0 <= i < j < |names| :: d[names[i]].created > d[names[j]].created)
  }

  // ---- a level as its newest-first list ----

  lemma {:induction false} FirstHitAt(xs: seq<seq<Record>>, i: nat, p: nat, key: Bytes)
    requires i <= p < |xs| && Find(xs[p], key).Some?
    requires forall q | i <= q < p :: Find(xs[q], key).None?
    ensures FirstHit(xs, i, key) == Find(xs[p], key)
    decreases p - i
  {
    if i < p { FirstHitAt(xs, i + 1, p, key); }
  }

  lemma {:induction false} FirstHitNone(xs: seq<seq<Record>>, i: nat, key: Bytes)
    requires forall q | i <= q < |xs| :: Find(xs[q], key).None?
    ensures FirstHit(xs, i, key) == None
    decreases |xs| - i
  {
    if i < |xs| { FirstHitNone(xs, i + 1, key); }
  }

  lemma {:induction false} LeastHit(xs: seq<seq<Record>>, key: Bytes, n: nat) returns (p: nat)
    requires n <= |xs|
    ensures p <= n && (p < n ==> Find(xs[p], key).Some?)
    ensures forall q | 0 <= q < p :: Find(xs[q], key).None?
  {
    if n == 0 { return 0; }
    p := LeastHit(xs, key, n - 1);
    if p == n - 1 && Find(xs[p], key).None? { p := n; }
  }

  lemma UnitContents(d: Dir, names: seq<string>, xs: seq<seq<Record>>, i: nat)
    requires WholeLevel(d, names, xs) && i < |names| && ValidDir(d)
    ensures |xs| == |names| && names[i] in d && IsBin(names[i]) && Contents(d[names[i]].bytes) == xs[i]
    ensures Sorted(xs[i]) && AllFit(xs[i])
    ensures d[names[i]].created in ViewOf(d) && ViewOf(d)[d[names[i]].created] == xs[i]
  {
    ViewAt(d, names[i]);
  }

  /** Every table of the level is in the list, and a newer one stands earlier. */
  lemma UnitIndex(d: Dir, names: seq<string>, xs: seq<seq<Record>>, c: nat) returns (q: nat)
    requires WholeLevel(d, names, xs) && ValidDir(d) && c in ViewOf(d)
    ensures q < |names| && q < |xs| && names[q] in d && ViewOf(d)[c] == xs[q] && d[names[q]].created == c
  {
    hide ViewOf;
    hide Contents;
    hide IsBin;
    hide HoldsRecords;
    var n := ViewFrom(d, c);
    q :| 0 <= q < |names| && names[q] == n;
    UnitContents(d, names, xs, q);
  }

  lemma UnitOrder(d: Dir, names: seq<string>, xs: seq<seq<Record>>, p: nat, q: nat)
    requires WholeLevel(d, names, xs) && p < |names| && q < |names| && names[p] in d && names[q] in d
    requires d[names[p]].created < d[names[q]].created
    ensures q < p
  {
    hide UnitReady;
  }

  lemma LevelIsList(d: Dir, names: seq<string>, xs: seq<seq<Record>>, key: Bytes)
    requires ValidDir(d) && WholeLevel(d, names, xs)
    ensures LevelLookup(ViewOf(d), key) == FirstHit(xs, 0, key)
  {
    hide ViewOf;
    hide LevelLookup;
    hide Find;
    hide WholeLevel;
    hide ValidDir;
    hide FirstHit;
    hide Contents;
    hide IsBin;
    var v := ViewOf(d);
    var p := LeastHit(xs, key, |xs|);
    if p < |xs| {
      SameCount(d, names, xs);
      UnitContents(d, names, xs, p);
      var created := d[names[p]].created;
      forall c | c in v && created < c ensures Find(v[c], key).None? {
        var q := UnitIndex(d, names, xs, c);
        UnitOrder(d, names, xs, p, q);
      }
      HitDecides(v, key, created);
      FirstHitAt(xs, 0, p, key);
    } else {
      forall c | c in v ensures Find(v[c], key).None? {
        var q := UnitIndex(d, names, xs, c);
      }
      MissIff(v, key);
      FirstHitNone(xs, 0, key);
    }
  }

  lemma SameCount(d: Dir, names: seq<string>, xs: seq<seq<Record>>)
    requires WholeLevel(d, names, xs)
    ensures |names| == |xs|
  {
  }

  // ---- the merged table ----

  lemma {:induction false} KeptFrom(xs: seq<seq<Record>>, key: Bytes) returns (i: nat)
    requires FirstKept(xs, key).Some?
    ensures i < |xs| && Find(xs[i], key) == FirstKept(xs, key)
  {
    if Kept(key, Find(xs[0], key)).Some? {
      i := 0;
    } else {
      i := KeptFrom(xs[1..], key);
      i := i + 1;
    }
  }

  lemma OverlayGood(xs: seq<seq<Record>>)
    requires AllSorted(xs) && forall i | 0 <= i < |xs| :: GoodRecords(xs[i])
    ensures GoodRecords(Overlay(xs))
  {
    hide Find;
    hide Overlay;
    hide GoodRecord;
    var rs := Overlay(xs);
    OverlaySorted(xs);
    forall j | 0 <= j < |rs| ensures GoodRecord(rs[j]) {
      SortedFind(rs, j);
      OverlayFind(xs, rs[j].key);
      var i := KeptFrom(xs, rs[j].key);
      OneGood(xs[i], rs[j]);
    }
  }

  lemma OneGood(rs: seq<Record>, r: Record)
    requires GoodRecords(rs) && Find(rs, r.key) == Some(r.value)
    ensures GoodRecord(r)
  {
    hide GoodRecord;
    var p := ScanHits(rs, 0, r.key);
    assert rs[p] == r;
  }

  lemma GoodFits(rs: seq<Record>)
    requires GoodRecords(rs)
    ensures AllFit(rs) && |MaxKey(rs)| <= 9996
  {
    hide DecodeValue;
    hide ValueBytes;
  }

  /** What promoting a unit needs from outside: the output is the newest table of the next level
      under a free name, and its lengths fit their fields. */
  ghost predicate PromoteReady(levels: seq<Dir>, idx: nat, names: seq<string>, xs: seq<seq<Record>>, created: nat,
                               k: nat)
    requires |names| >= 2
  {
    && idx < |levels|
    && WholeLevel(levels[idx], names, xs)
    && FreeSlot(DirAt(levels, idx + 1), PromotedName(OutName(0, Passes(|names|) - 1, 0)), created)
    && 2 <= k <= 16
    && SparseSize(Overlay(xs), idx + 2) < U32_LIMIT
    && |Encode(Overlay(xs))| < U64_LIMIT
  }

  lemma UnitRecordsGood(d: Dir, names: seq<string>, xs: seq<seq<Record>>)
    requires GoodDir(d) && WholeLevel(d, names, xs)
    ensures AllSorted(xs) && forall i | 0 <= i < |xs| :: GoodRecords(xs[i])
  {
    hide IsBin;
    hide Contents;
    hide GoodRecords;
    hide Sorted;
    forall i | 0 <= i < |xs| ensures Sorted(xs[i]) && GoodRecords(xs[i]) {
      UnitContents(d, names, xs, i);
    }
  }

  lemma PromotedIsBin(id: nat, pass: nat, pair: nat)
    ensures IsBin(PromotedName(OutName(id, pass, pair)))
  {
    OutNameIsTmp(id, pass, pair);
    KindsDiffer(OutName(id, pass, pair));
  }

  lemma OutputTable(xs: seq<seq<Record>>, level: nat, k: nat)
    requires AllSorted(xs) && forall i | 0 <= i < |xs| :: GoodRecords(xs[i])
    requires 2 <= k <= 16 && SparseSize(Overlay(xs), level) < U32_LIMIT && |Encode(Overlay(xs))| < U64_LIMIT
    ensures var bytes := CompactBytes(Overlay(xs), level, k);
            IsTable(bytes) && Contents(bytes) == Overlay(xs) && GoodRecords(Contents(bytes))
  {
    hide GoodRecords;
    hide Overlay;
    var rs := Overlay(xs);
    OverlaySorted(xs);
    OverlayGood(xs);
    GoodFits(rs);
    CompactIndexValid(rs, Stride(level));
    ContentsOf(CompactTable(rs, level, k));
  }

  // ---- the levels before and after ----

  lemma ResidueEmpty(d: Dir, names: seq<string>, made: set<string>)
    requires forall n | n in d && IsBin(n) :: n in names
    ensures var r := Residue(d, SetOf(names), made); GoodDir(r) && ViewOf(r) == map[]
  {
    hide IsDrainOf;
    hide Contents;
    hide GoodRecords;
    hide IsTable;
    hide IsBin;
    var r := Residue(d, SetOf(names), made);
    forall n | n in r ensures !IsBin(n) {
      assert n !in SetOf(names);
    }
  }

  lemma {:induction false} TreeConcat(pre: seq<Dir>, post: seq<Dir>, key: Bytes)
    requires AllValid(pre) && AllValid(post)
    ensures AllValid(pre + post)
    ensures DiskLookup(pre + post, key) == Override(DiskLookup(pre, key), DiskLookup(post, key))
  {
    hide ValidDir;
    hide LevelLookup;
    hide DiskLookup;
    if pre == [] {
      assert pre + post == post;
      NoLevels(key);
    } else {
      var d, rest := pre[0], pre[1..];
      TreeConcat(rest, post, key);
      TreeCons(d, rest, key);
      TreeCons(d, rest + post, key);
      assert pre == [d] + rest;
      assert pre + post == [d] + (rest + post);
    }
  }

  lemma NoLevels(key: Bytes)
    ensures AllValid([]) && DiskLookup([], key) == None
  {
  }

  /** The lookup of a key before a whole-level compaction, and after it: the level's own answer is
      replaced by the answer of its stripped tables, everything else stays. */
  lemma CompactionLookups(before: seq<Dir>, after: seq<Dir>, idx: nat, names: seq<string>, xs: seq<seq<Record>>,
                          made: set<string>, created: nat, k: nat, key: Bytes)
    requires GoodLevels(before) && |names| >= 2
    requires PromoteReady(before, idx, names, xs, created, k)
    requires Promoted(before, after, idx, names, made, created, CompactBytes(Overlay(xs), idx + 2, k))
    ensures AllValid(before) && GoodLevels(after) && AllValid(after)
    ensures AllValid(before[..idx]) && AllValid(before[idx + 1..])
    ensures var (above, below) := (DiskLookup(before[..idx], key), DiskLookup(before[idx + 1..], key));
            && DiskLookup(before, key) == Override(above, Override(FirstHit(xs, 0, key), below))
            && DiskLookup(after, key) == Override(above, Override(FirstKept(xs, key), below))
  {
    hide GoodDir;
    hide GoodRecords;
    hide DiskLookup;
    hide LevelLookup;
    hide WholeLevel;
    hide CompactBytes;
    hide Residue;
    hide SetOf;
    hide AllFromUnit;
    hide OutName;
    hide PromotedName;
    hide FreeSlot;
    hide Overlay;
    hide SparseSize;
    hide ViewOf;
    hide Find;
    BeforeLookup(before, idx, names, xs, key);
    AfterLookup(before, after, idx, names, xs, made, created, k, key);
  }

  /** What follows level `idx`, with a missing next level made explicit. */
  ghost function Lower(levels: seq<Dir>, idx: nat): seq<Dir> {
    if idx + 2 <= |levels| then levels[idx + 2..] else []
  }

  lemma PartsGood(levels: seq<Dir>, idx: nat)
    requires GoodLevels(levels) && idx < |levels|
    ensures GoodLevels(levels[..idx]) && GoodLevels(levels[idx + 1..]) && GoodDir(levels[idx])
    ensures GoodDir(DirAt(levels, idx + 1)) && GoodLevels(Lower(levels, idx))
    ensures levels == levels[..idx] + ([levels[idx]] + levels[idx + 1..])
    ensures AllValid(levels) && AllValid(levels[..idx]) && AllValid(levels[idx + 1..])
  {
    hide GoodLevels;
    hide AllValid;
    hide GoodDir;
    EmptyDir();
    NoneGood();
    GoodValid(levels);
    SliceGood(levels, 0, idx);
    SliceGood(levels, idx + 1, |levels|);
    OneGoodDir(levels, idx);
    if idx + 1 < |levels| { OneGoodDir(levels, idx + 1); }
    if idx + 2 <= |levels| { SliceGood(levels, idx + 2, |levels|); }
    assert levels[..idx] == levels[0..idx];
    assert levels[idx + 1..] == levels[idx + 1..|levels|];
    assert idx + 2 <= |levels| ==> levels[idx + 2..] == levels[idx + 2..|levels|];
    GoodValid(levels[..idx]);
    GoodValid(levels[idx + 1..]);
  }

  lemma NoneGood()
    ensures GoodLevels([])
  {
  }

  lemma OneGoodDir(levels: seq<Dir>, i: nat)
    requires GoodLevels(levels) && i < |levels|
    ensures GoodDir(levels[i])
  {
  }

  lemma SliceGood(levels: seq<Dir>, i: nat, j: nat)
    requires GoodLevels(levels) && i <= j <= |levels|
    ensures GoodLevels(levels[i..j])
  {
    hide GoodDir;
  }

  lemma GoodValid(levels: seq<Dir>)
    requires GoodLevels(levels)
    ensures AllValid(levels)
  {
  }

  lemma BeforeLookup(before: seq<Dir>, idx: nat, names: seq<string>, xs: seq<seq<Record>>, key: Bytes)
    requires GoodLevels(before) && idx < |before| && WholeLevel(before[idx], names, xs)
    ensures AllValid(before) && AllValid(before[..idx]) && AllValid(before[idx + 1..])
    ensures DiskLookup(before, key) ==
            Override(DiskLookup(before[..idx], key), Override(FirstHit(xs, 0, key), DiskLookup(before[idx + 1..], key)))
  {
    hide DiskLookup;
    hide LevelLookup;
    hide WholeLevel;
    hide ViewOf;
    hide GoodLevels;
    PartsGood(before, idx);
    hide GoodRecords;
    TreeConcat(before[..idx], [before[idx]] + before[idx + 1..], key);
    TreeCons(before[idx], before[idx + 1..], key);
    LevelIsList(before[idx], names, xs, key);
  }

  lemma LowerLookup(levels: seq<Dir>, idx: nat, key: Bytes)
    requires GoodLevels(levels) && idx < |levels|
    ensures AllValid(levels[idx + 1..]) && AllValid([DirAt(levels, idx + 1)] + Lower(levels, idx))
    ensures GoodLevels(Lower(levels, idx)) && GoodDir(DirAt(levels, idx + 1))
    ensures DiskLookup([DirAt(levels, idx + 1)] + Lower(levels, idx), key) == DiskLookup(levels[idx + 1..], key)
  {
    hide DiskLookup;
    hide GoodDir;
    PartsGood(levels, idx);
    EmptyTop(key);
    if idx + 2 <= |levels| {
      assert levels[idx + 1..] == [levels[idx + 1]] + levels[idx + 2..];
    } else {
      assert levels[idx + 1..] == [];
      var bare: seq<Dir> := [map[]];
      assert [DirAt(levels, idx + 1)] + Lower(levels, idx) == bare;
    }
  }

  lemma AfterLookup(before: seq<Dir>, after: seq<Dir>, idx: nat, names: seq<string>, xs: seq<seq<Record>>,
                    made: set<string>, created: nat, k: nat, key: Bytes)
    requires GoodLevels(before) && |names| >= 2
    requires PromoteReady(before, idx, names, xs, created, k)
    requires Promoted(before, after, idx, names, made, created, CompactBytes(Overlay(xs), idx + 2, k))
    ensures GoodLevels(after) && AllValid(after) && AllValid(before[..idx]) && AllValid(before[idx + 1..])
    ensures DiskLookup(after, key) ==
            Override(DiskLookup(before[..idx], key), Override(FirstKept(xs, key), DiskLookup(before[idx + 1..], key)))
  {
    hide DiskLookup;
    hide LevelLookup;
    hide GoodRecords;
    hide CompactBytes;
    hide Residue;
    hide SetOf;
    hide AllFromUnit;
    hide OutName;
    hide PromotedName;
    hide FreeSlot;
    hide Encode;
    hide FirstKept;
    hide IsTable;
    hide Overlay;
    hide SparseSize;
    hide ViewOf;
    hide Find;
    hide GoodDir;
    hide GoodLevels;
    hide AllValid;
    hide IsBin;
    hide Contents;
    hide UnitReady;
    hide ValidTable;
    hide HoldsRecords;
    var name := PromotedName(OutName(0, Passes(|names|) - 1, 0));
    var f := FileData(created, CompactBytes(Overlay(xs), idx + 2, k));
    var residue := Residue(before[idx], SetOf(names), made);
    var next := DirAt(before, idx + 1)[name := f];
    PartsGood(before, idx);
    UnitRecordsGood(before[idx], names, xs);
    OutputTable(xs, idx + 2, k);
    OverlayFind(xs, key);
    ResidueEmpty(before[idx], names, made);
    LowerLookup(before, idx, key);
    PromotedIsBin(0, Passes(|names|) - 1, 0);
    TopTable(DirAt(before, idx + 1), Lower(before, idx), name, f, key);
    AfterParts(before[..idx], residue, [next] + Lower(before, idx), key);
    AfterShape(before, after, idx, names, made, created, f.bytes);
  }

  lemma AfterShape(before: seq<Dir>, after: seq<Dir>, idx: nat, names: seq<string>, made: set<string>, created: nat,
                   bytes: Bytes)
    requires idx < |before| && |names| >= 2
    requires Promoted(before, after, idx, names, made, created, bytes)
    ensures var name := PromotedName(OutName(0, Passes(|names|) - 1, 0));
            after == before[..idx] + ([Residue(before[idx], SetOf(names), made)]
                     + ([DirAt(before, idx + 1)[name := FileData(created, bytes)]] + Lower(before, idx)))
  {
    hide Residue;
    hide SetOf;
    hide OutName;
    hide PromotedName;
    hide AllFromUnit;
  }

  /** An emptied level changes nothing. */
  lemma AfterParts(pre: seq<Dir>, residue: Dir, low: seq<Dir>, key: Bytes)
    requires GoodLevels(pre) && GoodDir(residue) && ViewOf(residue) == map[] && GoodLevels(low)
    ensures AllValid(pre) && AllValid(low)
    ensures GoodLevels(pre + ([residue] + low)) && AllValid(pre + ([residue] + low))
    ensures DiskLookup(pre + ([residue] + low), key) == Override(DiskLookup(pre, key), DiskLookup(low, key))
  {
    hide DiskLookup;
    hide ViewOf;
    hide LevelLookup;
    hide GoodRecords;
    GoodValid(pre);
    GoodValid(low);
    EmptyDir();
    TreeCons(residue, low, key);
    TreeConcat(pre, [residue] + low, key);
    GoodJoin(pre, [residue] + low, residue, low);
  }

  lemma GoodJoin(pre: seq<Dir>, mid: seq<Dir>, residue: Dir, low: seq<Dir>)
    requires GoodLevels(pre) && GoodDir(residue) && GoodLevels(low) && mid == [residue] + low
    ensures GoodLevels(pre + mid)
  {
    hide GoodDir;
  }

  // ---- when the lookup is preserved ----

  /** What the service reports for stored bytes: a single byte counts as deleted. */
  function Visible(b: Option<Bytes>): Option<Bytes> {
    if b.Some? && |b.value| == 1 then None else b
  }

  /** Stripping can only change the answer of a list whose newest hit is a one-byte-key tombstone. */
  lemma {:induction false} KeptIsHit(xs: seq<seq<Record>>, i: nat, key: Bytes)
    requires i <= |xs|
    requires |key| == 1 ==> FirstHit(xs, i, key) != Some(TOMBSTONE)
    ensures FirstKept(xs[i..], key) == FirstHit(xs, i, key)
    decreases |xs| - i
  {
    hide Find;
    if i < |xs| {
      assert xs[i..][0] == xs[i] && xs[i..][1..] == xs[i + 1..];
      var v := Find(xs[i], key);
      if v.Some? {
        assert |v.value| == 1 && v.value[0] == 255 ==> v.value == TOMBSTONE;
      } else {
        KeptIsHit(xs, i + 1, key);
      }
    }
  }

  /** The compaction brings a deleted key back: the newest answer is a tombstone of a one-byte key
      in the compacted level, and an older value of the key is left. */
  ghost predicate Resurrects(before: seq<Dir>, idx: nat, xs: seq<seq<Record>>, key: Bytes)
    requires idx < |before| && AllValid(before[..idx]) && AllValid(before[idx + 1..])
  {
    && DiskLookup(before[..idx], key).None?
    && |key| == 1 && FirstHit(xs, 0, key) == Some(TOMBSTONE)
    && Visible(Override(FirstKept(xs, key), DiskLookup(before[idx + 1..], key))).Some?
  }

  /** A whole-level compaction keeps what a key looks up to, tombstones included, unless the key has
      one byte and its newest entry in the level is a tombstone. */
  lemma CompactionPreserves(before: seq<Dir>, after: seq<Dir>, idx: nat, names: seq<string>, xs: seq<seq<Record>>,
                            made: set<string>, created: nat, k: nat, key: Bytes)
    requires GoodLevels(before) && |names| >= 2
    requires PromoteReady(before, idx, names, xs, created, k)
    requires Promoted(before, after, idx, names, made, created, CompactBytes(Overlay(xs), idx + 2, k))
    requires |key| == 1 ==> FirstHit(xs, 0, key) != Some(TOMBSTONE)
    ensures AllValid(before) && GoodLevels(after) && AllValid(after)
    ensures DiskLookup(after, key) == DiskLookup(before, key)
  {
    hide GoodLevels;
    hide AllValid;
    hide DiskLookup;
    hide PromoteReady;
    hide Promoted;
    CompactionLookups(before, after, idx, names, xs, made, created, k, key);
    KeptIsHit(xs, 0, key);
    assert xs[0..] == xs;
  }

  /** For every key: what the service reports is the same before and after exactly when the
      compaction does not bring the key back. */
  lemma PreservedIff(before: seq<Dir>, after: seq<Dir>, idx: nat, names: seq<string>, xs: seq<seq<Record>>,
                     made: set<string>, created: nat, k: nat, key: Bytes)
    requires GoodLevels(before) && |names| >= 2
    requires PromoteReady(before, idx, names, xs, created, k)
    requires Promoted(before, after, idx, names, made, created, CompactBytes(Overlay(xs), idx + 2, k))
    ensures AllValid(before) && AllValid(after) && AllValid(before[..idx]) && AllValid(before[idx + 1..])
    ensures Visible(DiskLookup(after, key)) == Visible(DiskLookup(before, key)) <==> !Resurrects(before, idx, xs, key)
  {
    hide GoodLevels;
    hide AllValid;
    hide DiskLookup;
    hide Promoted;
    hide WholeLevel;
    hide FreeSlot;
    CompactionLookups(before, after, idx, names, xs, made, created, k, key);
    if |key| != 1 || FirstHit(xs, 0, key) != Some(TOMBSTONE) {
      KeptIsHit(xs, 0, key);
      assert xs[0..] == xs;
    }
  }
}
