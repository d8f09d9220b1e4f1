/** Size-tiered compaction of one level: cut the newest-first list into units, compact each unit,
    promote the outputs to the next level. */
module Coordinator {
  import opened Wrappers
  import opened Bytes
  import opened Records
  import opened Merging
  import opened Levels
  import opened Names
  import opened Storage
  import opened Join
  import opened Build
  import opened Compaction
  import opened Units
  import opened AllUnits
  import opened Promotion
  import opened LsmTree
  import opened Lookups
  import opened Preservation
  import opened Inversions
  import Trails

  function Flatten(units: seq<seq<string>>): seq<string> {
    if units == [] then [] else Flatten(units[..|units| - 1]) + units[|units| - 1]
  }

  lemma FlattenSnoc(units: seq<seq<string>>, u: seq<string>)
    ensures Flatten(units + [u]) == Flatten(units) + u
  {
    assert (units + [u])[..|units|] == units;
  }

  /** Units are consecutive slices of the list from its newest end. Only the last may be shorter
      than the target, none is shorter than two, and only a single oldest file can be left out. */
  method Partition(names: seq<string>, targetChunks: nat) returns (units: seq<seq<string>>)
    requires targetChunks >= 2
    ensures || Flatten(units) == names
            || (names != [] && Flatten(units) == names[..|names| - 1]
                && forall i | 0 <= i < |units| :: |units[i]| == targetChunks)
    ensures forall i | 0 <= i < |units| :: 2 <= |units[i]| <= targetChunks
    ensures forall i | 0 <= i < |units| - 1 :: |units[i]| == targetChunks
    ensures units == UnitsOf(names, targetChunks)
  {
    hide UnitsOf;
    hide Flatten;
    units := [];
    var i := 0;
    NoUnits(names);
    while i + targetChunks <= |names|
      invariant 0 <= i <= |names|
      invariant Flatten(units) == names[..i]
      invariant forall j | 0 <= j < |units| :: |units[j]| == targetChunks
      invariant units + UnitsOf(names[i..], targetChunks) == UnitsOf(names, targetChunks)
    {
      FlattenSnoc(units, names[i..i + targetChunks]);
      assert names[..i] + names[i..i + targetChunks] == names[..i + targetChunks];
      UnitsFrom(names, i, targetChunks);
      units := units + [names[i..i + targetChunks]];
      i := i + targetChunks;
    }
    var remaining := |names| - i;
    UnitsEnd(names, i, targetChunks);
    if remaining >= 2 {
      FlattenSnoc(units, names[i..]);
      assert names[..i] + names[i..] == names;
      units := units + [names[i..]];
    } else if remaining == 0 {
      assert names[..i] == names;
    }
  }

  lemma NoUnits(names: seq<string>)
    ensures Flatten([]) == names[..0] && names[0..] == names
  {
  }

  lemma UnitsEnd(names: seq<string>, i: nat, targetChunks: nat)
    requires targetChunks >= 2 && i <= |names| < i + targetChunks
    ensures UnitsOf(names[i..], targetChunks) == if |names| - i >= 2 then [names[i..]] else []
  {
  }

  lemma UnitsFrom(names: seq<string>, i: nat, targetChunks: nat)
    requires targetChunks >= 2 && i + targetChunks <= |names|
    ensures UnitsOf(names[i..], targetChunks)
            == [names[i..i + targetChunks]] + UnitsOf(names[i + targetChunks..], targetChunks)
  {
    assert names[i..][..targetChunks] == names[i..i + targetChunks];
    assert names[i..][targetChunks..] == names[i + targetChunks..];
  }

  // ---- a level that is one unit ----

  /** One unit takes the whole level. Its output will be the newest table of the next level under a
      free name: it is born at `now`, or when a file of its name was that an earlier crash left. */
  ghost predicate SoleUnit(before: seq<Dir>, idx: nat, names: seq<string>, targetChunks: nat,
                           xss: seq<seq<seq<Record>>>, k: nat, now: nat)
  {
    && idx < |before| && GoodLevels(before) && 2 <= |names| <= targetChunks && |xss| == 1
    && var (out, d) := (OutName(0, Passes(|names|) - 1, 0), before[idx]);
       && (out !in d ==> PromoteReady(before, idx, names, xss[0], now, k))
       && (out in d ==> PromoteReady(before, idx, names, xss[0], d[out].created, k))
  }

  /** A key keeps its lookup, unless a one-byte key's newest entry in these lists is a tombstone. */
  ghost predicate KeepsLookup(before: seq<Dir>, after: seq<Dir>, xs: seq<seq<Record>>, key: Bytes)
    requires AllValid(before) && AllValid(after)
  {
    (|key| == 1 ==> FirstHit(xs, 0, key) != Some(TOMBSTONE)) ==> DiskLookup(after, key) == DiskLookup(before, key)
  }

  /** What a client sees of a key is the same, unless the compaction brings the key back. */
  ghost predicate KeepsSeenIff(before: seq<Dir>, after: seq<Dir>, idx: nat, xs: seq<seq<Record>>, key: Bytes)
    requires AllValid(before) && AllValid(after)
    requires idx < |before| && AllValid(before[..idx]) && AllValid(before[idx + 1..])
  {
    Visible(DiskLookup(after, key)) == Visible(DiskLookup(before, key)) <==> !Resurrects(before, idx, xs, key)
  }

  lemma SoleReady(before: seq<Dir>, idx: nat, names: seq<string>, targetChunks: nat, xss: seq<seq<seq<Record>>>,
                  k: nat, now: nat)
    requires SoleUnit(before, idx, names, targetChunks, xss, k, now)
    ensures UnitsReady(before[idx], UnitsOf(names, targetChunks), xss, idx + 2)
  {
    hide OutName;
    hide UnitReady;
    hide UnitsOf;
    hide SparseSize;
    hide Overlay;
    hide FreeSlot;
    OneUnit(names, targetChunks);
  }

  /** The compaction of a level that is one unit, for every key. */
  lemma SoleKeeps(before: seq<Dir>, after: seq<Dir>, idx: nat, names: seq<string>, targetChunks: nat,
                  xss: seq<seq<seq<Record>>>, ks: nat -> nat, nows: nat -> nat, ms: seq<Made>)
    requires SoleUnit(before, idx, names, targetChunks, xss, ks(0), nows(0))
    requires AllMade(before[idx], UnitsOf(names, targetChunks), xss, idx + 2, ks, nows, ms)
    requires AllPromoted(before, after, idx, UnitsOf(names, targetChunks), ms)
    ensures AllValid(before) && GoodLevels(after) && AllValid(after)
    ensures AllValid(before[..idx]) && AllValid(before[idx + 1..])
    ensures forall key :: KeepsLookup(before, after, xss[0], key) && KeepsSeenIff(before, after, idx, xss[0], key)
  {
    hide OutName;
    hide UnitsOf;
    hide Overlay;
    hide CompactBytes;
    hide AllMade;
    hide AllPromoted;
    hide Promoted;
    hide PromoteReady;
    hide AllValid;
    hide GoodLevels;
    hide DiskLookup;
    hide FirstHit;
    hide Resurrects;
    hide Visible;
    var xs := xss[0];
    assert xss == [xs];
    OnePromoted(before, after, idx, names, xs, ks, nows, ms, targetChunks);
    var (made, created) := (ms[0].names, ms[0].file.created);
    PartsGood(before, idx);
    CompactionLookups(before, after, idx, names, xs, made, created, ks(0), []);
    forall key ensures KeepsLookup(before, after, xs, key) && KeepsSeenIff(before, after, idx, xs, key) {
      if |key| == 1 ==> FirstHit(xs, 0, key) != Some(TOMBSTONE) {
        CompactionPreserves(before, after, idx, names, xs, made, created, ks(0), key);
      }
      PreservedIff(before, after, idx, names, xs, made, created, ks(0), key);
    }
  }

  class CompactionCoordinator {
    var targetChunks: nat

    constructor (targetChunks: nat)
      ensures this.targetChunks == targetChunks
    {
      this.targetChunks := targetChunks;
    }

    /** Compact the units one by one; a failing unit is skipped. Then move every output up. */
    method SizeTierCompaction(disk: Disk, idx: nat, names: seq<string>, ks: nat -> nat, nows: nat -> nat,
                              ghost xss: seq<seq<seq<Record>>>)
      returns (res: Result<(), CompactionError>, ghost ms: seq<Made>)
      requires targetChunks >= 2 && idx < |disk.levels|
      modifies disk`levels
      ensures var (before, units) := (old(disk.levels), UnitsOf(names, targetChunks));
              UnitsReady(before[idx], units, xss, idx + 2) ==>
                && res == Ok(())
                && AllMade(before[idx], units, xss, idx + 2, ks, nows, ms)
                && AllPromoted(before, disk.levels, idx, units, ms)
      ensures var before := old(disk.levels);
              SoleUnit(before, idx, names, targetChunks, xss, ks(0), nows(0)) ==>
                && res == Ok(()) && AllValid(before) && GoodLevels(disk.levels) && AllValid(disk.levels)
                && AllValid(before[..idx]) && AllValid(before[idx + 1..])
                && (forall key :: KeepsLookup(before, disk.levels, xss[0], key))
                && (forall key :: KeepsSeenIff(before, disk.levels, idx, xss[0], key))
      ensures var before := old(disk.levels);
              forall xs | SeveralReady(before, idx, names, xs, targetChunks, ks, nows) ::
                xss == UnitsOf(xs, targetChunks) ==>
                  res == Ok(()) && TurnsGroups(before, disk.levels, idx, xs, targetChunks)
    {
      hide SeveralReady;
      hide TurnsGroups;
      hide SoleUnit;
      hide KeepsLookup;
      hide KeepsSeenIff;
      hide AllValid;
      hide GoodLevels;
      hide UnitReady;
      hide UnitsReady;
      hide Progress;
      hide ReadyToMove;
      hide Flatten;
      hide SetOf;
      hide AllMade;
      hide AllPromoted;
      hide Compacted;
      hide OutName;
      hide Overlay;
      hide CompactBytes;
      hide SparseSize;
      hide Moved;
      hide AllFromUnit;
      hide Trails.AllSafe;
      hide Trails.Path;
      hide Trails.LastDir;
      hide PromotedName;
      hide UnitsOf;
      hide Passes;
      ghost var before := disk.levels;
      var units := Partition(names, targetChunks);
      ghost var ok := UnitsReady(before[idx], units, xss, idx + 2);
      ghost var sole := SoleUnit(before, idx, names, targetChunks, xss, ks(0), nows(0));
      if sole { SoleReady(before, idx, names, targetChunks, xss, ks(0), nows(0)); }
      forall xs | SeveralReady(before, idx, names, xs, targetChunks, ks, nows) && xss == UnitsOf(xs, targetChunks)
        ensures ok
      {
        SeveralUnitsReady(before, idx, names, xs, targetChunks, ks, nows);
      }
      ms := [];
      var outputs: seq<string> := [];
      if ok { ProgressStart(before, idx, units, xss, ks, nows); }
      var id := 0;
      while id < |units|
        invariant 0 <= id <= |units| && |disk.levels| == |before|
        invariant ok ==> Progress(before, disk.levels, idx, units, xss, ks, nows, ms, outputs, id)
      {
        ghost var now, xs: seq<seq<Record>> := disk.levels, [];
        if ok {
          ProgressNext(before, now, idx, units, xss, ks, nows, ms, outputs, id);
          xs := xss[id];
        }
        var unit := new CompactionUnit(units[id]);
        var result, unitMade := unit.Compact(id, disk, idx, idx + 2, ks(id), nows(id), xs);
        if ok { ms := ProgressStep(before, now, disk.levels, idx, units, xss, ks, nows, ms, outputs, id, unitMade); }
        if result.Ok? { outputs := outputs + [result.value]; }
        id := id + 1;
      }
      ghost var done := disk.levels;
      disk.EnsureLevel(idx + 1);
      ghost var mid: seq<Dir> := disk.levels;
      if ok {
        ReachMove(before, done, mid, idx, units, xss, ks, nows, ms, outputs);
        MoveStart(before, mid, idx, units, xss, ks, nows, ms, outputs);
      }
      var j := 0;
      while j < |outputs|
        invariant 0 <= j <= |outputs| && |disk.levels| == |mid|
        invariant ok ==> |ms| == |outputs| && disk.levels == Moved(mid, idx, ms, j)
      {
        var name := outputs[j];
        var from, to := disk.levels[idx], disk.levels[idx + 1];
        if ok { MoveStep(before, mid, idx, units, xss, ks, nows, ms, outputs, j); }
        if name !in from { return Err(NotFound), ms; }
        disk.SetDir(idx + 1, to[PromotedName(name) := from[name]]);
        disk.SetDir(idx, from - {name});
        j := j + 1;
      }
      if ok { AllMoved(before, mid, idx, units, xss, ks, nows, ms, outputs); }
      if sole { SoleKeeps(before, disk.levels, idx, names, targetChunks, xss, ks, nows, ms); }
      forall xs | SeveralReady(before, idx, names, xs, targetChunks, ks, nows) && xss == UnitsOf(xs, targetChunks)
        ensures TurnsGroups(before, disk.levels, idx, xs, targetChunks)
      {
        SeveralTurn(before, disk.levels, idx, names, xs, targetChunks, ks, nows, ms);
      }
      return Ok(()), ms;
    }
  }

  // ---- the units of a pass, one by one ----

  /** The levels when the first `id` units are done. */
  ghost predicate Progress(before: seq<Dir>, now: seq<Dir>, idx: nat, units: seq<seq<string>>,
                           xss: seq<seq<seq<Record>>>, ks: nat -> nat, nows: nat -> nat, ms: seq<Made>,
                           outputs: seq<string>, id: nat)
  {
    && idx < |before| == |now| && now == before[idx := now[idx]]
    && |ms| == id <= |units| && outputs == OutNames(ms)
    && UnitsReady(before[idx], units, xss, idx + 2)
    && UnitsDone(before[idx], now[idx], units, xss, idx + 2, ks, nows, ms)
  }

  lemma ProgressStart(before: seq<Dir>, idx: nat, units: seq<seq<string>>, xss: seq<seq<seq<Record>>>, ks: nat -> nat,
                      nows: nat -> nat)
    requires idx < |before| && UnitsReady(before[idx], units, xss, idx + 2)
    ensures Progress(before, before, idx, units, xss, ks, nows, [], [], 0)
  {
    hide UnitReady;
    hide UnitsDone;
    hide SparseSize;
    hide Overlay;
    UnitsStart(before[idx], units, xss, idx + 2, ks, nows);
    assert OutNames([]) == [];
  }

  lemma ProgressNext(before: seq<Dir>, now: seq<Dir>, idx: nat, units: seq<seq<string>>, xss: seq<seq<seq<Record>>>,
                     ks: nat -> nat, nows: nat -> nat, ms: seq<Made>, outputs: seq<string>, id: nat)
    requires Progress(before, now, idx, units, xss, ks, nows, ms, outputs, id) && id < |units|
    ensures idx < |now| && |xss| == |units| && |units[id]| >= 2
    ensures UnitReady(now[idx], units[id], xss[id]) && SparseSize(Overlay(xss[id]), idx + 2) < U32_LIMIT
  {
    hide UnitReady;
    hide UnitsDone;
    hide SparseSize;
    hide Overlay;
    NextReady(before[idx], now[idx], units, xss, idx + 2, ks, nows, ms);
  }

  lemma ProgressStep(before: seq<Dir>, now: seq<Dir>, later: seq<Dir>, idx: nat, units: seq<seq<string>>,
                     xss: seq<seq<seq<Record>>>, ks: nat -> nat, nows: nat -> nat, ms: seq<Made>, outputs: seq<string>,
                     id: nat, names: set<string>)
    returns (more: seq<Made>)
    requires Progress(before, now, idx, units, xss, ks, nows, ms, outputs, id) && id < |units|
    requires idx < |now| == |later| && later == now[idx := later[idx]] && |xss| == |units| && |units[id]| >= 2
    requires Compacted(now[idx], later[idx], units[id], names, OutName(id, Passes(|units[id]|) - 1, 0), nows(id),
                       CompactBytes(Overlay(xss[id]), idx + 2, ks(id)))
    requires AllFromUnit(names, id, Passes(|units[id]|), 0)
    ensures Progress(before, later, idx, units, xss, ks, nows, more,
                     outputs + [OutName(id, Passes(|units[id]|) - 1, 0)], id + 1)
  {
    hide UnitsReady;
    hide UnitsDone;
    hide Compacted;
    hide AllFromUnit;
    hide OutName;
    hide CompactBytes;
    hide Overlay;
    UnitDone(before[idx], now[idx], later[idx], units, xss, idx + 2, ks, nows, ms, names);
    var out := OutName(id, Passes(|units[id]|) - 1, 0);
    var m := Made(names, out, later[idx][out]);
    more := ms + [m];
    assert OutNames(more) == OutNames(ms) + [out];
  }

  // ---- moving the outputs up ----

  /** The levels once the first `j` outputs have moved up. */
  ghost function Moved(mid: seq<Dir>, idx: nat, ms: seq<Made>, j: nat): (r: seq<Dir>)
    requires idx + 1 < |mid| && j <= |ms|
    ensures |r| == |mid|
  {
    mid[idx := mid[idx] - SetOf(OutNames(ms)[..j])][idx + 1 := MovedUp(mid[idx + 1], ms, j)]
  }

  /** One output moves from level `idx` to the next. */
  function OneMoved(levels: seq<Dir>, idx: nat, name: string): seq<Dir>
    requires idx + 1 < |levels| && name in levels[idx]
  {
    levels[idx + 1 := levels[idx + 1][PromotedName(name) := levels[idx][name]]][idx := levels[idx] - {name}]
  }

  lemma NothingMoved(mid: seq<Dir>, idx: nat, ms: seq<Made>)
    requires idx + 1 < |mid|
    ensures Moved(mid, idx, ms, 0) == mid
  {
    assert OutNames(ms)[..0] == [] && mid[idx] - SetOf([]) == mid[idx];
  }

  lemma MoveOne(mid: seq<Dir>, idx: nat, ms: seq<Made>, j: nat)
    requires idx + 1 < |mid| && j < |ms|
    requires var rest := mid[idx] - SetOf(OutNames(ms)[..j]); ms[j].out in rest && rest[ms[j].out] == ms[j].file
    ensures var now := Moved(mid, idx, ms, j);
            && OutNames(ms)[j] == ms[j].out && ms[j].out in now[idx] && now[idx][ms[j].out] == ms[j].file
            && Moved(mid, idx, ms, j + 1) ==
                 now[idx + 1 := now[idx + 1][PromotedName(ms[j].out) := ms[j].file]][idx := now[idx] - {ms[j].out}]
  {
    hide PromotedName;
    assert OutNames(ms)[..j + 1] == OutNames(ms)[..j] + [ms[j].out];
    assert mid[idx] - SetOf(OutNames(ms)[..j + 1]) == mid[idx] - SetOf(OutNames(ms)[..j]) - {ms[j].out};
  }

  /** The levels when all units are done and the next level exists. */
  ghost predicate ReadyToMove(before: seq<Dir>, mid: seq<Dir>, idx: nat, units: seq<seq<string>>,
                              xss: seq<seq<seq<Record>>>, ks: nat -> nat, nows: nat -> nat, ms: seq<Made>,
                              outputs: seq<string>)
  {
    && idx < |before| && |mid| == (if idx + 1 == |before| then idx + 2 else |before|)
    && Progress(before, mid[..|before|], idx, units, xss, ks, nows, ms, outputs, |units|)
    && (idx + 1 == |before| ==> mid[idx + 1] == map[])
  }

  lemma ReachMove(before: seq<Dir>, done: seq<Dir>, mid: seq<Dir>, idx: nat, units: seq<seq<string>>,
                  xss: seq<seq<seq<Record>>>, ks: nat -> nat, nows: nat -> nat, ms: seq<Made>, outputs: seq<string>)
    requires Progress(before, done, idx, units, xss, ks, nows, ms, outputs, |units|)
    requires |done| == |before| && idx < |before|
    requires mid == if idx + 1 == |done| then done + [map[]] else done
    ensures ReadyToMove(before, mid, idx, units, xss, ks, nows, ms, outputs)
  {
    hide Progress;
    assert mid[..|before|] == done;
  }

  lemma MoveStart(before: seq<Dir>, mid: seq<Dir>, idx: nat, units: seq<seq<string>>, xss: seq<seq<seq<Record>>>,
                  ks: nat -> nat, nows: nat -> nat, ms: seq<Made>, outputs: seq<string>)
    requires ReadyToMove(before, mid, idx, units, xss, ks, nows, ms, outputs)
    ensures |ms| == |outputs| && Moved(mid, idx, ms, 0) == mid
  {
    hide UnitsReady;
    hide UnitsDone;
    NothingMoved(mid, idx, ms);
  }

  lemma MoveStep(before: seq<Dir>, mid: seq<Dir>, idx: nat, units: seq<seq<string>>, xss: seq<seq<seq<Record>>>,
                 ks: nat -> nat, nows: nat -> nat, ms: seq<Made>, outputs: seq<string>, j: nat)
    requires ReadyToMove(before, mid, idx, units, xss, ks, nows, ms, outputs) && j < |outputs|
    ensures |ms| == |outputs| && idx + 1 < |mid|
    ensures outputs[j] in Moved(mid, idx, ms, j)[idx]
    ensures Moved(mid, idx, ms, j + 1) == OneMoved(Moved(mid, idx, ms, j), idx, outputs[j])
  {
    hide UnitsReady;
    hide UnitsDone;
    hide PromotedName;
    hide SetOf;
    hide MovedUp;
    OutputStays(before[idx], mid[idx], units, xss, idx + 2, ks, nows, ms, j);
    MoveOne(mid, idx, ms, j);
  }

  /** All outputs moved: what is left of the level is what the units spared. */
  lemma AllMoved(before: seq<Dir>, mid: seq<Dir>, idx: nat, units: seq<seq<string>>, xss: seq<seq<seq<Record>>>,
                 ks: nat -> nat, nows: nat -> nat, ms: seq<Made>, outputs: seq<string>)
    requires ReadyToMove(before, mid, idx, units, xss, ks, nows, ms, outputs)
    ensures |ms| == |outputs| == |units| && AllMade(before[idx], units, xss, idx + 2, ks, nows, ms)
    ensures AllPromoted(before, Moved(mid, idx, ms, |ms|), idx, units, ms)
  {
    hide UnitsReady;
    hide AllMade;
    hide Leftover;
    hide MovedUp;
    hide SetOf;
    hide Outputs;
    OutputsGone(before[idx], mid[idx], units, xss, idx + 2, ks, nows, ms);
    assert OutNames(ms)[..|ms|] == OutNames(ms);
    assert mid[idx + 1] == DirAt(before, idx + 1);
  }
}
