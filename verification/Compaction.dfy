/** The compaction unit: pairwise passes over a list of files until one is left, which is rebuilt
    as a table while everything else the unit touched is deleted. */
module Compaction {
  import opened Wrappers
  import opened Bytes
  import opened Records
  import opened Merging
  import opened Levels
  import opened Names
  import opened Storage
  import opened Join
  import opened Build
  import opened Lifecycle
  import opened Units
  import opened Trails

  class CompactionUnit {
    var targetFiles: seq<string>
    var consumedFiles: seq<string>
    /** The level's directory after every step of the unit so far. */
    ghost var trail: seq<Dir>

    constructor (files: seq<string>)
      ensures targetFiles == files && consumedFiles == [] && trail == []
    {
      targetFiles := files;
      consumedFiles := [];
      trail := [];
    }

    /** Merge two files into a new one, then rename the sources away; if the merge fails, the records
        written until then stay in the new file, and the sources stay. */
    method MergePair(disk: Disk, level: nat, l: string, r: string, out: string, now: nat)
      returns (res: Result<seq<string>, CompactionError>, ghost written: Bytes)
      requires level < |disk.levels|
      modifies this`trail, disk`levels
      ensures |disk.levels| == |old(disk.levels)|
      ensures var d := old(disk.levels)[level];
              l !in d || r !in d ==> res == Err(NotFound) && disk.levels == old(disk.levels) && trail == old(trail)
      ensures var d := old(disk.levels)[level];
              l in d && r in d && l != r && out != l && out != r && DrainedName(l) != r ==>
                match JoinSpec(FileAt(d, l), FileAt(d, r))
                case Ok(bytes) =>
                  && res == Ok([DrainedName(l), DrainedName(r)]) && written == bytes
                  && disk.levels == old(disk.levels)[level := AfterMerge(d, l, r, out, now, bytes)]
                  && trail == old(trail) + MergeSteps(d, l, r, out, now, bytes)
                case Err(e) =>
                  && res == Err(e) && Parse(written).Some?
                  && disk.levels == old(disk.levels)[level := Write(Create(d, out, now), out, written)]
                  && trail == old(trail) + [Create(d, out, now), Write(Create(d, out, now), out, written)]
    {
      hide JoinSpec;
      hide Parse;
      hide IsBin;
      hide DrainedName;
      var d := disk.levels[level];
      if l !in d || r !in d { return Err(NotFound), []; }
      var left, right := FileAt(d, l), FileAt(d, r);
      d := Create(d, out, now);
      disk.SetDir(level, d);
      trail := trail + [d];
      var joined, bytes := JoinTables(left, right);
      d := Write(d, out, bytes);
      disk.SetDir(level, d);
      trail := trail + [d];
      if joined.Err? { return Err(joined.error), bytes; }
      d := Drain(d, l);
      disk.SetDir(level, d);
      trail := trail + [d];
      if r !in d { return Err(NotFound), bytes; }
      d := Drain(d, r);
      disk.SetDir(level, d);
      trail := trail + [d];
      return Ok([DrainedName(l), DrainedName(r)]), bytes;
    }

    /** One pass: neighbours are merged, an odd last file is carried over. */
    method RunPass(id: nat, pass: nat, disk: Disk, level: nat, now: nat,
                   ghost was: Dir, ghost names: seq<string>, ghost xs: seq<seq<Record>>, ghost table: Bytes,
                   ghost holds: Holdings, ghost made: set<string>, ghost cs: seq<seq<Record>>)
      returns (res: Result<seq<string>, CompactionError>, ghost holdsAfter: Holdings, ghost madeAfter: set<string>)
      requires level < |disk.levels| && |targetFiles| >= 2
      modifies this, disk`levels
      ensures |disk.levels| == |old(disk.levels)|
      ensures res.Ok? ==> |res.value| < |old(targetFiles)|
      ensures old(Going(was, names, xs, table, now, trail, disk.levels[level], holds, consumedFiles, made,
                        [], [], targetFiles, cs, id, pass, 0)) ==>
                && res.Ok? && |cs| == |old(targetFiles)|
                && disk.levels == old(disk.levels)[level := disk.levels[level]]
                && Going(was, names, xs, table, now, trail, disk.levels[level], holdsAfter, consumedFiles, madeAfter,
                         [], [], res.value, Round(cs), id, pass + 1, 0)
                && |res.value| > 0 && res.value[0] == OutName(id, pass, 0) && res.value[0] in madeAfter
    {
      hide Going;
      hide OutName;
      hide Merging.Join;
      hide HoldsRecords;
      hide DrainedName;
      hide IsBin;
      hide IsTmp;
      hide AfterMerge;
      hide HoldsAfter;
      hide MergeSteps;
      hide Encode;
      hide JoinSpec;
      hide Parse;
      hide FileAt;
      hide Round;
      ghost var ok := Going(was, names, xs, table, now, trail, disk.levels[level], holds, consumedFiles, made,
                            [], [], targetFiles, cs, id, pass, 0);
      holdsAfter, madeAfter := holds, made;
      if ok {
        GoingLength(was, names, xs, table, now, trail, disk.levels[level], holds, consumedFiles, made,
                    [], [], targetFiles, cs, id, pass, 0);
      }
      var nextRound: seq<string> := [];
      ghost var ys: seq<seq<Record>>, zs := [], cs;
      var pairIdx := 0;
      while |targetFiles| >= 2
        invariant |disk.levels| == |old(disk.levels)| && |nextRound| == pairIdx
        invariant 2 * pairIdx + |targetFiles| == |old(targetFiles)|
        invariant ok ==> disk.levels == old(disk.levels)[level := disk.levels[level]]
        invariant ok ==> Going(was, names, xs, table, now, trail, disk.levels[level], holdsAfter, consumedFiles,
                               madeAfter,
                               nextRound, ys, targetFiles, zs, id, pass, pairIdx)
        invariant ok ==> ys + Round(zs) == Round(cs)
        invariant ok && pairIdx > 0 ==> nextRound[0] == OutName(id, pass, 0) && nextRound[0] in madeAfter
      {
        var left, right := targetFiles[0], targetFiles[1];
        var outName := OutName(id, pass, pairIdx);
        ghost var m := Merged(left, right, outName, now);
        ghost var a, b := [], [];
        if ok {
          GoingStep(was, names, xs, table, now, trail, disk.levels[level], holdsAfter, consumedFiles, madeAfter,
                    nextRound, ys, targetFiles, zs, id, pass, pairIdx, m);
          RoundStep(ys, zs);
          a, b := zs[0], zs[1];
        }
        var drained, _ := MergePair(disk, level, left, right, outName, now);
        if drained.Err? { return Err(drained.error), holdsAfter, madeAfter; }
        consumedFiles := consumedFiles + drained.value;
        nextRound := nextRound + [outName];
        targetFiles := targetFiles[2..];
        pairIdx := pairIdx + 1;
        if ok {
          holdsAfter, madeAfter := HoldsAfter(m, holdsAfter), madeAfter + {outName};
          ys, zs := ys + [Merging.Join(a, b)], zs[2..];
        }
      }
      if ok {
        RoundStep(ys, zs);
        GoingPassEnds(was, names, xs, table, now, trail, disk.levels[level], holdsAfter, consumedFiles, madeAfter,
                      nextRound, ys, targetFiles, zs, id, pass, pairIdx);
      }
      nextRound := nextRound + targetFiles;
      targetFiles := [];
      return Ok(nextRound), holdsAfter, madeAfter;
    }

    /** Delete the consumed files. */
    method RemoveConsumed(disk: Disk, level: nat)
      requires level < |disk.levels|
      modifies this`consumedFiles, this`trail, disk`levels
      ensures disk.levels == old(disk.levels)[level := old(disk.levels)[level] - SetOf(old(consumedFiles))]
      ensures consumedFiles == []
      ensures trail == old(trail) + Removals(old(disk.levels)[level], old(consumedFiles))
    {
      ghost var all, start := consumedFiles, disk.levels[level];
      ghost var done: nat := 0;
      assert all[..0] == [] && start - SetOf([]) == start;
      while consumedFiles != []
        invariant done <= |all| && consumedFiles == all[done..]
        invariant disk.levels == old(disk.levels)[level := start - SetOf(all[..done])]
        invariant trail == old(trail) + Removals(start, all)[..done]
        decreases |consumedFiles|
      {
        var name := consumedFiles[0];
        RemovalIs(start, all, done);
        disk.SetDir(level, disk.levels[level] - {name});
        trail := trail + [disk.levels[level]];
        consumedFiles := consumedFiles[1..];
        done := done + 1;
      }
      assert all[..done] == all && Removals(start, all)[..done] == Removals(start, all);
    }

    /** Rebuild the last output in place as an SSTable, then delete the sources. */
    method FinishUnit(disk: Disk, level: nat, outputLevel: nat, k: nat, output: string, ghost rs: seq<Record>)
      returns (res: Result<string, CompactionError>)
      requires level < |disk.levels|
      modifies this`consumedFiles, this`trail, disk`levels
      ensures |disk.levels| == |old(disk.levels)|
      ensures var d := old(disk.levels)[level];
              && output in d && d[output].bytes == Encode(rs) && AllFit(rs)
              && SparseSize(rs, outputLevel) < U32_LIMIT ==>
              && res == Ok(output)
              && disk.levels == old(disk.levels)[level :=
                   Write(d, output, CompactBytes(rs, outputLevel, k)) - SetOf(old(consumedFiles))]
              && trail == old(trail) + FinishSteps(d, output, CompactBytes(rs, outputLevel, k), old(consumedFiles))
    {
      hide SparseSize;
      hide CompactBytes;
      hide Encode;
      hide AllFit;
      var d := disk.levels[level];
      if output !in d { return Err(NotFound); }
      ParseIff(d[output].bytes, rs);
      var table := BuildFromDataSection(d[output].bytes, outputLevel, k);
      if table.Err? { return Err(table.error); }
      disk.SetDir(level, Write(d, output, table.value));
      trail := trail + [disk.levels[level]];
      RemoveConsumed(disk, level);
      return Ok(output);
    }

    /** Pairwise passes over the files, rebuild, delete the sources. On a list of SSTables, newest
        first, the output is the SSTable of the newest-wins overlay of their stripped records, made
        in exactly ceil(log2 n) passes. */
    method Compact(id: nat, disk: Disk, level: nat, outputLevel: nat, k: nat, now: nat, ghost xs: seq<seq<Record>>)
      returns (res: Result<string, CompactionError>, ghost made: set<string>)
      requires level < |disk.levels|
      modifies this, disk`levels
      ensures |disk.levels| == |old(disk.levels)|
      ensures old(targetFiles) == [] ==> res == Err(EmptyUnit) && disk.levels == old(disk.levels)
      ensures var (was, names) := (old(disk.levels)[level], old(targetFiles));
              && UnitReady(was, names, xs) && |names| >= 2 && old(consumedFiles) == [] && old(trail) == []
              && SparseSize(Overlay(xs), outputLevel) < U32_LIMIT ==>
              && res == Ok(OutName(id, Passes(|names|) - 1, 0))
              && disk.levels == old(disk.levels)[level := disk.levels[level]]
              && Compacted(was, disk.levels[level], names, made, res.value, now,
                           CompactBytes(Overlay(xs), outputLevel, k))
              && AllFromUnit(made, id, Passes(|names|), 0)
              && Path(was, trail) && LastDir(was, trail) == disk.levels[level]
              && AllSafe(was, names, xs, CompactBytes(Overlay(xs), outputLevel, k), made, trail)
    {
      hide Going;
      hide UnitReady;
      hide OutName;
      hide Overlay;
      hide SparseSize;
      hide CompactBytes;
      hide Compacted;
      hide IsBin;
      hide Residue;
      hide SetOf;
      hide AllFromUnit;
      hide Write;
      hide Encode;
      hide AllFit;
      hide AllSafe;
      hide Path;
      hide LastDir;
      hide FinishSteps;
      hide Tournament;
      hide Round;
      made := {};
      if targetFiles == [] { return Err(EmptyUnit), made; }
      ghost var was, names := disk.levels[level], targetFiles;
      ghost var ok := UnitReady(was, names, xs) && |names| >= 2 && consumedFiles == [] && trail == [];
      ghost var cs, holds: Holdings := xs, map[];
      ghost var table := CompactBytes(Overlay(xs), outputLevel, k);
      if ok { holds := GoingStarts(was, names, xs, table, now, id); }
      var pass := 0;
      while |targetFiles| > 1
        invariant |disk.levels| == |old(disk.levels)|
        invariant ok ==> disk.levels == old(disk.levels)[level := disk.levels[level]]
        invariant ok ==> Going(was, names, xs, table, now, trail, disk.levels[level], holds, consumedFiles, made,
                               [], [], targetFiles, cs, id, pass, 0)
        invariant ok ==> |cs| == |targetFiles| >= 1 && Tournament(cs) == Tournament(xs)
        invariant ok ==> Passes(|targetFiles|) + pass == Passes(|names|)
        invariant ok && pass > 0 ==> targetFiles[0] == OutName(id, pass - 1, 0) && targetFiles[0] in made
        invariant ok && pass == 0 ==> targetFiles == names
        decreases |targetFiles|
      {
        var next;
        next, holds, made := RunPass(id, pass, disk, level, now, was, names, xs, table, holds, made, cs);
        if next.Err? { return Err(next.error), made; }
        targetFiles := next.value;
        pass := pass + 1;
        if ok {
          TournamentStep(cs);
          cs := Round(cs);
          GoingLength(was, names, xs, table, now, trail, disk.levels[level], holds, consumedFiles, made,
                      [], [], targetFiles, cs, id, pass, 0);
        }
      }
      if targetFiles == [] { return Err(NoOutput), made; }
      var output := targetFiles[0];
      assert targetFiles == [output];
      if ok {
        GoingEnds(was, names, xs, table, now, trail, disk.levels[level], holds, consumedFiles, made, output, cs, id,
                  pass);
      }
      targetFiles := [];
      res := FinishUnit(disk, level, outputLevel, k, output, Overlay(xs));
    }
  }
}
