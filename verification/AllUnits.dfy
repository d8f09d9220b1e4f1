/** A level that is cut into several units: what is left of it after some of them, and that a unit
    finds its files as they were. */
module AllUnits {
  import opened Bytes
  import opened Records
  import opened Merging
  import opened Levels
  import opened Names
  import opened Join
  import opened Build
  import opened Lifecycle
  import opened Units

  /** No two units share a file, every file is a table with these records, every index fits. */
  ghost predicate UnitsReady(was: Dir, units: seq<seq<string>>, xss: seq<seq<seq<Record>>>, level: nat) {
    && |xss| == |units|
    && (forall j | 0 <= j < |units| ::
          |units[j]| >= 2 && UnitReady(was, units[j], xss[j]) && SparseSize(Overlay(xss[j]), level) < U32_LIMIT)
    && (forall i, j | 0 <= i < j < |units| :: SetOf(units[i]) !! SetOf(units[j]))
  }

  /** One unit's result: the output's name and file, and the names the unit used. */
  datatype Made = Made(names: set<string>, out: string, file: FileData)

  ghost predicate MadeBy(m: Made, id: nat, unit: seq<string>, bytes: Bytes)
    requires |unit| >= 2
  {
    && m.out == OutName(id, Passes(|unit|) - 1, 0) && m.out in m.names
    && |m.names| == |unit| - 1 && AllFromUnit(m.names, id, Passes(|unit|), 0)
    && m.file.bytes == bytes
  }

  /** The output was created at `now`, unless a file of that name was there before. */
  ghost predicate MadeAt(was: Dir, m: Made, now: nat) {
    && (m.out !in was ==> m.file.created == now)
    && (m.out in was ==> m.file.created == was[m.out].created)
  }

  /** Nothing of the first `|ms|` units: not their files, drained names or intermediates. */
  ghost predicate Spared(n: string, units: seq<seq<string>>, ms: seq<Made>)
    requires |ms| <= |units|
  {
    forall i | 0 <= i < |ms| :: Foreign(n, SetOf(units[i]), ms[i].names)
  }

  ghost function Leftover(was: Dir, units: seq<seq<string>>, ms: seq<Made>): Dir
    requires |ms| <= |units|
  {
    map n | n in was && Spared(n, units, ms) :: was[n]
  }

  function Outputs(ms: seq<Made>): Dir {
    if ms == [] then map[] else Outputs(ms[..|ms| - 1])[ms[|ms| - 1].out := ms[|ms| - 1].file]
  }

  /** The level after the first `|ms|` units. */
  ghost predicate UnitsDone(was: Dir, d: Dir, units: seq<seq<string>>, xss: seq<seq<seq<Record>>>, level: nat,
                            ks: nat -> nat, nows: nat -> nat, ms: seq<Made>)
  {
    && |ms| <= |units| == |xss|
    && d == Leftover(was, units, ms) + Outputs(ms)
    && AllMade(was, units, xss, level, ks, nows, ms)
  }

  ghost predicate AllMade(was: Dir, units: seq<seq<string>>, xss: seq<seq<seq<Record>>>, level: nat, ks: nat -> nat,
                          nows: nat -> nat, ms: seq<Made>) {
    && |ms| <= |units| == |xss|
    && forall i | 0 <= i < |ms| ::
         && |units[i]| >= 2 && MadeBy(ms[i], i, units[i], CompactBytes(Overlay(xss[i]), level, ks(i)))
         && MadeAt(was, ms[i], nows(i))
  }

  lemma UnitsStart(was: Dir, units: seq<seq<string>>, xss: seq<seq<seq<Record>>>, level: nat, ks: nat -> nat,
                   nows: nat -> nat)
    requires |xss| == |units|
    ensures UnitsDone(was, was, units, xss, level, ks, nows, [])
  {
    assert Leftover(was, units, []) == was;
  }

  lemma {:induction false} OutputsFrom(ms: seq<Made>, n: string)
    ensures n in Outputs(ms) <==> exists i :: 0 <= i < |ms| && ms[i].out == n
  {
    if ms != [] {
      var m := |ms| - 1;
      OutputsFrom(ms[..m], n);
      if i :| 0 <= i < m && ms[i].out == n { assert ms[..m][i].out == n; }
      if i :| 0 <= i < m && ms[..m][i].out == n { assert ms[i].out == n; }
    }
  }

  lemma MadeTmp(m: Made, id: nat, unit: seq<string>, bytes: Bytes)
    requires |unit| >= 2 && MadeBy(m, id, unit, bytes)
    ensures forall n | n in m.names :: IsTmp(n) && exists p: nat, i: nat :: n == OutName(id, p, i)
  {
    hide IsTmp;
    hide OutName;
    forall n | n in m.names ensures IsTmp(n) && exists p: nat, i: nat :: n == OutName(id, p, i) {
      assert FromUnit(n, id, Passes(|unit|), 0);
      var p: nat, i: nat :| n == OutName(id, p, i);
      OutNameIsTmp(id, p, i);
    }
  }

  /** An output name of another unit is foreign to a unit. */
  lemma OtherUnitForeign(id: nat, p: nat, i: nat, m: Made, id2: nat, unit: seq<string>, bytes: Bytes)
    requires |unit| >= 2 && MadeBy(m, id2, unit, bytes) && id != id2
    requires forall n | n in SetOf(unit) :: IsBin(n)
    ensures Foreign(OutName(id, p, i), SetOf(unit), m.names)
  {
    hide IsTmp;
    hide IsBin;
    hide OutName;
    var out := OutName(id, p, i);
    OutNameIsTmp(id, p, i);
    KindsDiffer(out);
    MadeTmp(m, id2, unit, bytes);
    if out in m.names {
      var q: nat, j: nat :| out == OutName(id2, q, j);
      OutNamesDiffer(id, p, i, id2, q, j);
    }
    if IsDrainOf(out, SetOf(unit)) { DrainNotTmp(out, SetOf(unit)); }
  }

  /** A table of a later unit is foreign to an earlier one. */
  lemma LaterTableForeign(n: string, m: Made, id: nat, unit: seq<string>, bytes: Bytes)
    requires |unit| >= 2 && MadeBy(m, id, unit, bytes) && IsBin(n) && n !in SetOf(unit)
    requires forall x | x in SetOf(unit) :: IsBin(x)
    ensures Foreign(n, SetOf(unit), m.names)
  {
    hide IsTmp;
    hide IsBin;
    KindsDiffer(n);
    MadeTmp(m, id, unit, bytes);
    if IsDrainOf(n, SetOf(unit)) { DrainNotTmp(n, SetOf(unit)); }
  }

  lemma UnitTables(was: Dir, unit: seq<string>, xs: seq<seq<Record>>)
    requires UnitReady(was, unit, xs)
    ensures forall n | n in SetOf(unit) :: IsBin(n) && n in was
  {
    hide IsBin;
    hide HoldsRecords;
  }

  /** The files of the next unit are as they were. */
  lemma NextReady(was: Dir, d: Dir, units: seq<seq<string>>, xss: seq<seq<seq<Record>>>, level: nat, ks: nat -> nat,
                  nows: nat -> nat, ms: seq<Made>)
    requires UnitsReady(was, units, xss, level) && UnitsDone(was, d, units, xss, level, ks, nows, ms) && |ms| < |units|
    ensures UnitReady(d, units[|ms|], xss[|ms|])
  {
    hide IsBin;
    hide HoldsRecords;
    hide MadeBy;
    hide CompactBytes;
    hide SparseSize;
    hide Overlay;
    hide Outputs;
    var (j, unit) := (|ms|, units[|ms|]);
    forall n | n in SetOf(unit) ensures n in d && d[n] == was[n] {
      NextTable(was, units, xss, level, ks, nows, ms, n);
    }
    hide UnitsDone;
    SameUnit(was, d, unit, xss[j]);
  }

  lemma SameUnit(was: Dir, d: Dir, unit: seq<string>, xs: seq<seq<Record>>)
    requires UnitReady(was, unit, xs) && forall n | n in SetOf(unit) :: n in was && n in d && d[n] == was[n]
    ensures UnitReady(d, unit, xs)
  {
    hide IsBin;
    hide HoldsRecords;
    forall i | 0 <= i < |unit|
      ensures unit[i] in d && IsBin(unit[i]) && HoldsRecords(SSTableFile(d[unit[i]].bytes), xs[i])
    {
      assert unit[i] in SetOf(unit);
    }
  }

  lemma NextTable(was: Dir, units: seq<seq<string>>, xss: seq<seq<seq<Record>>>, level: nat, ks: nat -> nat,
                  nows: nat -> nat, ms: seq<Made>, n: string)
    requires UnitsReady(was, units, xss, level) && AllMade(was, units, xss, level, ks, nows, ms) && |ms| < |units|
    requires n in SetOf(units[|ms|])
    ensures n in was && Spared(n, units, ms) && n !in Outputs(ms)
  {
    hide IsBin;
    hide IsTmp;
    hide MadeBy;
    hide CompactBytes;
    hide SparseSize;
    hide Overlay;
    hide UnitReady;
    hide Foreign;
    var j := |ms|;
    UnitTables(was, units[j], xss[j]);
    forall i | 0 <= i < j ensures Foreign(n, SetOf(units[i]), ms[i].names) && ms[i].out != n {
      var bytes := CompactBytes(Overlay(xss[i]), level, ks(i));
      UnitTables(was, units[i], xss[i]);
      assert SetOf(units[i]) !! SetOf(units[j]);
      LaterTableForeign(n, ms[i], i, units[i], bytes);
      MadeTmp(ms[i], i, units[i], bytes);
      OutIsMade(ms[i], i, units[i], bytes);
      KindsDiffer(n);
    }
    OutputsFrom(ms, n);
  }

  lemma OutIsMade(m: Made, id: nat, unit: seq<string>, bytes: Bytes)
    requires |unit| >= 2 && MadeBy(m, id, unit, bytes)
    ensures m.out in m.names && m.out == OutName(id, Passes(|unit|) - 1, 0)
  {
    hide OutName;
  }

  /** Outputs of earlier units survive the next unit. */
  lemma OutputsForeign(was: Dir, units: seq<seq<string>>, xss: seq<seq<seq<Record>>>, level: nat, ks: nat -> nat,
                       nows: nat -> nat, ms: seq<Made>, m: Made, bytes: Bytes, n: string)
    requires UnitsReady(was, units, xss, level) && AllMade(was, units, xss, level, ks, nows, ms) && |ms| < |units|
    requires MadeBy(m, |ms|, units[|ms|], bytes) && n in Outputs(ms)
    ensures Foreign(n, SetOf(units[|ms|]), m.names)
  {
    hide IsBin;
    hide MadeBy;
    hide CompactBytes;
    hide SparseSize;
    hide Overlay;
    hide UnitReady;
    hide Foreign;
    hide OutName;
    OutputsFrom(ms, n);
    var i :| 0 <= i < |ms| && ms[i].out == n;
    OutIsMade(ms[i], i, units[i], CompactBytes(Overlay(xss[i]), level, ks(i)));
    UnitTables(was, units[|ms|], xss[|ms|]);
    OtherUnitForeign(i, Passes(|units[i]|) - 1, 0, m, |ms|, units[|ms|], bytes);
  }

  /** Whether the next unit finds a file under its output's name was settled before the first unit. */
  lemma NextFree(was: Dir, d: Dir, units: seq<seq<string>>, xss: seq<seq<seq<Record>>>, level: nat, ks: nat -> nat,
                 nows: nat -> nat, ms: seq<Made>, out: string)
    requires UnitsReady(was, units, xss, level) && UnitsDone(was, d, units, xss, level, ks, nows, ms)
    requires |ms| < |units| && exists p: nat, i: nat :: out == OutName(|ms|, p, i)
    ensures (out in d <==> out in was) && (out in was ==> d[out] == was[out])
  {
    hide IsBin;
    hide MadeBy;
    hide CompactBytes;
    hide SparseSize;
    hide Overlay;
    hide UnitReady;
    hide Foreign;
    hide OutName;
    hide Outputs;
    var p: nat, i: nat :| out == OutName(|ms|, p, i);
    forall u | 0 <= u < |ms| ensures Foreign(out, SetOf(units[u]), ms[u].names) && ms[u].out != out {
      var bytes := CompactBytes(Overlay(xss[u]), level, ks(u));
      UnitTables(was, units[u], xss[u]);
      OtherUnitForeign(|ms|, p, i, ms[u], u, units[u], bytes);
      OutIsMade(ms[u], u, units[u], bytes);
      if ms[u].out == out { OutNamesDiffer(u, Passes(|units[u]|) - 1, 0, |ms|, p, i); }
    }
    OutputsFrom(ms, out);
  }

  /** One more unit. */
  lemma UnitDone(was: Dir, d: Dir, e: Dir, units: seq<seq<string>>, xss: seq<seq<seq<Record>>>, level: nat,
                 ks: nat -> nat, nows: nat -> nat, ms: seq<Made>, names: set<string>)
    requires UnitsReady(was, units, xss, level) && UnitsDone(was, d, units, xss, level, ks, nows, ms) && |ms| < |units|
    requires var (unit, bytes) := (units[|ms|], CompactBytes(Overlay(xss[|ms|]), level, ks(|ms|)));
             && Compacted(d, e, unit, names, OutName(|ms|, Passes(|unit|) - 1, 0), nows(|ms|), bytes)
             && AllFromUnit(names, |ms|, Passes(|unit|), 0)
    ensures var out := OutName(|ms|, Passes(|units[|ms|]|) - 1, 0);
            out in e && UnitsDone(was, e, units, xss, level, ks, nows, ms + [Made(names, out, e[out])])
  {
    hide CompactBytes;
    hide SparseSize;
    hide Overlay;
    hide UnitReady;
    hide OutName;
    hide AllFromUnit;
    hide SetOf;
    hide Residue;
    hide AllMade;
    hide Leftover;
    hide Outputs;
    hide Compacted;
    hide MadeBy;
    hide MadeAt;
    var (j, unit) := (|ms|, units[|ms|]);
    var (out, bytes) := (OutName(j, Passes(|unit|) - 1, 0), CompactBytes(Overlay(xss[j]), level, ks(j)));
    UnitMade(d, e, j, unit, names, nows(j), bytes);
    var m := Made(names, out, e[out]);
    NextFree(was, d, units, xss, level, ks, nows, ms, out);
    SameBirth(was, d, m, nows(j));
    MadeMore(was, units, xss, level, ks, nows, ms, m);
    UnitLeaves(was, d, e, units, xss, level, ks, nows, ms, m, bytes);
  }

  lemma UnitMade(d: Dir, e: Dir, id: nat, unit: seq<string>, names: set<string>, now: nat, bytes: Bytes)
    requires |unit| >= 2 && Compacted(d, e, unit, names, OutName(id, Passes(|unit|) - 1, 0), now, bytes)
    requires AllFromUnit(names, id, Passes(|unit|), 0)
    ensures var out := OutName(id, Passes(|unit|) - 1, 0);
            && out in e && MadeBy(Made(names, out, e[out]), id, unit, bytes) && MadeAt(d, Made(names, out, e[out]), now)
            && e == Residue(d, SetOf(unit), names)[out := e[out]]
  {
    hide OutName;
    hide AllFromUnit;
    hide SetOf;
    hide Residue;
  }

  lemma SameBirth(was: Dir, d: Dir, m: Made, now: nat)
    requires MadeAt(d, m, now) && (m.out in d <==> m.out in was) && (m.out in was ==> d[m.out] == was[m.out])
    ensures MadeAt(was, m, now)
  {
  }

  lemma MadeMore(was: Dir, units: seq<seq<string>>, xss: seq<seq<seq<Record>>>, level: nat, ks: nat -> nat,
                 nows: nat -> nat, ms: seq<Made>, m: Made)
    requires AllMade(was, units, xss, level, ks, nows, ms) && |ms| < |units| && |units[|ms|]| >= 2
    requires MadeBy(m, |ms|, units[|ms|], CompactBytes(Overlay(xss[|ms|]), level, ks(|ms|)))
    requires MadeAt(was, m, nows(|ms|))
    ensures AllMade(was, units, xss, level, ks, nows, ms + [m])
  {
    hide CompactBytes;
    hide Overlay;
    hide MadeBy;
    hide MadeAt;
  }

  /** The directory after one more unit. */
  lemma UnitLeaves(was: Dir, d: Dir, e: Dir, units: seq<seq<string>>, xss: seq<seq<seq<Record>>>, level: nat,
                   ks: nat -> nat, nows: nat -> nat, ms: seq<Made>, m: Made, bytes: Bytes)
    requires UnitsReady(was, units, xss, level) && UnitsDone(was, d, units, xss, level, ks, nows, ms) && |ms| < |units|
    requires MadeBy(m, |ms|, units[|ms|], bytes)
    requires e == Residue(d, SetOf(units[|ms|]), m.names)[m.out := m.file]
    ensures e == Leftover(was, units, ms + [m]) + Outputs(ms + [m])
  {
    hide UnitsReady;
    hide AllMade;
    hide MadeBy;
    hide Foreign;
    hide SetOf;
    hide Outputs;
    hide Leftover;
    hide Residue;
    forall n | n in Outputs(ms) ensures Foreign(n, SetOf(units[|ms|]), m.names) {
      OutputsForeign(was, units, xss, level, ks, nows, ms, m, bytes, n);
    }
    ResidueOf(was, d, units, ms, m);
    OutputsSnoc(ms, m);
    assert (Leftover(was, units, ms + [m]) + Outputs(ms))[m.out := m.file]
           == Leftover(was, units, ms + [m]) + Outputs(ms)[m.out := m.file];
  }

  lemma OutputsSnoc(ms: seq<Made>, m: Made)
    ensures Outputs(ms + [m]) == Outputs(ms)[m.out := m.file]
  {
    assert (ms + [m])[..|ms|] == ms;
  }

  lemma ResidueOf(was: Dir, d: Dir, units: seq<seq<string>>, ms: seq<Made>, m: Made)
    requires |ms| < |units| && d == Leftover(was, units, ms) + Outputs(ms)
    requires forall n | n in Outputs(ms) :: Foreign(n, SetOf(units[|ms|]), m.names)
    ensures Residue(d, SetOf(units[|ms|]), m.names) == Leftover(was, units, ms + [m]) + Outputs(ms)
  {
    hide Foreign;
    hide Outputs;
    forall n ensures Spared(n, units, ms + [m]) <==> Spared(n, units, ms) && Foreign(n, SetOf(units[|ms|]), m.names) {
      assert forall i | 0 <= i < |ms| :: (ms + [m])[i] == ms[i];
    }
  }

  // ---- moving the outputs up ----

  /** The next level with the first `n` outputs under their promoted names. */
  function MovedUp(next: Dir, ms: seq<Made>, n: nat): Dir
    requires n <= |ms|
  {
    if n == 0 then next else MovedUp(next, ms, n - 1)[PromotedName(ms[n - 1].out) := ms[n - 1].file]
  }

  ghost function OutNames(ms: seq<Made>): (outs: seq<string>)
    ensures |outs| == |ms|
  {
    seq(|ms|, i requires 0 <= i < |ms| => ms[i].out)
  }

  lemma {:induction false} OutputsAt(ms: seq<Made>, i: nat)
    requires i < |ms| && forall j | i < j < |ms| :: ms[j].out != ms[i].out
    ensures ms[i].out in Outputs(ms) && Outputs(ms)[ms[i].out] == ms[i].file
  {
    var m := |ms| - 1;
    if i < m { OutputsAt(ms[..m], i); }
  }

  lemma OutsDiffer(was: Dir, units: seq<seq<string>>, xss: seq<seq<seq<Record>>>, level: nat, ks: nat -> nat,
                   nows: nat -> nat, ms: seq<Made>, i: nat, j: nat)
    requires AllMade(was, units, xss, level, ks, nows, ms) && i < |ms| && j < |ms| && i != j
    ensures ms[i].out != ms[j].out
  {
    hide CompactBytes;
    hide Overlay;
    hide OutName;
    if ms[i].out == ms[j].out { OutNamesDiffer(i, Passes(|units[i]|) - 1, 0, j, Passes(|units[j]|) - 1, 0); }
  }

  /** An output is still in the level when its turn comes. */
  lemma OutputStays(was: Dir, d: Dir, units: seq<seq<string>>, xss: seq<seq<seq<Record>>>, level: nat, ks: nat -> nat,
                    nows: nat -> nat, ms: seq<Made>, i: nat)
    requires UnitsDone(was, d, units, xss, level, ks, nows, ms) && i < |ms|
    ensures var rest := d - SetOf(OutNames(ms)[..i]); ms[i].out in rest && rest[ms[i].out] == ms[i].file
  {
    hide MadeBy;
    hide CompactBytes;
    hide Overlay;
    hide Leftover;
    forall j | 0 <= j < |ms| && j != i ensures ms[j].out != ms[i].out {
      OutsDiffer(was, units, xss, level, ks, nows, ms, j, i);
    }
    OutputsAt(ms, i);
  }

  /** Without the outputs, what is left is what the units spared. */
  lemma OutputsGone(was: Dir, d: Dir, units: seq<seq<string>>, xss: seq<seq<seq<Record>>>, level: nat, ks: nat -> nat,
                    nows: nat -> nat, ms: seq<Made>)
    requires UnitsDone(was, d, units, xss, level, ks, nows, ms)
    ensures d - SetOf(OutNames(ms)) == Leftover(was, units, ms)
  {
    hide CompactBytes;
    hide Overlay;
    hide OutName;
    hide AllFromUnit;
    var outs := SetOf(OutNames(ms));
    forall n ensures n in Outputs(ms) <==> n in outs {
      OutputsFrom(ms, n);
      if i :| 0 <= i < |ms| && ms[i].out == n { assert OutNames(ms)[i] == n; }
    }
    forall n | n in outs ensures n !in Leftover(was, units, ms) {
      var i :| 0 <= i < |ms| && OutNames(ms)[i] == n;
      assert MadeBy(ms[i], i, units[i], CompactBytes(Overlay(xss[i]), level, ks(i)));
      assert !Foreign(n, SetOf(units[i]), ms[i].names);
    }
  }
}
