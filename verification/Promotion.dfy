/** What promoting the outputs of the units of a level makes of the levels. */
module Promotion {
  import opened Bytes
  import opened Records
  import opened Merging
  import opened Levels
  import opened Names
  import opened Build
  import opened Lifecycle
  import opened Units
  import opened AllUnits

  /** The units of a list, from its newest end. */
  function UnitsOf<T>(names: seq<T>, targetChunks: nat): seq<seq<T>>
    requires targetChunks >= 2
  {
    if |names| >= targetChunks then [names[..targetChunks]] + UnitsOf(names[targetChunks..], targetChunks)
    else if |names| >= 2 then [names]
    else []
  }

  function DirAt(levels: seq<Dir>, i: nat): Dir {
    if i < |levels| then levels[i] else map[]
  }

  /** The levels after one unit took the files `names` of level `idx`: that level loses the files
      and every trace of the unit, the next gains one table under the promoted name. */
  ghost predicate Promoted(before: seq<Dir>, after: seq<Dir>, idx: nat, names: seq<string>, made: set<string>,
                           created: nat, bytes: Bytes)
    requires idx < |before| && |names| >= 2
  {
    && |made| == |names| - 1
    && AllFromUnit(made, 0, Passes(|names|), 0)
    && var next := DirAt(before, idx + 1)[PromotedName(OutName(0, Passes(|names|) - 1, 0)) := FileData(created, bytes)];
       after == before[..idx] + [Residue(before[idx], SetOf(names), made), next]
                + (if idx + 2 <= |before| then before[idx + 2..] else [])
  }

  /** A level that fits one unit is one unit. */
  lemma OneUnit(names: seq<string>, targetChunks: nat)
    requires 2 <= |names| <= targetChunks
    ensures UnitsOf(names, targetChunks) == [names]
  {
    if |names| == targetChunks {
      assert names[..targetChunks] == names && names[targetChunks..] == [];
    }
  }

  /** The levels after all units: level `idx` keeps what no unit touched, the next gains every output
      under its promoted name. */
  ghost predicate AllPromoted(before: seq<Dir>, after: seq<Dir>, idx: nat, units: seq<seq<string>>, ms: seq<Made>)
    requires idx < |before|
  {
    && |ms| == |units|
    && after == before[..idx] + [Leftover(before[idx], units, ms), MovedUp(DirAt(before, idx + 1), ms, |ms|)]
                + (if idx + 2 <= |before| then before[idx + 2..] else [])
  }

  /** For a level that is one unit this is the promotion of its output. */
  lemma OnePromoted(before: seq<Dir>, after: seq<Dir>, idx: nat, names: seq<string>, xs: seq<seq<Record>>,
                    ks: nat -> nat, nows: nat -> nat, ms: seq<Made>, targetChunks: nat)
    requires idx < |before| && 2 <= |names| <= targetChunks
    requires AllPromoted(before, after, idx, UnitsOf(names, targetChunks), ms)
    requires AllMade(before[idx], UnitsOf(names, targetChunks), [xs], idx + 2, ks, nows, ms)
    ensures |ms| == 1 && ms[0].file.bytes == CompactBytes(Overlay(xs), idx + 2, ks(0))
    ensures MadeAt(before[idx], ms[0], nows(0)) && ms[0].out == OutName(0, Passes(|names|) - 1, 0)
    ensures Promoted(before, after, idx, names, ms[0].names, ms[0].file.created,
                     CompactBytes(Overlay(xs), idx + 2, ks(0)))
  {
    hide OutName;
    hide PromotedName;
    hide AllFromUnit;
    hide SetOf;
    hide Foreign;
    hide CompactBytes;
    hide Overlay;
    hide UnitsOf;
    OneUnit(names, targetChunks);
    var m := ms[0];
    assert MadeBy(m, 0, [names][0], CompactBytes(Overlay([xs][0]), idx + 2, ks(0)));
    forall n ensures Spared(n, [names], ms) <==> Foreign(n, SetOf(names), m.names) {
      assert [names][0] == names;
    }
    assert Leftover(before[idx], [names], ms) == Residue(before[idx], SetOf(names), m.names);
    assert MovedUp(DirAt(before, idx + 1), ms, 1) == DirAt(before, idx + 1)[PromotedName(m.out) := m.file];
  }
}
