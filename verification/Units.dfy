/** The bookkeeping of a compaction unit: the lists of files still to merge and already merged, what
    they hold, and what one merge, one pass and the end of the unit do to them. */
module Units {
  import opened Bytes
  import opened Records
  import opened Merging
  import opened Levels
  import opened Names
  import opened Storage
  import opened Join
  import opened Lifecycle

  ghost predicate NoDup(s: seq<string>) {
    forall i, j | 0 <= i < j < |s| :: s[i] != s[j]
  }

  ghost function SetOf(s: seq<string>): set<string> {
    set x | x in s
  }

  ghost predicate Holding(names: seq<string>, xs: seq<seq<Record>>, holds: Holdings) {
    |names| == |xs| && forall i | 0 <= i < |names| :: names[i] in holds && holds[names[i]] == xs[i]
  }

  /** Every live file is in exactly one of the two lists: outputs of this pass, and files the pass
      has yet to reach; `ys` and `zs` are what they hold. */
  ghost predicate Lists(next: seq<string>, ys: seq<seq<Record>>, todo: seq<string>, zs: seq<seq<Record>>,
                        holds: Holdings)
  {
    && Holding(next, ys, holds) && Holding(todo, zs, holds)
    && NoDup(next) && NoDup(todo) && SetOf(next) !! SetOf(todo)
    && holds.Keys == SetOf(next) + SetOf(todo)
  }

  /** An output this unit has already named. */
  ghost predicate FromUnit(name: string, id: nat, pass: nat, pair: nat) {
    exists p: nat, i: nat :: name == OutName(id, p, i) && (p < pass || (p == pass && i < pair))
  }

  ghost predicate AllFromUnit(made: set<string>, id: nat, pass: nat, pair: nat) {
    forall n | n in made :: FromUnit(n, id, pass, pair)
  }

  /** The files of a unit are distinct SSTables of the directory, with these records. */
  ghost predicate UnitReady(d: Dir, names: seq<string>, xs: seq<seq<Record>>) {
    && |names| == |xs| && NoDup(names)
    && forall i | 0 <= i < |names| ::
         names[i] in d && IsBin(names[i]) && HoldsRecords(SSTableFile(d[names[i]].bytes), xs[i])
  }

  lemma FreshOut(made: set<string>, id: nat, pass: nat, pair: nat)
    requires AllFromUnit(made, id, pass, pair)
    ensures OutName(id, pass, pair) !in made && IsTmp(OutName(id, pass, pair))
    ensures AllFromUnit(made + {OutName(id, pass, pair)}, id, pass, pair + 1)
  {
    hide OutName;
    hide IsTmp;
    OutNameIsTmp(id, pass, pair);
    var out := OutName(id, pass, pair);
    if out in made {
      var p: nat, i: nat :| out == OutName(id, p, i) && (p < pass || (p == pass && i < pair));
      OutNamesDiffer(id, pass, pair, id, p, i);
    }
    assert FromUnit(out, id, pass, pair + 1);
    forall n | n in made ensures FromUnit(n, id, pass, pair + 1) {
      var p: nat, i: nat :| n == OutName(id, p, i) && (p < pass || (p == pass && i < pair));
    }
  }

  lemma NextPass(made: set<string>, id: nat, pass: nat, pair: nat)
    requires AllFromUnit(made, id, pass, pair)
    ensures AllFromUnit(made, id, pass + 1, 0)
  {
    hide OutName;
    forall n | n in made ensures FromUnit(n, id, pass + 1, 0) {
      var p: nat, i: nat :| n == OutName(id, p, i) && (p < pass || (p == pass && i < pair));
    }
  }

  lemma PopTwo(s: seq<string>)
    requires NoDup(s) && |s| >= 2
    ensures s[0] != s[1] && NoDup(s[2..]) && SetOf(s[2..]) == SetOf(s) - {s[0], s[1]}
    ensures s[0] in SetOf(s) && s[1] in SetOf(s)
  {
    var rest := s[2..];
    forall i, j | 0 <= i < j < |rest| ensures rest[i] != rest[j] {
      assert s[i + 2] != s[j + 2];
    }
    assert s == [s[0], s[1]] + rest;
    forall n | n in rest ensures n != s[0] && n != s[1] {
      var i :| 0 <= i < |rest| && rest[i] == n;
      assert s[i + 2] == n;
    }
  }

  lemma Push(s: seq<string>, x: string)
    requires NoDup(s) && x !in SetOf(s)
    ensures NoDup(s + [x]) && SetOf(s + [x]) == SetOf(s) + {x}
  {
  }

  lemma HoldingAfter(names: seq<string>, xs: seq<seq<Record>>, holds: Holdings, m: Merged)
    requires Holding(names, xs, holds) && m.l in holds && m.r in holds && m.out !in holds
    requires m.l !in SetOf(names) && m.r !in SetOf(names)
    ensures Holding(names, xs, HoldsAfter(m, holds))
  {
    hide Joined;
    forall i | 0 <= i < |names| ensures names[i] in HoldsAfter(m, holds) && HoldsAfter(m, holds)[names[i]] == xs[i] {
      assert names[i] in SetOf(names);
    }
  }

  /** Merging the first two files still to do. */
  lemma ListStep(next: seq<string>, ys: seq<seq<Record>>, todo: seq<string>, zs: seq<seq<Record>>, holds: Holdings,
                 m: Merged)
    requires Lists(next, ys, todo, zs, holds) && |todo| >= 2
    requires m.l == todo[0] && m.r == todo[1] && m.out !in holds
    ensures m.l in holds && m.r in holds && m.l != m.r && |zs| == |todo| && holds[m.l] == zs[0] && holds[m.r] == zs[1]
    ensures Lists(next + [m.out], ys + [Merging.Join(zs[0], zs[1])], todo[2..], zs[2..], HoldsAfter(m, holds))
  {
    hide Merging.Join;
    hide NoDup;
    PopTwo(todo);
    Push(next, m.out);
    HoldingRest(todo, zs, holds);
    HoldingAfter(next, ys, holds, m);
    HoldingAfter(todo[2..], zs[2..], holds, m);
    HoldingSnoc(next, ys, m.out, Merging.Join(zs[0], zs[1]), HoldsAfter(m, holds));
    hide SetOf;
    assert HoldsAfter(m, holds).Keys == (holds.Keys - {m.l, m.r}) + {m.out};
  }

  lemma HoldingRest(names: seq<string>, xs: seq<seq<Record>>, holds: Holdings)
    requires Holding(names, xs, holds) && |names| >= 2
    ensures |xs| == |names| && names[0] in holds && names[1] in holds
    ensures holds[names[0]] == xs[0] && holds[names[1]] == xs[1]
    ensures Holding(names[2..], xs[2..], holds)
  {
  }

  lemma HoldingSnoc(names: seq<string>, xs: seq<seq<Record>>, n: string, x: seq<Record>, holds: Holdings)
    requires Holding(names, xs, holds) && n in holds && holds[n] == x
    ensures Holding(names + [n], xs + [x], holds)
  {
  }

  /** What holds before every merge of a pass: the file discipline, the two lists, the names. */
  ghost predicate UnitInv(was: Dir, inputs: set<string>, d: Dir, holds: Holdings, consumed: seq<string>,
                          made: set<string>,
                          next: seq<string>, ys: seq<seq<Record>>, todo: seq<string>, zs: seq<seq<Record>>,
                          id: nat, pass: nat, pair: nat)
  {
    && Good(was, inputs, d, holds, SetOf(consumed), made)
    && Counted(inputs, holds, made)
    && Lists(next, ys, todo, zs, holds)
    && AllFromUnit(made, id, pass, pair)
  }

  /** The next two files hold what the lists say, and the output name is free. */
  lemma UnitHeads(was: Dir, inputs: set<string>, d: Dir, holds: Holdings, consumed: set<string>, made: set<string>,
                  next: seq<string>, ys: seq<seq<Record>>, todo: seq<string>, zs: seq<seq<Record>>, m: Merged)
    requires Good(was, inputs, d, holds, consumed, made) && Lists(next, ys, todo, zs, holds)
    requires |todo| >= 2 && m.l == todo[0] && m.r == todo[1]
    ensures |zs| == |todo| && m.l in holds && m.r in holds && m.l != m.r && holds[m.l] == zs[0] && holds[m.r] == zs[1]
    ensures m.l in d && m.r in d && HoldsRecords(FileAt(d, m.l), zs[0]) && HoldsRecords(FileAt(d, m.r), zs[1])
  {
    hide Good;
    hide Lists;
    hide HoldsRecords;
    Heads(todo, zs, holds, next, ys);
    LiveAt(was, inputs, d, holds, consumed, made, m.l);
    LiveAt(was, inputs, d, holds, consumed, made, m.r);
  }

  lemma UnitStep(was: Dir, inputs: set<string>, d: Dir, holds: Holdings, consumed: seq<string>, made: set<string>,
                 next: seq<string>, ys: seq<seq<Record>>, todo: seq<string>, zs: seq<seq<Record>>,
                 id: nat, pass: nat, pair: nat, m: Merged)
    requires UnitInv(was, inputs, d, holds, consumed, made, next, ys, todo, zs, id, pass, pair)
    requires |todo| >= 2 && m.l == todo[0] && m.r == todo[1] && m.out == OutName(id, pass, pair)
    ensures |zs| == |todo| && m.l in holds && m.r in holds && Joined(m, holds) == Merging.Join(zs[0], zs[1])
    ensures m.l in d && m.r in d && m.l != m.r && m.out != m.l && m.out != m.r && DrainedName(m.l) != m.r
    ensures HoldsRecords(FileAt(d, m.l), zs[0]) && HoldsRecords(FileAt(d, m.r), zs[1])
    ensures UnitInv(was, inputs, DirAfter(m, d, holds), HoldsAfter(m, holds),
                    consumed + [DrainedName(m.l), DrainedName(m.r)], made + {m.out},
                    next + [m.out], ys + [Merging.Join(zs[0], zs[1])], todo[2..], zs[2..], id, pass, pair + 1)
  {
    hide OutName;
    hide IsTmp;
    hide DrainedName;
    hide Merging.Join;
    hide HoldsRecords;
    hide AllFromUnit;
    hide DirAfter;
    hide HoldsAfter;
    hide Good;
    hide Lists;
    FreshOut(made, id, pass, pair);
    UnitHeads(was, inputs, d, holds, SetOf(consumed), made, next, ys, todo, zs, m);
    Step(was, m, inputs, d, holds, SetOf(consumed), made);
    StepCount(m, inputs, holds, made);
    hide Counted;
    ListStep(next, ys, todo, zs, holds, m);
    assert SetOf(consumed + [DrainedName(m.l), DrainedName(m.r)]) == ConsumedAfter(m, SetOf(consumed));
  }

  lemma Heads(todo: seq<string>, zs: seq<seq<Record>>, holds: Holdings, next: seq<string>, ys: seq<seq<Record>>)
    requires Lists(next, ys, todo, zs, holds) && |todo| >= 2
    ensures |zs| == |todo| && todo[0] in holds && todo[1] in holds && todo[0] != todo[1]
    ensures holds[todo[0]] == zs[0] && holds[todo[1]] == zs[1]
  {
    PopTwo(todo);
    HoldingRest(todo, zs, holds);
  }

  lemma LiveAt(was: Dir, inputs: set<string>, d: Dir, holds: Holdings, consumed: set<string>, made: set<string>,
               n: string)
    requires Good(was, inputs, d, holds, consumed, made) && n in holds
    ensures n in d && HoldsRecords(FileAt(d, n), holds[n]) && (n in inputs || n in made)
  {
  }

  /** The odd file moves to the next pass as it is. */
  lemma CarryOdd(next: seq<string>, ys: seq<seq<Record>>, todo: seq<string>, zs: seq<seq<Record>>, holds: Holdings)
    requires Lists(next, ys, todo, zs, holds) && |todo| < 2
    ensures |zs| == |todo| && Lists([], [], next + todo, ys + zs, holds)
  {
    if |todo| == 1 {
      assert todo[0] in SetOf(todo);
      Push(next, todo[0]);
      assert todo == [todo[0]] && zs == [zs[0]];
      HoldingSnoc(next, ys, todo[0], zs[0], holds);
      assert SetOf(todo) == {todo[0]};
    } else {
      assert next + todo == next && ys + zs == ys;
    }
  }

  lemma InitialHoldings(names: seq<string>, xs: seq<seq<Record>>) returns (holds: Holdings)
    requires NoDup(names) && |xs| == |names|
    ensures Holding(names, xs, holds) && holds.Keys == SetOf(names)
  {
    holds := map i | 0 <= i < |names| :: names[i] := xs[i];
  }

  lemma ReadyLive(was: Dir, names: seq<string>, xs: seq<seq<Record>>, holds: Holdings)
    requires UnitReady(was, names, xs) && Holding(names, xs, holds) && holds.Keys == SetOf(names)
    ensures Live(SetOf(names), was, holds, {}) && forall n | n in SetOf(names) :: IsBin(n) && n in was
  {
    hide IsBin;
    hide HoldsRecords;
  }

  lemma UnitStarts(was: Dir, names: seq<string>, xs: seq<seq<Record>>, id: nat) returns (holds: Holdings)
    requires UnitReady(was, names, xs)
    ensures UnitInv(was, SetOf(names), was, holds, [], {}, [], [], names, xs, id, 0, 0)
    ensures |SetOf(names)| == |names|
  {
    hide Good;
    hide Live;
    hide Lists;
    hide IsBin;
    hide HoldsRecords;
    holds := InitialHoldings(names, xs);
    ReadyLive(was, names, xs, holds);
    Start(was, SetOf(names), holds);
    assert SetOf([]) == {};
    ListsStart(names, xs, holds);
    Cardinality(names);
  }

  lemma ListsStart(names: seq<string>, xs: seq<seq<Record>>, holds: Holdings)
    requires NoDup(names) && Holding(names, xs, holds) && holds.Keys == SetOf(names)
    ensures Lists([], [], names, xs, holds)
  {
  }

  lemma {:induction false} Cardinality(names: seq<string>)
    requires NoDup(names)
    ensures |SetOf(names)| == |names|
  {
    if names != [] {
      var n := |names| - 1;
      var rest := names[..n];
      Cardinality(rest);
      assert names == rest + [names[n]];
      assert SetOf(names) == SetOf(rest) + {names[n]};
      assert names[n] !in SetOf(rest);
    }
  }

  /** The result of a whole unit: the directory loses every file the unit touched and gains the
      output; `made` are the intermediates, one for each merge. */
  ghost predicate Compacted(was: Dir, d: Dir, names: seq<string>, made: set<string>, out: string, now: nat,
                            bytes: Bytes)
  {
    && out in d && out in made
    && |made| == |names| - 1
    && (out !in was ==> d[out].created == now)
    && (out in was ==> d[out].created == was[out].created)
    && d == Residue(was, SetOf(names), made)[out := FileData(d[out].created, bytes)]
  }

  /** When one file is left it is a raw section with the overlay of all inputs. */
  lemma LastHolds(was: Dir, names: seq<string>, xs: seq<seq<Record>>, d: Dir, holds: Holdings, consumed: seq<string>,
                  made: set<string>, output: string, cs: seq<seq<Record>>, id: nat, pass: nat)
    requires UnitReady(was, names, xs) && |names| >= 2
    requires UnitInv(was, SetOf(names), d, holds, consumed, made, [], [], [output], cs, id, pass, 0)
    requires |cs| == 1 && Tournament(cs) == Tournament(xs) && output in made
    ensures output in d && d[output].bytes == Encode(Overlay(xs)) && AllFit(Overlay(xs))
  {
    hide IsBin;
    hide IsTmp;
    hide HoldsRecords;
    hide Tournament;
    ReadySorted(was, names, xs);
    TournamentIsOverlay(xs);
    SingleTournament(cs);
    assert holds[[output][0]] == cs[0];
    LiveAt(was, SetOf(names), d, holds, SetOf(consumed), made, output);
    KindsDiffer(output);
    RawHolds(d[output].bytes, holds[output]);
  }

  lemma TournamentStep(cs: seq<seq<Record>>)
    requires |cs| >= 2
    ensures |Round(cs)| == (|cs| + 1) / 2 && Tournament(Round(cs)) == Tournament(cs)
    ensures Passes(|cs|) == 1 + Passes(|Round(cs)|)
  {
  }

  lemma SingleTournament(cs: seq<seq<Record>>)
    requires |cs| == 1
    ensures Tournament(cs) == cs[0]
  {
  }

  lemma RawHolds(b: Bytes, rs: seq<Record>)
    requires HoldsRecords(RawSection(b), rs)
    ensures b == Encode(rs) && AllFit(rs)
  {
  }

  lemma ReadySorted(was: Dir, names: seq<string>, xs: seq<seq<Record>>)
    requires UnitReady(was, names, xs)
    ensures AllSorted(xs)
  {
  }

  lemma UnitFinishes(was: Dir, names: seq<string>, d: Dir, holds: Holdings, consumed: seq<string>,
                     made: set<string>, output: string, now: nat, bytes: Bytes, cs: seq<seq<Record>>, id: nat,
                     pass: nat)
    requires |SetOf(names)| == |names| && Born(was, d, holds, made, now)
    requires UnitInv(was, SetOf(names), d, holds, consumed, made, [], [], [output], cs, id, pass, 0)
    requires output in made
    ensures output in d
    ensures Compacted(was, Write(d, output, bytes) - SetOf(consumed), names, made, output, now, bytes)
    ensures AllFromUnit(made, id, pass, 0)
  {
    hide AllFromUnit;
    assert SetOf([output]) == {output} && SetOf([]) == {};
    assert holds.Keys == {output};
    assert |holds.Keys| == 1;
    assert BornAt(was, d, output, now);
    hide IsBin;
    hide NoDup;
    Finish(was, SetOf(names), d, holds, SetOf(consumed), made, output, bytes);
  }

  lemma SameLength(was: Dir, inputs: set<string>, d: Dir, holds: Holdings, consumed: seq<string>, made: set<string>,
                   next: seq<string>, ys: seq<seq<Record>>, todo: seq<string>, zs: seq<seq<Record>>,
                   id: nat, pass: nat, pair: nat)
    requires UnitInv(was, inputs, d, holds, consumed, made, next, ys, todo, zs, id, pass, pair)
    ensures |zs| == |todo| && |ys| == |next|
  {
  }

  lemma PassEnds(was: Dir, inputs: set<string>, d: Dir, holds: Holdings, consumed: seq<string>, made: set<string>,
                 next: seq<string>, ys: seq<seq<Record>>, todo: seq<string>, zs: seq<seq<Record>>,
                 id: nat, pass: nat, pair: nat)
    requires UnitInv(was, inputs, d, holds, consumed, made, next, ys, todo, zs, id, pass, pair) && |todo| < 2
    ensures |zs| == |todo|
    ensures UnitInv(was, inputs, d, holds, consumed, made, [], [], next + todo, ys + zs, id, pass + 1, 0)
  {
    hide Good;
    CarryOdd(next, ys, todo, zs, holds);
    NextPass(made, id, pass, pair);
  }
}
