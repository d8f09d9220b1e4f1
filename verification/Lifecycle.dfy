/** Which files exist while a compaction unit runs. `holds` maps every file that is still to be
    read to its records; everything else the unit touched is consumed and waits for deletion. */
module Lifecycle {
  import opened Bytes
  import opened Records
  import opened Merging
  import opened Levels
  import opened Names
  import opened Storage
  import opened Join

  type Holdings = map<string, seq<Record>>

  /** `.bin` files are SSTables, anything else is a raw section. */
  function FileAt(d: Dir, name: string): TableFile
    requires name in d
  {
    if IsBin(name) then SSTableFile(d[name].bytes) else RawSection(d[name].bytes)
  }

  /** Rename a drained `.bin` away; a raw intermediate keeps its name. */
  function Drain(d: Dir, name: string): Dir
    requires name in d
  {
    if IsBin(name) then Rename(d, name, DrainedName(name)) else d
  }

  ghost predicate IsDrainOf(c: string, inputs: set<string>) {
    exists n :: n in inputs && DrainedName(n) == c
  }

  /** A name the unit has nothing to do with. */
  ghost predicate Foreign(n: string, inputs: set<string>, made: set<string>) {
    n !in inputs && n !in made && !IsDrainOf(n, inputs)
  }

  ghost predicate Live(inputs: set<string>, d: Dir, holds: Holdings, made: set<string>) {
    forall n | n in holds ::
      n in d && HoldsRecords(FileAt(d, n), holds[n]) && (n in inputs || n in made)
  }

  ghost predicate InputsKept(inputs: set<string>, d: Dir, holds: Holdings, consumed: set<string>) {
    forall n | n in inputs :: IsBin(n) && (n in holds || (n !in d && DrainedName(n) in consumed))
  }

  ghost predicate MadeKept(holds: Holdings, consumed: set<string>, made: set<string>) {
    forall n | n in made :: IsTmp(n) && (n in holds || n in consumed)
  }

  ghost predicate ConsumedDone(inputs: set<string>, holds: Holdings, consumed: set<string>, made: set<string>) {
    forall c | c in consumed :: c !in holds && (c in made || IsDrainOf(c, inputs))
  }

  ghost predicate Untouched(was: Dir, inputs: set<string>, d: Dir, made: set<string>) {
    forall n | Foreign(n, inputs, made) :: (n in d <==> n in was) && (n in d ==> d[n] == was[n])
  }

  /** What holds between any two merges of a unit. */
  ghost predicate Good(was: Dir, inputs: set<string>, d: Dir, holds: Holdings, consumed: set<string>,
                       made: set<string>)
  {
    && Live(inputs, d, holds, made)
    && InputsKept(inputs, d, holds, consumed)
    && MadeKept(holds, consumed, made)
    && ConsumedDone(inputs, holds, consumed, made)
    && Untouched(was, inputs, d, made)
  }

  /** Every merge makes one file of two. */
  ghost predicate Counted(inputs: set<string>, holds: Holdings, made: set<string>) {
    |made| + |holds| == |inputs|
  }

  /** The directory after one merge: the output written, then both sources drained. */
  function AfterMerge(d: Dir, l: string, r: string, out: string, now: nat, bytes: Bytes): Dir
    requires l in d && r in d && l != r && out != l && out != r
    requires IsBin(l) ==> DrainedName(l) != r
  {
    Drain(Drain(Write(Create(d, out, now), out, bytes), l), r)
  }

  /** Every name keeps its file except the output, the drained sources and their new names. */
  lemma AfterMergeAt(d: Dir, l: string, r: string, out: string, now: nat, bytes: Bytes, n: string)
    requires l in d && r in d && l != r && IsTmp(out) && out != l && out != r
    requires (IsBin(l) || IsTmp(l)) && (IsBin(r) || IsTmp(r))
    ensures DrainedName(l) != r
    ensures var e := AfterMerge(d, l, r, out, now, bytes);
            && out in e && e[out].bytes == bytes
            && e[out].created == (if out in d then d[out].created else now)
            && (IsBin(l) ==> l !in e) && (IsBin(r) ==> r !in e)
            && (n != out && n != l && n != r && n != DrainedName(l) && n != DrainedName(r) ==>
                  (n in e <==> n in d) && (n in e ==> e[n] == d[n]))
  {
    hide IsBin;
    hide IsTmp;
    hide DrainedName;
    KindsDiffer(l);
    KindsDiffer(r);
    KindsDiffer(out);
  }

  /** One merge step, named once for all the lemmas about it. */
  datatype Merged = Merged(l: string, r: string, out: string, now: nat)

  ghost predicate Mergeable(m: Merged, inputs: set<string>, d: Dir, holds: Holdings, made: set<string>) {
    && m.l in holds && m.r in holds && m.l != m.r
    && IsTmp(m.out) && m.out !in made
    && (forall n | n in holds :: n in d && (n in inputs || n in made))
    && (forall n | n in inputs :: IsBin(n))
    && (forall n | n in made :: IsTmp(n))
  }

  ghost function Joined(m: Merged, holds: Holdings): seq<Record>
    requires m.l in holds && m.r in holds
  {
    Merging.Join(holds[m.l], holds[m.r])
  }

  lemma MergeableKinds(m: Merged, inputs: set<string>, d: Dir, holds: Holdings, made: set<string>)
    requires Mergeable(m, inputs, d, holds, made)
    ensures m.l in d && m.r in d && m.out !in holds && m.out != m.l && m.out != m.r && DrainedName(m.l) != m.r
    ensures m.out !in inputs
    ensures forall n | n in holds :: n != m.l ==> n != DrainedName(m.l)
    ensures forall n | n in holds :: n != m.r ==> n != DrainedName(m.r)
    ensures forall n | n in inputs :: n != DrainedName(m.l) && n != DrainedName(m.r)
    ensures IsBin(m.l) || IsTmp(m.l)
    ensures IsBin(m.r) || IsTmp(m.r)
    ensures m.l in inputs <==> IsBin(m.l)
    ensures m.r in inputs <==> IsBin(m.r)
  {
    hide IsBin;
    hide IsTmp;
    hide DrainedName;
    forall n: string { KindsDiffer(n); }
  }

  ghost function HoldsAfter(m: Merged, holds: Holdings): Holdings
    requires m.l in holds && m.r in holds
  {
    (holds - {m.l, m.r})[m.out := Joined(m, holds)]
  }

  function ConsumedAfter(m: Merged, consumed: set<string>): set<string> {
    consumed + {DrainedName(m.l), DrainedName(m.r)}
  }

  ghost function DirAfter(m: Merged, d: Dir, holds: Holdings): Dir
    requires m.l in holds && m.r in holds
    requires m.l in d && m.r in d && m.l != m.r && m.out != m.l && m.out != m.r && DrainedName(m.l) != m.r
  {
    AfterMerge(d, m.l, m.r, m.out, m.now, Encode(Joined(m, holds)))
  }

  /** The merge step on the directory, name by name. */
  lemma DirAfterAt(m: Merged, inputs: set<string>, d: Dir, holds: Holdings, made: set<string>, n: string)
    requires Mergeable(m, inputs, d, holds, made)
    ensures m.l in d && m.r in d && m.out != m.l && m.out != m.r && DrainedName(m.l) != m.r
    ensures var e := DirAfter(m, d, holds);
            && m.out in e && e[m.out].bytes == Encode(Joined(m, holds))
            && e[m.out].created == (if m.out in d then d[m.out].created else m.now)
            && (n in {m.l, m.r} && n in inputs ==> n !in e)
            && (n !in {m.out, m.l, m.r, DrainedName(m.l), DrainedName(m.r)} ==>
                  (n in e <==> n in d) && (n in e ==> e[n] == d[n]))
  {
    hide IsBin;
    hide IsTmp;
    hide DrainedName;
    hide Joined;
    hide AfterMerge;
    MergeableKinds(m, inputs, d, holds, made);
    AfterMergeAt(d, m.l, m.r, m.out, m.now, Encode(Joined(m, holds)), n);
  }

  lemma StepLive(m: Merged, inputs: set<string>, d: Dir, holds: Holdings, made: set<string>)
    requires Mergeable(m, inputs, d, holds, made) && Live(inputs, d, holds, made)
    ensures m.l in d && m.r in d && m.out != m.l && m.out != m.r && DrainedName(m.l) != m.r
    ensures Live(inputs, DirAfter(m, d, holds), HoldsAfter(m, holds), made + {m.out})
  {
    hide IsBin;
    hide IsTmp;
    hide DrainedName;
    hide HoldsRecords;
    hide DirAfter;
    hide Joined;
    MergeableKinds(m, inputs, d, holds, made);
    JoinedHolds(m, inputs, d, holds, made);
    KindsDiffer(m.out);
    DirAfterAt(m, inputs, d, holds, made, m.out);
    forall n | n in holds && n != m.l && n != m.r
      ensures var e := DirAfter(m, d, holds); n in e && e[n] == d[n]
    {
      DirAfterAt(m, inputs, d, holds, made, n);
    }
  }

  lemma JoinedHolds(m: Merged, inputs: set<string>, d: Dir, holds: Holdings, made: set<string>)
    requires Mergeable(m, inputs, d, holds, made) && Live(inputs, d, holds, made)
    ensures HoldsRecords(RawSection(Encode(Joined(m, holds))), Joined(m, holds))
  {
    JoinIs(holds[m.l], holds[m.r]);
  }

  lemma StepInputs(m: Merged, inputs: set<string>, d: Dir, holds: Holdings, consumed: set<string>, made: set<string>)
    requires Mergeable(m, inputs, d, holds, made) && InputsKept(inputs, d, holds, consumed)
    ensures m.l in d && m.r in d && m.out != m.l && m.out != m.r && DrainedName(m.l) != m.r
    ensures InputsKept(inputs, DirAfter(m, d, holds), HoldsAfter(m, holds), ConsumedAfter(m, consumed))
  {
    hide IsBin;
    hide IsTmp;
    hide DrainedName;
    hide DirAfter;
    hide Joined;
    MergeableKinds(m, inputs, d, holds, made);
    forall n | n in inputs && (n !in holds || n == m.l || n == m.r)
      ensures n !in DirAfter(m, d, holds)
    {
      DirAfterAt(m, inputs, d, holds, made, n);
    }
  }

  lemma StepMade(m: Merged, inputs: set<string>, d: Dir, holds: Holdings, consumed: set<string>, made: set<string>)
    requires Mergeable(m, inputs, d, holds, made) && MadeKept(holds, consumed, made)
    ensures MadeKept(HoldsAfter(m, holds), ConsumedAfter(m, consumed), made + {m.out})
  {
    hide IsBin;
    hide IsTmp;
    hide DrainedName;
    hide Joined;
    KindsDiffer(m.l);
    KindsDiffer(m.r);
  }

  lemma StepConsumed(m: Merged, inputs: set<string>, d: Dir, holds: Holdings, consumed: set<string>, made: set<string>)
    requires Mergeable(m, inputs, d, holds, made)
    requires MadeKept(holds, consumed, made) && ConsumedDone(inputs, holds, consumed, made)
    ensures ConsumedDone(inputs, HoldsAfter(m, holds), ConsumedAfter(m, consumed), made + {m.out})
  {
    hide IsBin;
    hide IsTmp;
    hide DrainedName;
    hide Joined;
    hide IsDrainOf;
    MergeableKinds(m, inputs, d, holds, made);
    SourceDrained(m.l, inputs, made);
    SourceDrained(m.r, inputs, made);
    KindsDiffer(m.l);
    KindsDiffer(m.r);
    forall c | c in consumed && IsDrainOf(c, inputs) ensures c != m.out {
      DrainNotTmp(c, inputs);
    }
  }

  lemma DrainNotTmp(c: string, inputs: set<string>)
    requires IsDrainOf(c, inputs) && forall n | n in inputs :: IsBin(n)
    ensures !IsTmp(c) && !IsBin(c)
  {
    hide IsBin;
    hide IsTmp;
    hide DrainedName;
    var n :| n in inputs && DrainedName(n) == c;
    KindsDiffer(n);
  }

  lemma SourceDrained(n: string, inputs: set<string>, made: set<string>)
    requires n in inputs || n in made
    requires (forall x | x in inputs :: IsBin(x)) && (forall x | x in made :: IsTmp(x))
    ensures DrainedName(n) in made || IsDrainOf(DrainedName(n), inputs)
  {
    hide IsBin;
    hide IsTmp;
    hide DrainedName;
    KindsDiffer(n);
  }

  lemma StepUntouched(was: Dir, m: Merged, inputs: set<string>, d: Dir, holds: Holdings, made: set<string>)
    requires Mergeable(m, inputs, d, holds, made) && Untouched(was, inputs, d, made)
    ensures m.l in d && m.r in d && m.out != m.l && m.out != m.r && DrainedName(m.l) != m.r
    ensures Untouched(was, inputs, DirAfter(m, d, holds), made + {m.out})
  {
    hide IsBin;
    hide IsTmp;
    hide DrainedName;
    hide IsDrainOf;
    hide DirAfter;
    MergeableKinds(m, inputs, d, holds, made);
    SourceDrained(m.l, inputs, made);
    SourceDrained(m.r, inputs, made);
    forall n | Foreign(n, inputs, made + {m.out})
      ensures var e := DirAfter(m, d, holds); (n in e <==> n in was) && (n in e ==> e[n] == was[n])
    {
      assert Foreign(n, inputs, made);
      DirAfterAt(m, inputs, d, holds, made, n);
    }
  }

  /** One merge keeps the whole file discipline. */
  lemma Step(was: Dir, m: Merged, inputs: set<string>, d: Dir, holds: Holdings, consumed: set<string>,
             made: set<string>)
    requires Good(was, inputs, d, holds, consumed, made)
    requires m.l in holds && m.r in holds && m.l != m.r && IsTmp(m.out) && m.out !in made
    ensures m.l in d && m.r in d && m.out !in holds && m.out != m.l && m.out != m.r && DrainedName(m.l) != m.r
    ensures Good(was, inputs, DirAfter(m, d, holds), HoldsAfter(m, holds), ConsumedAfter(m, consumed), made + {m.out})
  {
    hide HoldsRecords;
    hide Live;
    hide InputsKept;
    hide MadeKept;
    hide ConsumedDone;
    hide Untouched;
    hide Mergeable;
    hide DirAfter;
    hide HoldsAfter;
    hide ConsumedAfter;
    hide IsTmp;
    hide DrainedName;
    MergeReady(was, m, inputs, d, holds, consumed, made);
    MergeableKinds(m, inputs, d, holds, made);
    StepLive(m, inputs, d, holds, made);
    StepInputs(m, inputs, d, holds, consumed, made);
    StepMade(m, inputs, d, holds, consumed, made);
    StepConsumed(m, inputs, d, holds, consumed, made);
    StepUntouched(was, m, inputs, d, holds, made);
  }

  /** A file the unit made was created at `now`, unless the unit found a file of that name. */
  ghost predicate BornAt(was: Dir, d: Dir, n: string, now: nat)
    requires n in d
  {
    d[n].created == if n in was then was[n].created else now
  }

  ghost predicate Born(was: Dir, d: Dir, holds: Holdings, made: set<string>, now: nat) {
    forall n | n in made && n in holds :: n in d && BornAt(was, d, n, now)
  }

  lemma StepBorn(was: Dir, m: Merged, inputs: set<string>, d: Dir, holds: Holdings, consumed: set<string>,
                 made: set<string>)
    requires Good(was, inputs, d, holds, consumed, made) && Born(was, d, holds, made, m.now)
    requires m.l in holds && m.r in holds && m.l != m.r && IsTmp(m.out) && m.out !in made
    ensures m.l in d && m.r in d && m.out !in holds && m.out != m.l && m.out != m.r && DrainedName(m.l) != m.r
    ensures Born(was, DirAfter(m, d, holds), HoldsAfter(m, holds), made + {m.out}, m.now)
  {
    hide HoldsRecords;
    hide InputsKept;
    hide MadeKept;
    hide ConsumedDone;
    hide Mergeable;
    hide DirAfter;
    hide Joined;
    hide IsTmp;
    hide IsBin;
    hide DrainedName;
    MergeReady(was, m, inputs, d, holds, consumed, made);
    MergeableKinds(m, inputs, d, holds, made);
    KindsDiffer(m.out);
    OutForeign(m, inputs, d, holds, made);
    forall n | n in made + {m.out} && n in HoldsAfter(m, holds)
      ensures n in DirAfter(m, d, holds) && BornAt(was, DirAfter(m, d, holds), n, m.now)
    {
      DirAfterAt(m, inputs, d, holds, made, n);
    }
  }

  lemma OutForeign(m: Merged, inputs: set<string>, d: Dir, holds: Holdings, made: set<string>)
    requires Mergeable(m, inputs, d, holds, made)
    ensures Foreign(m.out, inputs, made)
  {
    hide IsTmp;
    hide IsBin;
    hide DrainedName;
    hide IsDrainOf;
    KindsDiffer(m.out);
    if IsDrainOf(m.out, inputs) { DrainNotTmp(m.out, inputs); }
  }

  lemma StepCount(m: Merged, inputs: set<string>, holds: Holdings, made: set<string>)
    requires Counted(inputs, holds, made)
    requires m.l in holds && m.r in holds && m.l != m.r && m.out !in holds && m.out !in made
    ensures Counted(inputs, HoldsAfter(m, holds), made + {m.out})
  {
    hide Joined;
    assert HoldsAfter(m, holds).Keys == (holds.Keys - {m.l} - {m.r}) + {m.out};
    assert |holds.Keys - {m.l}| == |holds.Keys| - 1;
  }

  lemma MergeReady(was: Dir, m: Merged, inputs: set<string>, d: Dir, holds: Holdings, consumed: set<string>,
                   made: set<string>)
    requires Good(was, inputs, d, holds, consumed, made)
    requires m.l in holds && m.r in holds && m.l != m.r && IsTmp(m.out) && m.out !in made
    ensures Mergeable(m, inputs, d, holds, made)
  {
    hide HoldsRecords;
    hide IsBin;
    hide IsTmp;
    hide DrainedName;
    hide Untouched;
    hide ConsumedDone;
  }

  lemma Start(was: Dir, inputs: set<string>, holds: Holdings)
    requires holds.Keys == inputs && forall n | n in inputs :: IsBin(n) && n in was
    requires Live(inputs, was, holds, {})
    ensures Good(was, inputs, was, holds, {}, {}) && Counted(inputs, holds, {})
  {
    hide HoldsRecords;
    hide IsBin;
  }

  /** The old directory without the unit's inputs, their drained names and the intermediates. */
  ghost function Residue(was: Dir, inputs: set<string>, made: set<string>): Dir {
    map n | n in was && Foreign(n, inputs, made) :: was[n]
  }

  lemma FinishAt(was: Dir, inputs: set<string>, d: Dir, holds: Holdings, consumed: set<string>, made: set<string>,
                 last: string, n: string)
    requires Good(was, inputs, d, holds, consumed, made)
    requires holds.Keys == {last} && last in made
    ensures last in d && last !in consumed && !Foreign(last, inputs, made)
    ensures n != last ==> ((n in d && n !in consumed) <==> (n in was && Foreign(n, inputs, made)))
    ensures n != last && n in was && Foreign(n, inputs, made) ==> n in d && d[n] == was[n]
  {
    hide HoldsRecords;
    hide IsBin;
    hide IsTmp;
    hide DrainedName;
    KindsDiffer(last);
    if IsDrainOf(n, inputs) {
      var x :| x in inputs && DrainedName(x) == n;
      KindsDiffer(x);
    }
  }

  /** Once the last output is rebuilt and everything consumed is deleted, the directory is the old
      one without every file the unit touched, plus the output. */
  lemma Finish(was: Dir, inputs: set<string>, d: Dir, holds: Holdings, consumed: set<string>, made: set<string>,
               last: string, bytes: Bytes)
    requires Good(was, inputs, d, holds, consumed, made)
    requires holds.Keys == {last} && last in made
    ensures last in d
    ensures Write(d, last, bytes) - consumed
            == Residue(was, inputs, made)[last := FileData(d[last].created, bytes)]
  {
    hide Good;
    hide Foreign;
    FinishAt(was, inputs, d, holds, consumed, made, last, last);
    var a, b := Write(d, last, bytes) - consumed, Residue(was, inputs, made)[last := FileData(d[last].created, bytes)];
    forall n ensures n in a <==> n in b
             ensures n in a ==> a[n] == b[n]
    {
      FinishAt(was, inputs, d, holds, consumed, made, last, n);
    }
  }
}
