/** Every directory a compaction unit passes through. In each of them every input is in its place
    or a file stands for it, and no file the unit has nothing to do with has changed. */
module Trails {
  import opened Wrappers
  import opened Bytes
  import opened Records
  import opened Merging
  import opened Levels
  import opened Names
  import opened Storage
  import opened Join
  import opened Lifecycle
  import opened Units

  // ---- what must hold in every directory ----

  /** An input as it was, under its own name. */
  ghost predicate InPlace(was: Dir, d: Dir, n: string) {
    n in was && n in d && d[n] == was[n]
  }

  /** The encoded merge of a slice of the inputs that contains input `i`. */
  ghost predicate MergeOf(xs: seq<seq<Record>>, i: nat, b: Bytes, lo: nat, hi: nat) {
    lo <= i < hi <= |xs| && b == Encode(Overlay(xs[lo..hi]))
  }

  /** An intermediate that holds a merge with input `i` in it, or the rebuilt table. */
  ghost predicate StandsFor(xs: seq<seq<Record>>, table: Bytes, made: set<string>, d: Dir, i: nat, f: string) {
    && f in made && f in d
    && (d[f].bytes == table || exists lo, hi :: MergeOf(xs, i, d[f].bytes, lo, hi))
  }

  ghost predicate StoodFor(xs: seq<seq<Record>>, table: Bytes, made: set<string>, d: Dir, i: nat) {
    exists f :: StandsFor(xs, table, made, d, i, f)
  }

  ghost predicate SafeDir(was: Dir, names: seq<string>, xs: seq<seq<Record>>, table: Bytes, made: set<string>, d: Dir) {
    && (forall i | 0 <= i < |names| ::
          if names[i] in d then InPlace(was, d, names[i]) else StoodFor(xs, table, made, d, i))
    && Untouched(was, SetOf(names), d, made)
  }

  ghost predicate AllSafe(was: Dir, names: seq<string>, xs: seq<seq<Record>>, table: Bytes, made: set<string>,
                          trail: seq<Dir>)
  {
    forall j | 0 <= j < |trail| :: SafeDir(was, names, xs, table, made, trail[j])
  }

  lemma SafeDirMore(was: Dir, names: seq<string>, xs: seq<seq<Record>>, table: Bytes, made: set<string>, out: string,
                    d: Dir)
    requires SafeDir(was, names, xs, table, made, d)
    ensures SafeDir(was, names, xs, table, made + {out}, d)
  {
    hide IsDrainOf;
    hide MergeOf;
    hide InPlace;
    var more := made + {out};
    forall i | 0 <= i < |names|
      ensures if names[i] in d then InPlace(was, d, names[i]) else StoodFor(xs, table, more, d, i)
    {
      if names[i] !in d {
        var f :| StandsFor(xs, table, made, d, i, f);
        assert StandsFor(xs, table, more, d, i, f);
      }
    }
    forall n | Foreign(n, SetOf(names), more) ensures (n in d <==> n in was) && (n in d ==> d[n] == was[n]) {
      assert Foreign(n, SetOf(names), made);
    }
  }

  lemma AllSafeMore(was: Dir, names: seq<string>, xs: seq<seq<Record>>, table: Bytes, made: set<string>, out: string,
                    trail: seq<Dir>)
    requires AllSafe(was, names, xs, table, made, trail)
    ensures AllSafe(was, names, xs, table, made + {out}, trail)
  {
    hide SafeDir;
    forall j | 0 <= j < |trail| ensures SafeDir(was, names, xs, table, made + {out}, trail[j]) {
      SafeDirMore(was, names, xs, table, made, out, trail[j]);
    }
  }

  // ---- a path of single file operations ----

  ghost predicate With(d: Dir, n: string, f: FileData, e: Dir) {
    e == d[n := f]
  }

  ghost predicate Without(d: Dir, n: string, e: Dir) {
    e == d - {n}
  }

  /** At most one file was created, written, removed or renamed. */
  ghost predicate OneStep(d: Dir, e: Dir) {
    || e == d
    || (exists n, f :: With(d, n, f, e))
    || (exists n :: Without(d, n, e))
    || (exists n, to | n in d :: e == Rename(d, n, to))
  }

  /** The directory after `j` steps. */
  function AtStep(was: Dir, trail: seq<Dir>, j: nat): Dir
    requires j <= |trail|
  {
    if j == 0 then was else trail[j - 1]
  }

  function LastDir(was: Dir, trail: seq<Dir>): Dir {
    AtStep(was, trail, |trail|)
  }

  /** A path of single file operations from `was`. */
  ghost predicate Path(was: Dir, trail: seq<Dir>) {
    forall j | 0 <= j < |trail| :: OneStep(AtStep(was, trail, j), trail[j])
  }

  lemma PathConcat(was: Dir, a: seq<Dir>, b: seq<Dir>)
    requires Path(was, a) && Path(LastDir(was, a), b)
    ensures Path(was, a + b) && LastDir(was, a + b) == LastDir(LastDir(was, a), b)
  {
    hide OneStep;
    var t := a + b;
    forall j | 0 <= j < |t| ensures OneStep(AtStep(was, t, j), t[j]) {
      if j < |a| {
        assert OneStep(AtStep(was, a, j), a[j]);
      } else {
        assert OneStep(AtStep(LastDir(was, a), b, j - |a|), b[j - |a|]);
      }
    }
  }

  // ---- the live files cover the inputs ----

  /** One live file: an input, or an intermediate with the overlay of a slice of them. */
  ghost predicate Piece(names: seq<string>, xs: seq<seq<Record>>, made: set<string>,
                        f: string, v: seq<Record>, lo: nat, hi: nat)
  {
    && lo < hi <= |xs| && |names| == |xs|
    && v == SliceValue(xs, lo, hi)
    && if hi == lo + 1 then f == names[lo] else f in made
  }

  /** The live files, in order, hold the slices between neighbouring cuts. */
  ghost predicate Cut(names: seq<string>, xs: seq<seq<Record>>, made: set<string>,
                      files: seq<string>, vs: seq<seq<Record>>, cuts: seq<nat>)
  {
    && |files| == |vs| && |cuts| == |files| + 1
    && cuts[0] == 0 && cuts[|files|] == |xs|
    && forall p | 0 <= p < |files| :: Piece(names, xs, made, files[p], vs[p], cuts[p], cuts[p + 1])
  }

  ghost predicate Covered(names: seq<string>, xs: seq<seq<Record>>, made: set<string>,
                          files: seq<string>, vs: seq<seq<Record>>)
  {
    exists cuts :: Cut(names, xs, made, files, vs, cuts)
  }

  lemma CoverStart(names: seq<string>, xs: seq<seq<Record>>)
    requires |names| == |xs|
    ensures Covered(names, xs, {}, names, xs)
  {
    var cuts := seq(|names| + 1, p requires 0 <= p => p);
    assert Cut(names, xs, {}, names, xs, cuts);
  }

  /** Merging two neighbours removes the cut between them. */
  lemma CoverStep(names: seq<string>, xs: seq<seq<Record>>, made: set<string>,
                  next: seq<string>, ys: seq<seq<Record>>, todo: seq<string>, zs: seq<seq<Record>>, out: string)
    requires AllSorted(xs) && |next| == |ys| && |todo| == |zs| >= 2
    requires Covered(names, xs, made, next + todo, ys + zs)
    ensures Covered(names, xs, made + {out}, next + [out] + todo[2..], ys + [Merging.Join(zs[0], zs[1])] + zs[2..])
  {
    hide SliceValue;
    hide Merging.Join;
    hide Overlay;
    var (files, vs, q) := (next + todo, ys + zs, |next|);
    var cuts :| Cut(names, xs, made, files, vs, cuts);
    var (files2, vs2) := (next + [out] + todo[2..], ys + [Merging.Join(zs[0], zs[1])] + zs[2..]);
    var cuts2 := cuts[..q + 1] + cuts[q + 2..];
    assert Piece(names, xs, made, files[q], vs[q], cuts[q], cuts[q + 1]);
    assert Piece(names, xs, made, files[q + 1], vs[q + 1], cuts[q + 1], cuts[q + 2]);
    JoinSlices(xs, cuts[q], cuts[q + 1], cuts[q + 2]);
    WideSlice(xs, cuts[q], cuts[q + 2]);
    forall p | 0 <= p < |files2| ensures Piece(names, xs, made + {out}, files2[p], vs2[p], cuts2[p], cuts2[p + 1]) {
      var o := if p <= q then p else p + 1;
      assert Piece(names, xs, made, files[o], vs[o], cuts[o], cuts[o + 1]);
    }
    assert Cut(names, xs, made + {out}, files2, vs2, cuts2);
  }

  lemma WideSlice(xs: seq<seq<Record>>, lo: nat, hi: nat)
    requires lo + 1 < hi <= |xs|
    ensures SliceValue(xs, lo, hi) == Overlay(xs[lo..hi])
  {
  }

  lemma {:induction false} FindPiece(cuts: seq<nat>, n: nat, i: nat) returns (p: nat)
    requires n < |cuts| && cuts[0] <= i < cuts[n]
    ensures p < n && cuts[p] <= i < cuts[p + 1]
  {
    if cuts[n - 1] <= i { return n - 1; }
    p := FindPiece(cuts, n - 1, i);
  }

  // ---- from the live files to safety ----

  /** The inputs that are still live are untouched. */
  ghost predicate Intact(was: Dir, inputs: set<string>, d: Dir, holds: Holdings) {
    forall n | n in inputs && n in holds :: InPlace(was, d, n)
  }

  /** An input that is there is as it was. */
  ghost predicate Present(was: Dir, inputs: set<string>, d: Dir) {
    forall n | n in inputs && n in d :: InPlace(was, d, n)
  }

  lemma PresentIs(was: Dir, inputs: set<string>, d: Dir, holds: Holdings, consumed: set<string>)
    requires InputsKept(inputs, d, holds, consumed) && Intact(was, inputs, d, holds)
    ensures Present(was, inputs, d)
  {
    hide IsBin;
    hide DrainedName;
  }

  ghost predicate FilesHold(files: seq<string>, vs: seq<seq<Record>>, holds: Holdings) {
    |files| == |vs| && forall p | 0 <= p < |files| :: files[p] in holds && holds[files[p]] == vs[p]
  }

  /** The live files of a directory make it safe. */
  lemma LiveIsSafe(was: Dir, names: seq<string>, xs: seq<seq<Record>>, table: Bytes, made: set<string>, d: Dir,
                   holds: Holdings, files: seq<string>, vs: seq<seq<Record>>)
    requires |names| == |xs| && Live(SetOf(names), d, holds, made) && Present(was, SetOf(names), d)
    requires Untouched(was, SetOf(names), d, made) && forall n | n in made :: IsTmp(n)
    requires Covered(names, xs, made, files, vs) && FilesHold(files, vs, holds)
    ensures SafeDir(was, names, xs, table, made, d)
  {
    hide IsTmp;
    hide IsBin;
    hide HoldsRecords;
    hide Untouched;
    hide SliceValue;
    var cuts :| Cut(names, xs, made, files, vs, cuts);
    forall i | 0 <= i < |names|
      ensures if names[i] in d then InPlace(was, d, names[i]) else StoodFor(xs, table, made, d, i)
    {
      var p := FindPiece(cuts, |files|, i);
      var (f, lo, hi) := (files[p], cuts[p], cuts[p + 1]);
      assert Piece(names, xs, made, f, vs[p], lo, hi);
      if hi == lo + 1 {
        assert f == names[i];
      } else {
        WideSlice(xs, lo, hi);
        KindsDiffer(f);
        RawHolds(d[f].bytes, holds[f]);
        assert MergeOf(xs, i, d[f].bytes, lo, hi);
        assert StandsFor(xs, table, made, d, i, f);
      }
    }
  }

  /** Two directories agree on some names. */
  ghost predicate SameAt(d: Dir, e: Dir, holds: Holdings) {
    forall n | n in holds && n in d :: n in e && e[n] == d[n]
  }

  lemma LiveElsewhere(was: Dir, inputs: set<string>, d: Dir, e: Dir, holds: Holdings, made: set<string>, out: string)
    requires Live(inputs, d, holds, made) && Intact(was, inputs, d, holds) && SameAt(d, e, holds)
    ensures Live(inputs, e, holds, made + {out}) && Intact(was, inputs, e, holds)
  {
    hide IsBin;
    hide HoldsRecords;
  }

  lemma CoverMore(names: seq<string>, xs: seq<seq<Record>>, made: set<string>, out: string,
                  files: seq<string>, vs: seq<seq<Record>>)
    requires Covered(names, xs, made, files, vs)
    ensures Covered(names, xs, made + {out}, files, vs)
  {
    hide SliceValue;
    var cuts :| Cut(names, xs, made, files, vs, cuts);
    forall p | 0 <= p < |files| ensures Piece(names, xs, made + {out}, files[p], vs[p], cuts[p], cuts[p + 1]) {
      assert Piece(names, xs, made, files[p], vs[p], cuts[p], cuts[p + 1]);
    }
    assert Cut(names, xs, made + {out}, files, vs, cuts);
  }

  // ---- the four directories of one merge ----

  /** Create the output, write it, drain the left source, drain the right one: in this order. */
  function MergeSteps(d: Dir, l: string, r: string, out: string, now: nat, bytes: Bytes): (steps: seq<Dir>)
    requires l in d && r in d && l != r && out != l && out != r && DrainedName(l) != r
    ensures |steps| == 4 && steps[3] == AfterMerge(d, l, r, out, now, bytes)
  {
    var created := Create(d, out, now);
    var written := Write(created, out, bytes);
    var half := Drain(written, l);
    [created, written, half, Drain(half, r)]
  }

  lemma MergeStepsPath(d: Dir, l: string, r: string, out: string, now: nat, bytes: Bytes)
    requires l in d && r in d && l != r && out != l && out != r && DrainedName(l) != r
    ensures Path(d, MergeSteps(d, l, r, out, now, bytes))
    ensures LastDir(d, MergeSteps(d, l, r, out, now, bytes)) == AfterMerge(d, l, r, out, now, bytes)
  {
    hide DrainedName;
    hide IsBin;
    hide OneStep;
    var s := MergeSteps(d, l, r, out, now, bytes);
    PutStep(d, out, s[0][out]);
    PutStep(s[0], out, s[1][out]);
    DrainStep(s[1], l);
    DrainStep(s[2], r);
  }

  lemma PutStep(d: Dir, n: string, f: FileData)
    ensures OneStep(d, d[n := f])
  {
    assert With(d, n, f, d[n := f]);
  }

  lemma DrainStep(d: Dir, n: string)
    requires n in d
    ensures OneStep(d, Drain(d, n))
  {
  }

  lemma DropStep(d: Dir, n: string)
    ensures OneStep(d, d - {n})
  {
    assert Without(d, n, d - {n});
  }

  /** While the output is being written the sources are still there. */
  lemma BeforeDrain(was: Dir, names: seq<string>, xs: seq<seq<Record>>, table: Bytes, made: set<string>, d: Dir,
                    holds: Holdings, files: seq<string>, vs: seq<seq<Record>>, out: string, f: FileData)
    requires |names| == |xs| && Live(SetOf(names), d, holds, made) && Intact(was, SetOf(names), d, holds)
    requires Untouched(was, SetOf(names), d, made) && forall n | n in made :: IsTmp(n)
    requires Covered(names, xs, made, files, vs) && FilesHold(files, vs, holds)
    requires out !in holds && IsTmp(out) && out !in SetOf(names) && Present(was, SetOf(names), d)
    ensures SafeDir(was, names, xs, table, made + {out}, d[out := f])
  {
    hide IsTmp;
    hide IsBin;
    hide Live;
    hide Intact;
    hide Covered;
    hide FilesHold;
    hide IsDrainOf;
    hide SafeDir;
    var e := d[out := f];
    LiveElsewhere(was, SetOf(names), d, e, holds, made, out);
    assert Present(was, SetOf(names), e) by {
      forall n | n in SetOf(names) && n in e ensures InPlace(was, e, n) { assert InPlace(was, d, n); }
    }
    CoverMore(names, xs, made, out, files, vs);
    forall n | Foreign(n, SetOf(names), made + {out}) ensures (n in e <==> n in was) && (n in e ==> e[n] == was[n]) {
      assert Foreign(n, SetOf(names), made);
    }
    LiveIsSafe(was, names, xs, table, made + {out}, e, holds, files, vs);
  }

  /** Draining the right source changes no file but that one. */
  lemma HalfAgrees(d: Dir, r: string, holds: Holdings)
    requires r in d && r !in holds && (IsBin(r) ==> DrainedName(r) !in holds)
    ensures SameAt(Drain(d, r), d, holds)
    ensures forall n | n != r && n != DrainedName(r) ::
              (n in Drain(d, r) <==> n in d) && (n in d ==> Drain(d, r)[n] == d[n])
  {
    hide IsBin;
    hide DrainedName;
  }

  lemma IntactAfter(was: Dir, m: Merged, inputs: set<string>, d: Dir, holds: Holdings, made: set<string>)
    requires Mergeable(m, inputs, d, holds, made) && Intact(was, inputs, d, holds)
    ensures m.l in d && m.r in d && m.out != m.l && m.out != m.r && DrainedName(m.l) != m.r
    ensures Intact(was, inputs, DirAfter(m, d, holds), HoldsAfter(m, holds))
  {
    hide IsBin;
    hide IsTmp;
    hide DrainedName;
    hide DirAfter;
    hide Joined;
    MergeableKinds(m, inputs, d, holds, made);
    forall n | n in inputs && n in HoldsAfter(m, holds) ensures InPlace(was, DirAfter(m, d, holds), n) {
      assert InPlace(was, d, n);
      DirAfterAt(m, inputs, d, holds, made, n);
    }
  }

  /** The right source and its drained name are not among the live files after the merge. */
  lemma RightGone(m: Merged, inputs: set<string>, d: Dir, holds: Holdings, made: set<string>)
    requires Mergeable(m, inputs, d, holds, made)
    ensures m.r !in HoldsAfter(m, holds) && (IsBin(m.r) ==> DrainedName(m.r) !in HoldsAfter(m, holds))
    ensures Foreign(m.r, inputs, made) == false
    ensures forall n | Foreign(n, inputs, made) :: n != DrainedName(m.r)
  {
    hide IsBin;
    hide IsTmp;
    hide DrainedName;
    hide Joined;
    MergeableKinds(m, inputs, d, holds, made);
    KindsDiffer(m.r);
    KindsDiffer(m.out);
    SourceDrained(m.r, inputs, made);
  }

  lemma InputNotDrained(r: string, inputs: set<string>, d: Dir, holds: Holdings, made: set<string>, m: Merged)
    requires Mergeable(m, inputs, d, holds, made) && r == m.r
    ensures forall n | n in inputs :: n != DrainedName(r)
  {
    hide IsBin;
    hide IsTmp;
    hide DrainedName;
    hide Joined;
    MergeableKinds(m, inputs, d, holds, made);
  }

  /** After the left drain the output stands for the left source; the right one is still there. */
  lemma HalfDrained(was: Dir, m: Merged, names: seq<string>, xs: seq<seq<Record>>, table: Bytes, made: set<string>,
                    d: Dir, half: Dir, holds: Holdings, files: seq<string>, vs: seq<seq<Record>>)
    requires Mergeable(m, SetOf(names), d, holds, made) && |names| == |xs|
    requires m.r in half && m.l in d && m.r in d && DrainedName(m.l) != m.r && m.out != m.l && m.out != m.r
    requires Drain(half, m.r) == DirAfter(m, d, holds) && half[m.r] == d[m.r] && Present(was, SetOf(names), d)
    requires var (e, h, more) := (DirAfter(m, d, holds), HoldsAfter(m, holds), made + {m.out});
             && Live(SetOf(names), e, h, more) && Intact(was, SetOf(names), e, h)
             && Present(was, SetOf(names), e)
             && Untouched(was, SetOf(names), e, more) && (forall n | n in more :: IsTmp(n))
             && Covered(names, xs, more, files, vs) && FilesHold(files, vs, h)
    ensures SafeDir(was, names, xs, table, made + {m.out}, DirAfter(m, d, holds))
    ensures SafeDir(was, names, xs, table, made + {m.out}, half)
  {
    hide IsTmp;
    hide IsBin;
    hide Live;
    hide Intact;
    hide Covered;
    hide FilesHold;
    hide IsDrainOf;
    hide SafeDir;
    hide DirAfter;
    hide HoldsAfter;
    hide DrainedName;
    hide Drain;
    hide SameAt;
    var (e, h, more) := (DirAfter(m, d, holds), HoldsAfter(m, holds), made + {m.out});
    LiveIsSafe(was, names, xs, table, more, e, h, files, vs);
    RightGone(m, SetOf(names), d, holds, made);
    HalfAgrees(half, m.r, h);
    LiveElsewhere(was, SetOf(names), e, half, h, more, m.out);
    assert more + {m.out} == more;
    forall n | Foreign(n, SetOf(names), more) ensures (n in half <==> n in was) && (n in half ==> half[n] == was[n]) {
      assert Foreign(n, SetOf(names), made);
    }
    assert Present(was, SetOf(names), half) by {
      forall n | n in SetOf(names) && n in half ensures InPlace(was, half, n) {
        InputNotDrained(m.r, SetOf(names), d, holds, made, m);
        if n == m.r { assert InPlace(was, d, n); } else { assert InPlace(was, e, n); }
      }
    }
    LiveIsSafe(was, names, xs, table, more, half, h, files, vs);
  }

  /** All four directories of a merge are safe. */
  lemma MergeStepsSafe(was: Dir, m: Merged, names: seq<string>, xs: seq<seq<Record>>, table: Bytes, made: set<string>,
                       d: Dir, holds: Holdings, consumed: set<string>,
                       files: seq<string>, vs: seq<seq<Record>>, files2: seq<string>, vs2: seq<seq<Record>>)
    requires |names| == |xs| && Good(was, SetOf(names), d, holds, consumed, made) && Intact(was, SetOf(names), d, holds)
    requires m.l in holds && m.r in holds && m.l != m.r && IsTmp(m.out) && m.out !in made
    requires Covered(names, xs, made, files, vs) && FilesHold(files, vs, holds)
    requires Covered(names, xs, made + {m.out}, files2, vs2) && FilesHold(files2, vs2, HoldsAfter(m, holds))
    ensures m.l in d && m.r in d && m.out != m.l && m.out != m.r && DrainedName(m.l) != m.r
    ensures AllSafe(was, names, xs, table, made + {m.out},
                    MergeSteps(d, m.l, m.r, m.out, m.now, Encode(Joined(m, holds))))
    ensures Intact(was, SetOf(names), DirAfter(m, d, holds), HoldsAfter(m, holds))
  {
    hide IsTmp;
    hide IsBin;
    hide Intact;
    hide Covered;
    hide FilesHold;
    hide SafeDir;
    hide HoldsAfter;
    hide DrainedName;
    hide Joined;
    hide Mergeable;
    hide InputsKept;
    hide ConsumedDone;
    hide Live;
    hide Untouched;
    hide Present;
    var inputs := SetOf(names);
    hide SetOf;
    Step(was, m, inputs, d, holds, consumed, made);
    MergeReady(was, m, inputs, d, holds, consumed, made);
    IntactAfter(was, m, inputs, d, holds, made);
    PresentIs(was, inputs, d, holds, consumed);
    PresentIs(was, inputs, DirAfter(m, d, holds), HoldsAfter(m, holds), ConsumedAfter(m, consumed));
    var steps := MergeSteps(d, m.l, m.r, m.out, m.now, Encode(Joined(m, holds)));
    OutFree(was, m, inputs, d, holds, consumed, made);
    BeforeDrain(was, names, xs, table, made, d, holds, files, vs, m.out, steps[0][m.out]);
    BeforeDrain(was, names, xs, table, made, d, holds, files, vs, m.out, steps[1][m.out]);
    assert steps[0] == d[m.out := steps[0][m.out]] && steps[1] == d[m.out := steps[1][m.out]];
    HalfDrained(was, m, names, xs, table, made, d, steps[2], holds, files2, vs2);
  }

  lemma OutFree(was: Dir, m: Merged, inputs: set<string>, d: Dir, holds: Holdings, consumed: set<string>,
                made: set<string>)
    requires Good(was, inputs, d, holds, consumed, made) && IsTmp(m.out) && m.out !in made
    ensures m.out !in holds && m.out !in inputs && forall n | n in made :: IsTmp(n)
  {
    hide IsTmp;
    hide IsBin;
    hide HoldsRecords;
    KindsDiffer(m.out);
  }

  // ---- the trail of a unit ----

  /** What holds of the directories so far, the last of which is `d`. */
  ghost predicate Tracked(was: Dir, names: seq<string>, xs: seq<seq<Record>>, table: Bytes, trail: seq<Dir>,
                          d: Dir, holds: Holdings, made: set<string>, files: seq<string>, vs: seq<seq<Record>>)
  {
    && |names| == |xs| && AllSorted(xs)
    && AllSafe(was, names, xs, table, made, trail)
    && Path(was, trail) && LastDir(was, trail) == d
    && Covered(names, xs, made, files, vs)
    && Intact(was, SetOf(names), d, holds)
  }

  lemma TrailStarts(was: Dir, names: seq<string>, xs: seq<seq<Record>>, table: Bytes, holds: Holdings)
    requires UnitReady(was, names, xs)
    ensures Tracked(was, names, xs, table, [], was, holds, {}, names, xs)
  {
    hide IsBin;
    hide Covered;
    CoverStart(names, xs);
    ReadySorted(was, names, xs);
    forall n | n in SetOf(names) && n in holds ensures InPlace(was, was, n) {
      var i :| 0 <= i < |names| && names[i] == n;
    }
  }

  lemma ListsHold(next: seq<string>, ys: seq<seq<Record>>, todo: seq<string>, zs: seq<seq<Record>>, holds: Holdings)
    requires Lists(next, ys, todo, zs, holds)
    ensures FilesHold(next + todo, ys + zs, holds) && |next| == |ys| && |todo| == |zs|
  {
  }

  lemma AllSafeConcat(was: Dir, names: seq<string>, xs: seq<seq<Record>>, table: Bytes, made: set<string>,
                      a: seq<Dir>, b: seq<Dir>)
    requires AllSafe(was, names, xs, table, made, a) && AllSafe(was, names, xs, table, made, b)
    ensures AllSafe(was, names, xs, table, made, a + b)
  {
    hide SafeDir;
  }

  /** One merge extends the trail by its four directories, all of them safe. */
  lemma TrailStep(was: Dir, names: seq<string>, xs: seq<seq<Record>>, table: Bytes, trail: seq<Dir>,
                  d: Dir, holds: Holdings, consumed: seq<string>, made: set<string>,
                  next: seq<string>, ys: seq<seq<Record>>, todo: seq<string>, zs: seq<seq<Record>>,
                  id: nat, pass: nat, pair: nat, m: Merged)
    requires UnitInv(was, SetOf(names), d, holds, consumed, made, next, ys, todo, zs, id, pass, pair)
    requires Tracked(was, names, xs, table, trail, d, holds, made, next + todo, ys + zs)
    requires |todo| >= 2 && m.l == todo[0] && m.r == todo[1] && m.out == OutName(id, pass, pair)
    ensures |zs| == |todo| && m.l in holds && m.r in holds
    ensures m.l in d && m.r in d && m.l != m.r && m.out != m.l && m.out != m.r && DrainedName(m.l) != m.r
    ensures Tracked(was, names, xs, table,
                    trail + MergeSteps(d, m.l, m.r, m.out, m.now, Encode(Merging.Join(zs[0], zs[1]))),
                    DirAfter(m, d, holds), HoldsAfter(m, holds), made + {m.out},
                    next + [m.out] + todo[2..], ys + [Merging.Join(zs[0], zs[1])] + zs[2..])
  {
    hide Good;
    hide Lists;
    hide SafeDir;
    hide Covered;
    hide Intact;
    hide FilesHold;
    hide OutName;
    hide DrainedName;
    hide AllFromUnit;
    hide Merging.Join;
    hide HoldsAfter;
    hide Joined;
    hide HoldsRecords;
    hide AllSafe;
    hide SetOf;
    hide Path;
    hide LastDir;
    hide MergeSteps;
    hide AfterMerge;
    UnitStep(was, SetOf(names), d, holds, consumed, made, next, ys, todo, zs, id, pass, pair, m);
    FreshOut(made, id, pass, pair);
    ListsHold(next, ys, todo, zs, holds);
    var (files2, vs2) := (next + [m.out] + todo[2..], ys + [Merging.Join(zs[0], zs[1])] + zs[2..]);
    ListsHold(next + [m.out], ys + [Merging.Join(zs[0], zs[1])], todo[2..], zs[2..], HoldsAfter(m, holds));
    CoverStep(names, xs, made, next, ys, todo, zs, m.out);
    MergeStepsSafe(was, m, names, xs, table, made, d, holds, SetOf(consumed), next + todo, ys + zs, files2, vs2);
    AllSafeMore(was, names, xs, table, made, m.out, trail);
    var steps := MergeSteps(d, m.l, m.r, m.out, m.now, Encode(Joined(m, holds)));
    AllSafeConcat(was, names, xs, table, made + {m.out}, trail, steps);
    MergeStepsPath(d, m.l, m.r, m.out, m.now, Encode(Joined(m, holds)));
    PathConcat(was, trail, steps);
  }

  // ---- the end of a unit ----

  /** The directories while the consumed files are deleted one by one. */
  function Removals(d: Dir, consumed: seq<string>): (steps: seq<Dir>)
    ensures |steps| == |consumed|
  {
    seq(|consumed|, j requires 0 <= j < |consumed| => d - (set i | 0 <= i <= j :: consumed[i]))
  }

  lemma RemovalIs(d: Dir, consumed: seq<string>, j: nat)
    requires j < |consumed|
    ensures Removals(d, consumed)[j] == d - SetOf(consumed[..j]) - {consumed[j]} == d - SetOf(consumed[..j + 1])
    ensures Removals(d, consumed)[..j] + [Removals(d, consumed)[j]] == Removals(d, consumed)[..j + 1]
  {
    assert consumed[..j + 1] == consumed[..j] + [consumed[j]];
    assert (set i | 0 <= i <= j :: consumed[i]) == SetOf(consumed[..j + 1]);
  }

  /** The output is rebuilt, then the consumed files go. */
  function FinishSteps(d: Dir, output: string, table: Bytes, consumed: seq<string>): (steps: seq<Dir>)
    requires output in d
    ensures |steps| == 1 + |consumed|
  {
    [Write(d, output, table)] + Removals(Write(d, output, table), consumed)
  }

  lemma FinishStepsPath(d: Dir, output: string, table: Bytes, consumed: seq<string>)
    requires output in d
    ensures Path(d, FinishSteps(d, output, table, consumed))
    ensures LastDir(d, FinishSteps(d, output, table, consumed)) == Write(d, output, table) - SetOf(consumed)
  {
    hide OneStep;
    var (s, w) := (FinishSteps(d, output, table, consumed), Write(d, output, table));
    assert w - SetOf([]) == w && consumed[..0] == [];
    PutStep(d, output, w[output]);
    forall j | 0 <= j < |s| ensures OneStep(AtStep(d, s, j), s[j]) {
      if j > 0 {
        RemovalIs(w, consumed, j - 1);
        if j > 1 { RemovalIs(w, consumed, j - 2); }
        assert s[j - 1] == w - SetOf(consumed[..j - 1]);
        DropStep(s[j - 1], consumed[j - 1]);
      }
    }
    assert consumed[..|consumed|] == consumed;
    if consumed != [] { RemovalIs(w, consumed, |consumed| - 1); }
  }

  lemma SamePlace(was: Dir, d: Dir, e: Dir, n: string)
    requires InPlace(was, d, n) && n in e && e[n] == d[n]
    ensures InPlace(was, e, n)
  {
  }

  lemma TableIsSafe(was: Dir, names: seq<string>, xs: seq<seq<Record>>, table: Bytes, made: set<string>,
                    d: Dir, holds: Holdings, consumed: set<string>, output: string, gone: set<string>)
    requires Good(was, SetOf(names), d, holds, consumed, made) && |names| == |xs|
    requires output in holds && output in made && gone <= consumed && Intact(was, SetOf(names), d, holds)
    ensures output in d && SafeDir(was, names, xs, table, made, Write(d, output, table) - gone)
  {
    hide HoldsRecords;
    hide IsBin;
    hide IsTmp;
    hide IsDrainOf;
    hide InPlace;
    KindsDiffer(output);
    PresentIs(was, SetOf(names), d, holds, consumed);
    var e := Write(d, output, table) - gone;
    forall i | 0 <= i < |names|
      ensures if names[i] in e then InPlace(was, e, names[i]) else StoodFor(xs, table, made, e, i)
    {
      assert StandsFor(xs, table, made, e, i, output);
      if names[i] in e { SamePlace(was, d, e, names[i]); }
    }
    forall n | Foreign(n, SetOf(names), made) ensures (n in e <==> n in was) && (n in e ==> e[n] == was[n]) {
      assert n !in consumed && n != output;
    }
  }

  /** The rebuilt table stands for every input while everything else is deleted. */
  lemma TrailEnds(was: Dir, names: seq<string>, xs: seq<seq<Record>>, table: Bytes, trail: seq<Dir>,
                  d: Dir, holds: Holdings, consumed: seq<string>, made: set<string>, output: string,
                  cs: seq<seq<Record>>, id: nat, pass: nat)
    requires UnitInv(was, SetOf(names), d, holds, consumed, made, [], [], [output], cs, id, pass, 0)
    requires Tracked(was, names, xs, table, trail, d, holds, made, [output], cs)
    requires output in made
    ensures output in d
    ensures var all := trail + FinishSteps(d, output, table, consumed);
            && AllSafe(was, names, xs, table, made, all) && Path(was, all)
            && LastDir(was, all) == Write(d, output, table) - SetOf(consumed)
  {
    hide Good;
    hide AllFromUnit;
    hide Covered;
    hide SafeDir;
    hide Intact;
    assert [output][0] in holds;
    TableIsSafe(was, names, xs, table, made, d, holds, SetOf(consumed), output, {});
    var written := Write(d, output, table);
    assert written - {} == written;
    var steps := FinishSteps(d, output, table, consumed);
    forall j | 0 <= j < |steps| ensures SafeDir(was, names, xs, table, made, steps[j]) {
      if j > 0 {
        TableIsSafe(was, names, xs, table, made, d, holds, SetOf(consumed), output,
                    set i | 0 <= i <= j - 1 :: consumed[i]);
      }
    }
    AllSafeConcat(was, names, xs, table, made, trail, steps);
    hide OneStep;
    FinishStepsPath(d, output, table, consumed);
    PathConcat(was, trail, steps);
  }

  // ---- the unit with its trail ----

  /** The file discipline and the trail, before every merge of a pass. */
  ghost predicate Going(was: Dir, names: seq<string>, xs: seq<seq<Record>>, table: Bytes, now: nat, trail: seq<Dir>,
                        d: Dir, holds: Holdings, consumed: seq<string>, made: set<string>,
                        next: seq<string>, ys: seq<seq<Record>>, todo: seq<string>, zs: seq<seq<Record>>,
                        id: nat, pass: nat, pair: nat)
  {
    && UnitInv(was, SetOf(names), d, holds, consumed, made, next, ys, todo, zs, id, pass, pair)
    && Tracked(was, names, xs, table, trail, d, holds, made, next + todo, ys + zs)
    && Born(was, d, holds, made, now)
  }

  lemma GoingStarts(was: Dir, names: seq<string>, xs: seq<seq<Record>>, table: Bytes, now: nat, id: nat)
    returns (holds: Holdings)
    requires UnitReady(was, names, xs)
    ensures Going(was, names, xs, table, now, [], was, holds, [], {}, [], [], names, xs, id, 0, 0)
    ensures |SetOf(names)| == |names| && |xs| == |names|
  {
    hide UnitInv;
    hide UnitReady;
    hide SetOf;
    hide Tracked;
    holds := UnitStarts(was, names, xs, id);
    TrailStarts(was, names, xs, table, holds);
    AllDistinct(was, names, xs);
    assert [] + names == names && [] + xs == xs;
  }

  lemma GoingStep(was: Dir, names: seq<string>, xs: seq<seq<Record>>, table: Bytes, now: nat, trail: seq<Dir>,
                  d: Dir, holds: Holdings, consumed: seq<string>, made: set<string>,
                  next: seq<string>, ys: seq<seq<Record>>, todo: seq<string>, zs: seq<seq<Record>>,
                  id: nat, pass: nat, pair: nat, m: Merged)
    requires Going(was, names, xs, table, now, trail, d, holds, consumed, made, next, ys, todo, zs, id, pass, pair)
    requires |todo| >= 2 && m == Merged(todo[0], todo[1], OutName(id, pass, pair), now)
    ensures |zs| == |todo| && m.l in holds && m.r in holds
    ensures m.l in d && m.r in d && m.l != m.r && m.out != m.l && m.out != m.r && DrainedName(m.l) != m.r
    ensures JoinSpec(FileAt(d, m.l), FileAt(d, m.r)) == Ok(Encode(Merging.Join(zs[0], zs[1])))
    ensures var bytes := Encode(Merging.Join(zs[0], zs[1]));
            Going(was, names, xs, table, now, trail + MergeSteps(d, m.l, m.r, m.out, m.now, bytes),
                  AfterMerge(d, m.l, m.r, m.out, m.now, bytes), HoldsAfter(m, holds),
                  consumed + [DrainedName(m.l), DrainedName(m.r)], made + {m.out},
                  next + [m.out], ys + [Merging.Join(zs[0], zs[1])], todo[2..], zs[2..], id, pass, pair + 1)
  {
    hide UnitInv;
    hide Tracked;
    hide OutName;
    hide DrainedName;
    hide Merging.Join;
    hide HoldsAfter;
    hide AfterMerge;
    hide MergeSteps;
    hide HoldsRecords;
    hide JoinSpec;
    hide SetOf;
    UnitStep(was, SetOf(names), d, holds, consumed, made, next, ys, todo, zs, id, pass, pair, m);
    TrailStep(was, names, xs, table, trail, d, holds, consumed, made, next, ys, todo, zs, id, pass, pair, m);
    JoinsRecords(FileAt(d, m.l), FileAt(d, m.r), zs[0], zs[1]);
    UnitBorn(was, names, d, holds, consumed, made, next, ys, todo, zs, id, pass, pair, m);
  }

  lemma UnitBorn(was: Dir, names: seq<string>, d: Dir, holds: Holdings, consumed: seq<string>, made: set<string>,
                 next: seq<string>, ys: seq<seq<Record>>, todo: seq<string>, zs: seq<seq<Record>>,
                 id: nat, pass: nat, pair: nat, m: Merged)
    requires UnitInv(was, SetOf(names), d, holds, consumed, made, next, ys, todo, zs, id, pass, pair)
    requires |todo| >= 2 && m.l == todo[0] && m.r == todo[1] && m.out == OutName(id, pass, pair)
    requires Born(was, d, holds, made, m.now)
    ensures |zs| == |todo| && m.l in holds && m.r in holds && Joined(m, holds) == Merging.Join(zs[0], zs[1])
    ensures m.l in d && m.r in d && m.l != m.r && m.out != m.l && m.out != m.r && DrainedName(m.l) != m.r
    ensures Born(was, AfterMerge(d, m.l, m.r, m.out, m.now, Encode(Merging.Join(zs[0], zs[1]))), HoldsAfter(m, holds),
                 made + {m.out}, m.now)
  {
    hide OutName;
    hide IsTmp;
    hide DrainedName;
    hide Merging.Join;
    hide HoldsAfter;
    hide AfterMerge;
    hide Good;
    hide Lists;
    hide Born;
    FreshOut(made, id, pass, pair);
    UnitHeads(was, SetOf(names), d, holds, SetOf(consumed), made, next, ys, todo, zs, m);
    StepBorn(was, m, SetOf(names), d, holds, SetOf(consumed), made);
  }

  lemma GoingLength(was: Dir, names: seq<string>, xs: seq<seq<Record>>, table: Bytes, now: nat, trail: seq<Dir>,
                    d: Dir, holds: Holdings, consumed: seq<string>, made: set<string>,
                    next: seq<string>, ys: seq<seq<Record>>, todo: seq<string>, zs: seq<seq<Record>>,
                    id: nat, pass: nat, pair: nat)
    requires Going(was, names, xs, table, now, trail, d, holds, consumed, made, next, ys, todo, zs, id, pass, pair)
    ensures |zs| == |todo| && |ys| == |next|
  {
    hide UnitInv;
    hide Tracked;
    SameLength(was, SetOf(names), d, holds, consumed, made, next, ys, todo, zs, id, pass, pair);
  }

  lemma GoingPassEnds(was: Dir, names: seq<string>, xs: seq<seq<Record>>, table: Bytes, now: nat, trail: seq<Dir>,
                      d: Dir, holds: Holdings, consumed: seq<string>, made: set<string>,
                      next: seq<string>, ys: seq<seq<Record>>, todo: seq<string>, zs: seq<seq<Record>>,
                      id: nat, pass: nat, pair: nat)
    requires Going(was, names, xs, table, now, trail, d, holds, consumed, made, next, ys, todo, zs, id, pass, pair)
    requires |todo| < 2
    ensures |zs| == |todo|
    ensures Going(was, names, xs, table, now, trail, d, holds, consumed, made, [], [], next + todo, ys + zs, id,
                  pass + 1, 0)
  {
    hide UnitInv;
    hide Tracked;
    PassEnds(was, SetOf(names), d, holds, consumed, made, next, ys, todo, zs, id, pass, pair);
    assert [] + (next + todo) == next + todo && [] + (ys + zs) == ys + zs;
  }

  /** One file is left: it is raw and holds the overlay of all inputs; rebuilding it and deleting
      the rest finishes the unit through safe directories only. */
  lemma GoingEnds(was: Dir, names: seq<string>, xs: seq<seq<Record>>, table: Bytes, now: nat, trail: seq<Dir>,
                  d: Dir, holds: Holdings, consumed: seq<string>, made: set<string>, output: string,
                  cs: seq<seq<Record>>, id: nat, pass: nat)
    requires UnitReady(was, names, xs) && |names| >= 2
    requires Going(was, names, xs, table, now, trail, d, holds, consumed, made, [], [], [output], cs, id, pass, 0)
    requires |cs| == 1 && Tournament(cs) == Tournament(xs) && output in made
    ensures output in d && d[output].bytes == Encode(Overlay(xs)) && AllFit(Overlay(xs))
    ensures var all := trail + FinishSteps(d, output, table, consumed);
            && AllSafe(was, names, xs, table, made, all) && Path(was, all)
            && LastDir(was, all) == Write(d, output, table) - SetOf(consumed)
    ensures Compacted(was, Write(d, output, table) - SetOf(consumed), names, made, output, now, table)
    ensures AllFromUnit(made, id, pass, 0)
  {
    hide UnitInv;
    hide Tracked;
    hide UnitReady;
    hide AllSafe;
    hide Path;
    hide LastDir;
    hide FinishSteps;
    hide Tournament;
    hide Overlay;
    hide Encode;
    hide Compacted;
    hide AllFromUnit;
    assert [] + [output] == [output] && [] + cs == cs;
    LastHolds(was, names, xs, d, holds, consumed, made, output, cs, id, pass);
    TrailEnds(was, names, xs, table, trail, d, holds, consumed, made, output, cs, id, pass);
    AllDistinct(was, names, xs);
    UnitFinishes(was, names, d, holds, consumed, made, output, now, table, cs, id, pass);
  }

  lemma AllDistinct(was: Dir, names: seq<string>, xs: seq<seq<Record>>)
    requires UnitReady(was, names, xs)
    ensures |SetOf(names)| == |names| == |xs|
  {
    hide SetOf;
    hide IsBin;
    hide HoldsRecords;
    Cardinality(names);
  }
}
