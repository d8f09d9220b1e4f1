/** What compaction computes: the tombstone filter, the two-way merge in which the left (newer)
    side wins, and the pairwise tournament over a whole list of tables. */
module Merging {
  import opened Wrappers
  import opened Bytes
  import opened Records

  // ---- the tombstone filter ----

  /** The compactor's test. It looks at the key length too, so only the tombstones of
      one-byte keys pass it. */
  predicate IsTombstone(r: Record) {
    |r.key| == 1 && |r.value| == 1 && r.value[0] == 255
  }

  function StripFrom(rs: seq<Record>, i: nat): seq<Record>
    decreases |rs| - i
  {
    if i >= |rs| then []
    else if IsTombstone(rs[i]) then StripFrom(rs, i + 1)
    else [rs[i]] + StripFrom(rs, i + 1)
  }

  function Strip(rs: seq<Record>): seq<Record> {
    StripFrom(rs, 0)
  }

  /** What stripping leaves of one lookup. */
  function Kept(key: Bytes, v: Option<Bytes>): Option<Bytes> {
    if v.Some? && IsTombstone(Record(key, v.value)) then None else v
  }

  ghost predicate Stripped(rs: seq<Record>) {
    forall i | 0 <= i < |rs| :: !IsTombstone(rs[i])
  }

  lemma {:induction false} StripMembers(rs: seq<Record>, i: nat)
    ensures forall s | s in StripFrom(rs, i) :: s in rs[if i <= |rs| then i else |rs|..] && !IsTombstone(s)
    decreases |rs| - i
  {
    if i < |rs| {
      StripMembers(rs, i + 1);
      assert rs[i..] == [rs[i]] + rs[i + 1..];
    }
  }

  lemma {:induction false} StripSorted(rs: seq<Record>, i: nat)
    requires Sorted(rs)
    ensures Sorted(StripFrom(rs, i)) && Stripped(StripFrom(rs, i))
    decreases |rs| - i
  {
    StripMembers(rs, i);
    if i < |rs| {
      StripSorted(rs, i + 1);
      StripMembers(rs, i + 1);
      var rest := StripFrom(rs, i + 1);
      forall j | 0 <= j < |rest| ensures Less(rs[i].key, rest[j].key) {
        assert rest[j] in rs[i + 1..];
        var p :| i + 1 <= p < |rs| && rs[p] == rest[j];
        assert Less(rs[i].key, rs[p].key);
      }
      ConsSorted(rs[i], rest);
    }
  }

  lemma {:induction false} StripFits(rs: seq<Record>, i: nat)
    requires AllFit(rs)
    ensures AllFit(StripFrom(rs, i))
    decreases |rs| - i
  {
    if i < |rs| { StripFits(rs, i + 1); }
  }

  lemma {:induction false} StripFind(rs: seq<Record>, i: nat, key: Bytes)
    requires Sorted(rs)
    ensures Find(StripFrom(rs, i), key) == Kept(key, ScanFrom(rs, i, key))
    decreases |rs| - i
  {
    if i < |rs| {
      StripFind(rs, i + 1, key);
      FindCons(rs[i], StripFrom(rs, i + 1), key);
      if rs[i].key == key {
        if i + 1 < |rs| { assert Less(rs[i].key, rs[i + 1].key); }
        SortedMissesBelow(rs, i + 1, key);
      }
    }
  }

  lemma {:induction false} StripShrinks(rs: seq<Record>, i: nat)
    ensures |Encode(StripFrom(rs, i))| <= |EncodeFrom(rs, i)|
    decreases |rs| - i
  {
    if i < |rs| {
      StripShrinks(rs, i + 1);
      EncodeCons(rs[i], StripFrom(rs, i + 1));
    }
  }

  lemma {:induction false} StripIdentity(rs: seq<Record>, i: nat)
    requires Stripped(rs) && i <= |rs|
    ensures StripFrom(rs, i) == rs[i..]
    decreases |rs| - i
  {
    if i < |rs| { StripIdentity(rs, i + 1); }
  }

  // ---- the two-way merge ----

  datatype Turn = Turn(out: Record, i: nat, j: nat)

  /** One turn of the merge at `l[i..]` and `r[j..]`: the record it writes and where it leaves
      both sides. On equal keys the left record wins and both advance. */
  function NextTurn(l: seq<Record>, i: nat, r: seq<Record>, j: nat): (t: Turn)
    requires i <= |l| && j <= |r| && (i < |l| || j < |r|)
    ensures i <= t.i <= |l| && j <= t.j <= |r| && i + j < t.i + t.j
  {
    if i == |l| then Turn(r[j], i, j + 1)
    else if j == |r| then Turn(l[i], i + 1, j)
    else
      match Cmp(l[i].key, r[j].key)
      case Lt => Turn(l[i], i + 1, j)
      case Gt => Turn(r[j], i, j + 1)
      case Eq => Turn(l[i], i + 1, j + 1)
  }

  function MergeFrom(l: seq<Record>, i: nat, r: seq<Record>, j: nat): seq<Record>
    requires i <= |l| && j <= |r|
    decreases |l| - i + |r| - j
  {
    if i == |l| && j == |r| then []
    else
      var t := NextTurn(l, i, r, j);
      [t.out] + MergeFrom(l, t.i, r, t.j)
  }

  function Merge(l: seq<Record>, r: seq<Record>): seq<Record> {
    MergeFrom(l, 0, r, 0)
  }

  /** What `join_tables` writes for two sections. */
  function Join(l: seq<Record>, r: seq<Record>): seq<Record> {
    Merge(Strip(l), Strip(r))
  }

  ghost predicate Above(key: Bytes, rs: seq<Record>, i: nat) {
    forall p | i <= p < |rs| :: Less(key, rs[p].key)
  }

  /** A key below everything still to be merged is below everything in the output. */
  lemma {:induction false} MergeAbove(key: Bytes, l: seq<Record>, i: nat, r: seq<Record>, j: nat)
    requires i <= |l| && j <= |r|
    requires Above(key, l, i) && Above(key, r, j)
    ensures Above(key, MergeFrom(l, i, r, j), 0)
    decreases |l| - i + |r| - j
  {
    if i < |l| || j < |r| {
      var t := NextTurn(l, i, r, j);
      MergeAbove(key, l, t.i, r, t.j);
    }
  }

  lemma AboveFrom(key: Bytes, rs: seq<Record>, i: nat)
    requires Sorted(rs) && i < |rs| && (key == rs[i].key || Less(key, rs[i].key))
    ensures Above(key, rs, i + 1)
    ensures Less(key, rs[i].key) ==> Above(key, rs, i)
  {
    forall p | i + 1 <= p < |rs| ensures Less(key, rs[p].key) {
      assert Less(rs[i].key, rs[p].key);
      if key != rs[i].key { LessTransitive(key, rs[i].key, rs[p].key); }
    }
  }

  /** A turn writes the least key still to be merged, and drops it from both sides. */
  lemma TurnIsLeast(l: seq<Record>, i: nat, r: seq<Record>, j: nat)
    requires i <= |l| && j <= |r| && (i < |l| || j < |r|)
    requires Sorted(l) && Sorted(r)
    ensures var t := NextTurn(l, i, r, j); Above(t.out.key, l, t.i) && Above(t.out.key, r, t.j)
  {
    var t := NextTurn(l, i, r, j);
    if i < |l| && j < |r| {
      CmpLaws(l[i].key, r[j].key);
      CmpLaws(r[j].key, l[i].key);
    }
    if i < |l| { AboveFrom(t.out.key, l, i); }
    if j < |r| { AboveFrom(t.out.key, r, j); }
  }

  lemma {:induction false} MergeSorted(l: seq<Record>, i: nat, r: seq<Record>, j: nat)
    requires i <= |l| && j <= |r|
    requires Sorted(l) && Sorted(r)
    ensures Sorted(MergeFrom(l, i, r, j))
    decreases |l| - i + |r| - j
  {
    if i < |l| || j < |r| {
      var t := NextTurn(l, i, r, j);
      MergeSorted(l, t.i, r, t.j);
      TurnIsLeast(l, i, r, j);
      MergeAbove(t.out.key, l, t.i, r, t.j);
      ConsSorted(t.out, MergeFrom(l, t.i, r, t.j));
    }
  }

  function Override(newer: Option<Bytes>, older: Option<Bytes>): Option<Bytes> {
    if newer.Some? then newer else older
  }

  lemma TurnFind(l: seq<Record>, i: nat, r: seq<Record>, j: nat, key: Bytes)
    requires i <= |l| && j <= |r| && (i < |l| || j < |r|)
    requires Sorted(l) && Sorted(r)
    ensures var t := NextTurn(l, i, r, j);
            Override(ScanFrom(l, i, key), ScanFrom(r, j, key)) ==
            if t.out.key == key then Some(t.out.value) else Override(ScanFrom(l, t.i, key), ScanFrom(r, t.j, key))
  {
    if i < |l| && j < |r| {
      CmpLaws(l[i].key, r[j].key);
      CmpLaws(r[j].key, l[i].key);
      if Less(r[j].key, l[i].key) { SortedMissesBelow(l, i, r[j].key); }
    }
  }

  /** The merge is the map override: left where it has the key, else right. */
  lemma {:induction false} MergeFind(l: seq<Record>, i: nat, r: seq<Record>, j: nat, key: Bytes)
    requires i <= |l| && j <= |r|
    requires Sorted(l) && Sorted(r)
    ensures Find(MergeFrom(l, i, r, j), key) == Override(ScanFrom(l, i, key), ScanFrom(r, j, key))
    decreases |l| - i + |r| - j
  {
    if i < |l| || j < |r| {
      var t := NextTurn(l, i, r, j);
      MergeFind(l, t.i, r, t.j, key);
      TurnFind(l, i, r, j, key);
      FindCons(t.out, MergeFrom(l, t.i, r, t.j), key);
    }
  }

  lemma {:induction false} MergeFits(l: seq<Record>, i: nat, r: seq<Record>, j: nat)
    requires i <= |l| && j <= |r|
    requires AllFit(l) && AllFit(r)
    ensures AllFit(MergeFrom(l, i, r, j))
    decreases |l| - i + |r| - j
  {
    if i < |l| || j < |r| {
      var t := NextTurn(l, i, r, j);
      MergeFits(l, t.i, r, t.j);
    }
  }

  lemma {:induction false} MergeStripped(l: seq<Record>, i: nat, r: seq<Record>, j: nat)
    requires i <= |l| && j <= |r|
    requires Stripped(l) && Stripped(r)
    ensures Stripped(MergeFrom(l, i, r, j))
    decreases |l| - i + |r| - j
  {
    if i < |l| || j < |r| {
      var t := NextTurn(l, i, r, j);
      MergeStripped(l, t.i, r, t.j);
    }
  }

  lemma {:induction false} MergeShrinks(l: seq<Record>, i: nat, r: seq<Record>, j: nat)
    requires i <= |l| && j <= |r|
    ensures |Encode(MergeFrom(l, i, r, j))| <= |EncodeFrom(l, i)| + |EncodeFrom(r, j)|
    decreases |l| - i + |r| - j
  {
    hide EncodeRecord;
    hide Cmp;
    if i < |l| || j < |r| {
      var t := NextTurn(l, i, r, j);
      MergeShrinks(l, t.i, r, t.j);
      EncodeCons(t.out, MergeFrom(l, t.i, r, t.j));
    }
  }

  /** What one merge promises: sorted, stripped, writable output, no longer than its inputs,
      that looks up as stripped-left over stripped-right. */
  lemma JoinIs(l: seq<Record>, r: seq<Record>)
    requires Sorted(l) && Sorted(r)
    ensures Sorted(Join(l, r)) && Stripped(Join(l, r))
    ensures AllFit(l) && AllFit(r) ==> AllFit(Join(l, r))
    ensures |Encode(Join(l, r))| <= |Encode(l)| + |Encode(r)|
    ensures forall k :: Find(Join(l, r), k) == Override(Kept(k, Find(l, k)), Kept(k, Find(r, k)))
  {
    var sl, sr := Strip(l), Strip(r);
    StripSorted(l, 0);
    StripSorted(r, 0);
    MergeSorted(sl, 0, sr, 0);
    MergeStripped(sl, 0, sr, 0);
    if AllFit(l) && AllFit(r) {
      StripFits(l, 0);
      StripFits(r, 0);
      MergeFits(sl, 0, sr, 0);
    }
    MergeShrinks(sl, 0, sr, 0);
    StripShrinks(l, 0);
    StripShrinks(r, 0);
    forall k ensures Find(Join(l, r), k) == Override(Kept(k, Find(l, k)), Kept(k, Find(r, k))) {
      MergeFind(sl, 0, sr, 0, k);
      StripFind(l, 0, k);
      StripFind(r, 0, k);
    }
  }

  lemma MergeAssociative(a: seq<Record>, b: seq<Record>, c: seq<Record>)
    requires Sorted(a) && Sorted(b) && Sorted(c)
    ensures Merge(Merge(a, b), c) == Merge(a, Merge(b, c))
  {
    MergeSorted(a, 0, b, 0);
    MergeSorted(b, 0, c, 0);
    MergeSorted(Merge(a, b), 0, c, 0);
    MergeSorted(a, 0, Merge(b, c), 0);
    forall k ensures Find(Merge(Merge(a, b), c), k) == Find(Merge(a, Merge(b, c)), k) {
      MergeFind(a, 0, b, 0, k);
      MergeFind(b, 0, c, 0, k);
      MergeFind(Merge(a, b), 0, c, 0, k);
      MergeFind(a, 0, Merge(b, c), 0, k);
    }
    SortedExtensional(Merge(Merge(a, b), c), Merge(a, Merge(b, c)));
  }

  lemma {:induction false} MergeEmpty(l: seq<Record>, i: nat)
    requires i <= |l|
    ensures MergeFrom(l, i, [], 0) == l[i..]
    decreases |l| - i
  {
    if i < |l| { MergeEmpty(l, i + 1); }
  }

  // ---- the tournament ----

  ghost predicate AllSorted(xs: seq<seq<Record>>) {
    forall i | 0 <= i < |xs| :: Sorted(xs[i])
  }

  /** One pass: neighbours are joined, an odd last one is carried over unchanged. */
  function Round(xs: seq<seq<Record>>): (r: seq<seq<Record>>)
    ensures |r| == (|xs| + 1) / 2
  {
    if |xs| < 2 then xs else [Join(xs[0], xs[1])] + Round(xs[2..])
  }

  /** A pass joins the first two lists and goes on with the rest. */
  lemma RoundStep(ys: seq<seq<Record>>, zs: seq<seq<Record>>)
    ensures |zs| >= 2 ==> ys + Round(zs) == ys + [Join(zs[0], zs[1])] + Round(zs[2..])
    ensures |zs| < 2 ==> Round(zs) == zs
  {
    hide Join;
  }

  function Tournament(xs: seq<seq<Record>>): seq<Record>
    requires xs != []
    decreases |xs|
  {
    if |xs| == 1 then xs[0] else Tournament(Round(xs))
  }

  /** The reference: newest first, each list laid over everything older. */
  function Overlay(xs: seq<seq<Record>>): seq<Record> {
    if xs == [] then [] else Merge(Strip(xs[0]), Overlay(xs[1..]))
  }

  lemma {:induction false} OverlaySorted(xs: seq<seq<Record>>)
    requires AllSorted(xs)
    ensures Sorted(Overlay(xs))
  {
    if xs != [] {
      OverlaySorted(xs[1..]);
      StripSorted(xs[0], 0);
      MergeSorted(Strip(xs[0]), 0, Overlay(xs[1..]), 0);
    }
  }

  lemma {:induction false} RoundSorted(xs: seq<seq<Record>>)
    requires AllSorted(xs)
    ensures AllSorted(Round(xs))
  {
    if |xs| >= 2 {
      RoundSorted(xs[2..]);
      JoinIs(xs[0], xs[1]);
    }
  }

  lemma StripJoin(a: seq<Record>, b: seq<Record>)
    requires Sorted(a) && Sorted(b)
    ensures Strip(Join(a, b)) == Join(a, b)
  {
    JoinIs(a, b);
    StripIdentity(Join(a, b), 0);
  }

  /** A pass changes the lists but not what they overlay to. */
  lemma {:induction false} RoundKeepsOverlay(xs: seq<seq<Record>>)
    requires AllSorted(xs)
    ensures Overlay(Round(xs)) == Overlay(xs)
  {
    if |xs| >= 2 {
      var a, b, rest := xs[0], xs[1], xs[2..];
      RoundKeepsOverlay(rest);
      RoundSorted(xs);
      OverlaySorted(rest);
      StripJoin(a, b);
      StripSorted(a, 0);
      StripSorted(b, 0);
      MergeAssociative(Strip(a), Strip(b), Overlay(rest));
      assert Round(xs)[1..] == Round(rest);
      assert xs[1..][1..] == rest;
      assert Overlay(xs[1..]) == Merge(Strip(b), Overlay(rest));
    }
  }

  /** Pairwise rounds with an odd carry produce, record for record, the newest-wins fold. */
  lemma {:induction false} TournamentIsOverlay(xs: seq<seq<Record>>)
    requires |xs| >= 2 && AllSorted(xs)
    ensures Tournament(xs) == Overlay(xs)
    decreases |xs|
  {
    RoundSorted(xs);
    RoundKeepsOverlay(xs);
    if |xs| == 2 {
      StripSorted(xs[0], 0);
      StripSorted(xs[1], 0);
      StripJoin(xs[0], xs[1]);
      var joined := Join(xs[0], xs[1]);
      assert Round(xs) == [joined];
      assert Overlay([joined][1..]) == [];
      MergeEmpty(joined, 0);
      assert Overlay([joined]) == Merge(Strip(joined), []);
    } else {
      TournamentIsOverlay(Round(xs));
    }
  }

  // ---- overlays of slices ----

  lemma {:induction false} OverlayStripped(xs: seq<seq<Record>>)
    requires AllSorted(xs)
    ensures Stripped(Overlay(xs))
  {
    if xs != [] {
      OverlayStripped(xs[1..]);
      StripSorted(xs[0], 0);
      MergeStripped(Strip(xs[0]), 0, Overlay(xs[1..]), 0);
    }
  }

  lemma {:induction false} MergeEmptyLeft(r: seq<Record>, j: nat)
    requires j <= |r|
    ensures MergeFrom([], 0, r, j) == r[j..]
    decreases |r| - j
  {
    if j < |r| { MergeEmptyLeft(r, j + 1); }
  }

  lemma {:induction false} OverlayConcat(a: seq<seq<Record>>, b: seq<seq<Record>>)
    requires AllSorted(a) && AllSorted(b)
    ensures Overlay(a + b) == Merge(Overlay(a), Overlay(b))
  {
    hide Merge;
    if a == [] {
      assert a + b == b;
      MergeNothing(Overlay(b));
    } else {
      var rest := a[1..];
      OverlayConcat(rest, b);
      assert (a + b)[0] == a[0] && (a + b)[1..] == rest + b;
      StripSorted(a[0], 0);
      OverlaySorted(rest);
      OverlaySorted(b);
      MergeAssociative(Strip(a[0]), Overlay(rest), Overlay(b));
    }
  }

  lemma MergeNothing(r: seq<Record>)
    ensures Merge([], r) == r && Merge(r, []) == r
  {
    MergeEmptyLeft(r, 0);
    MergeEmpty(r, 0);
  }

  /** What a file holds that stands for the lists `lo..hi`: a list as it is, or the overlay of several. */
  function SliceValue(xs: seq<seq<Record>>, lo: nat, hi: nat): seq<Record>
    requires lo < hi <= |xs|
  {
    if hi == lo + 1 then xs[lo] else Overlay(xs[lo..hi])
  }

  lemma StripSlice(xs: seq<seq<Record>>, lo: nat, hi: nat)
    requires AllSorted(xs) && lo < hi <= |xs|
    ensures Strip(SliceValue(xs, lo, hi)) == Overlay(xs[lo..hi])
  {
    hide Merge;
    var ys := xs[lo..hi];
    if hi == lo + 1 {
      assert ys[0] == xs[lo] && Overlay(ys[1..]) == [];
      MergeNothing(Strip(xs[lo]));
    } else {
      OverlayStripped(ys);
      StripIdentity(Overlay(ys), 0);
    }
  }

  /** Joining what stands for two neighbouring slices gives the overlay of both. */
  lemma JoinSlices(xs: seq<seq<Record>>, lo: nat, mid: nat, hi: nat)
    requires AllSorted(xs) && lo < mid < hi <= |xs|
    ensures Join(SliceValue(xs, lo, mid), SliceValue(xs, mid, hi)) == Overlay(xs[lo..hi])
  {
    hide Overlay;
    hide SliceValue;
    hide Strip;
    StripSlice(xs, lo, mid);
    StripSlice(xs, mid, hi);
    assert xs[lo..hi] == xs[lo..mid] + xs[mid..hi];
    OverlayConcat(xs[lo..mid], xs[mid..hi]);
  }

  /** The newest list that holds the key, after stripping. */
  function FirstKept(xs: seq<seq<Record>>, key: Bytes): Option<Bytes> {
    if xs == [] then None else Override(Kept(key, Find(xs[0], key)), FirstKept(xs[1..], key))
  }

  lemma {:induction false} OverlayFind(xs: seq<seq<Record>>, key: Bytes)
    requires AllSorted(xs)
    ensures Find(Overlay(xs), key) == FirstKept(xs, key)
  {
    if xs != [] {
      OverlayFind(xs[1..], key);
      OverlaySorted(xs[1..]);
      StripSorted(xs[0], 0);
      MergeFind(Strip(xs[0]), 0, Overlay(xs[1..]), 0, key);
      StripFind(xs[0], 0, key);
    }
  }

  // ---- how long the tournament takes ----

  function Passes(n: nat): nat {
    if n <= 1 then 0 else 1 + Passes((n + 1) / 2)
  }

  function Merges(n: nat): nat {
    if n <= 1 then 0 else n / 2 + Merges((n + 1) / 2)
  }

  /** n files take exactly ceil(log2 n) passes and n - 1 merges. */
  lemma {:induction false} TournamentCost(n: nat)
    requires n >= 1
    ensures n <= Pow2(Passes(n)) && (n >= 2 ==> Pow2(Passes(n) - 1) < n)
    ensures Merges(n) == n - 1
  {
    if n >= 2 { TournamentCost((n + 1) / 2); }
  }
}
