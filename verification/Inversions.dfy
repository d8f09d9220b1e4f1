/** When a level needs several units, or leaves its oldest file alone: the units' outputs are created
    from the newest unit to the oldest, and the lone file stays above them, so the search order among
    the groups is turned around. What every key looks up to afterwards, and exactly when that is
    what it was. */
module Inversions {
  import opened Wrappers
  import opened Bytes
  import opened Records
  import opened Merging
  import opened Levels
  import opened LsmTree
  import opened Names
  import opened Join
  import opened Build
  import opened Lifecycle
  import opened Units
  import opened AllUnits
  import opened Promotion
  import opened Lookups
  import opened Preservation
  import opened Losses

  // ---- the groups of a level ----

  /** The file that no unit takes, if there is one. */
  function Lone<T>(s: seq<T>, size: nat): (lone: seq<T>)
    requires size >= 2
    ensures |lone| <= 1
  {
    if |s| >= size then Lone(s[size..], size) else if |s| >= 2 then [] else s
  }

  /** What each group of `size` neighbours answers for the key, newest group first; the last group may
      be shorter. */
  function Groups(xs: seq<seq<Record>>, size: nat, key: Bytes): seq<Option<Bytes>>
    requires size >= 2
  {
    if |xs| >= size then [FirstHit(xs[..size], 0, key)] + Groups(xs[size..], size, key)
    else if |xs| >= 1 then [FirstHit(xs, 0, key)]
    else []
  }

  /** The same with the tombstones dropped that compaction drops from a unit. */
  function KeptGroups(xs: seq<seq<Record>>, size: nat, key: Bytes): seq<Option<Bytes>>
    requires size >= 2
  {
    if |xs| >= size then [FirstKept(xs[..size], key)] + KeptGroups(xs[size..], size, key)
    else if |xs| >= 2 then [FirstKept(xs, key)]
    else if |xs| == 1 then [FirstHit(xs, 0, key)]
    else []
  }

  function FirstSome(hits: seq<Option<Bytes>>): Option<Bytes> {
    if hits == [] then None else Override(hits[0], FirstSome(hits[1..]))
  }

  function LastSome(hits: seq<Option<Bytes>>): Option<Bytes> {
    if hits == [] then None else Override(hits[|hits| - 1], LastSome(hits[..|hits| - 1]))
  }

  // ---- before: the newest group ----

  lemma {:induction false} FirstHitSplits(xs: seq<seq<Record>>, n: nat, i: nat, key: Bytes)
    requires i <= n <= |xs|
    ensures FirstHit(xs, i, key) == Override(FirstHit(xs[..n], i, key), FirstHit(xs, n, key))
    decreases n - i
  {
    hide Find;
    if i < n {
      FirstHitSplits(xs, n, i + 1, key);
    }
  }

  lemma {:induction false} FirstHitDrops(xs: seq<seq<Record>>, n: nat, i: nat, key: Bytes)
    requires n <= |xs| && i <= |xs| - n
    ensures FirstHit(xs[n..], i, key) == FirstHit(xs, n + i, key)
    decreases |xs| - i
  {
    hide Find;
    if i < |xs| - n { FirstHitDrops(xs, n, i + 1, key); }
  }

  /** A level answers as its newest group that holds the key. */
  lemma {:induction false} NewestGroup(xs: seq<seq<Record>>, size: nat, key: Bytes)
    requires size >= 2
    ensures FirstHit(xs, 0, key) == FirstSome(Groups(xs, size, key))
    decreases |xs|
  {
    hide FirstHit;
    if |xs| >= size {
      NewestGroup(xs[size..], size, key);
      FirstHitSplits(xs, size, 0, key);
      FirstHitDrops(xs, size, 0, key);
    } else if |xs| >= 1 {
      assert FirstSome([]) == None;
    } else {
      NoHits(key);
    }
  }

  lemma NoHits(key: Bytes)
    ensures FirstHit([], 0, key) == None
  {
  }

  // ---- after: the oldest group ----

  /** The last unit that still holds the key. */
  function LastKept(xss: seq<seq<seq<Record>>>, n: nat, key: Bytes): Option<Bytes>
    requires n <= |xss|
  {
    if n == 0 then None else Override(FirstKept(xss[n - 1], key), LastKept(xss, n - 1, key))
  }

  lemma {:induction false} LastKeptIs(xss: seq<seq<seq<Record>>>, n: nat, key: Bytes)
    requires n <= |xss|
    ensures LastKept(xss, n, key) == LastSome(KeptOf(xss, n, key))
  {
    hide FirstKept;
    if n > 0 {
      LastKeptIs(xss, n - 1, key);
      assert KeptOf(xss, n, key)[..n - 1] == KeptOf(xss, n - 1, key);
    }
  }

  function KeptOf(xss: seq<seq<seq<Record>>>, n: nat, key: Bytes): (hits: seq<Option<Bytes>>)
    requires n <= |xss|
    ensures |hits| == n
  {
    seq(n, j requires 0 <= j < n => FirstKept(xss[j], key))
  }

  /** The groups are the units and the lone file. */
  lemma {:induction false} GroupsAre(xs: seq<seq<Record>>, size: nat, key: Bytes)
    requires size >= 2
    ensures var units := UnitsOf(xs, size);
            KeptGroups(xs, size, key) == KeptOf(units, |units|, key)
              + (if Lone(xs, size) == [] then [] else [FirstHit(Lone(xs, size), 0, key)])
    decreases |xs|
  {
    hide FirstKept;
    hide FirstHit;
    if |xs| >= size {
      GroupsAre(xs[size..], size, key);
      var (units, rest) := (UnitsOf(xs, size), UnitsOf(xs[size..], size));
      assert units[0] == xs[..size] && units[1..] == rest;
      assert KeptOf(units, |units|, key) == [FirstKept(xs[..size], key)] + KeptOf(rest, |rest|, key);
    }
  }

  /** The lone file first, then the units from the last: the oldest group that holds the key. */
  lemma OldestGroup(xs: seq<seq<Record>>, size: nat, key: Bytes)
    requires size >= 2
    ensures Override(FirstHit(Lone(xs, size), 0, key),
                     LastKept(UnitsOf(xs, size), |UnitsOf(xs, size)|, key)) == LastSome(KeptGroups(xs, size, key))
  {
    hide KeptGroups;
    hide FirstHit;
    hide FirstKept;
    var units := UnitsOf(xs, size);
    GroupsAre(xs, size, key);
    LastKeptIs(units, |units|, key);
    var hits := KeptOf(units, |units|, key);
    if Lone(xs, size) == [] {
      NoHits(key);
      assert hits + [] == hits;
    } else {
      var all := hits + [FirstHit(Lone(xs, size), 0, key)];
      assert all[..|all| - 1] == hits;
    }
  }

  // ---- when the result is determined ----

  /** One unit's lengths fit their fields. */
  ghost predicate UnitFits(xs: seq<seq<Record>>, level: nat, k: nat) {
    2 <= k <= 16 && SparseSize(Overlay(xs), level) < U32_LIMIT && |Encode(Overlay(xs))| < U64_LIMIT
  }

  /** An output's name is free in both levels, and its birth is past every table of the next one. */
  ghost predicate OutFree(d: Dir, next: Dir, out: string, now: nat) {
    out !in d && FreeSlot(next, PromotedName(out), now)
  }

  /** `names` is the whole level, newest first; the units run one after the other. */
  ghost predicate SeveralReady(before: seq<Dir>, idx: nat, names: seq<string>, xs: seq<seq<Record>>, size: nat,
                               ks: nat -> nat, nows: nat -> nat)
  {
    && size >= 2 && idx < |before| && GoodLevels(before) && WholeLevel(before[idx], names, xs)
    && (forall j: nat | j < |UnitsOf(xs, size)| :: UnitFits(UnitsOf(xs, size)[j], idx + 2, ks(j)))
    && (forall j: nat | j < |UnitsOf(names, size)| ::
          && |UnitsOf(names, size)[j]| >= 2
          && var out := OutName(j, Passes(|UnitsOf(names, size)[j]|) - 1, 0);
             OutFree(before[idx], DirAt(before, idx + 1), out, nows(j)))
    && (forall i: nat, j: nat | i < j < |names| :: nows(i) < nows(j))
  }

  // ---- the units of the list of files and of the list of their records ----

  lemma {:induction false} UnitsWithin<T>(s: seq<T>, size: nat, j: nat)
    requires size >= 2 && j < |UnitsOf(s, size)|
    ensures 2 <= |UnitsOf(s, size)[j]| && forall x | x in UnitsOf(s, size)[j] :: x in s
    ensures |UnitsOf(s, size)| <= |s|
    decreases |s|
  {
    UnitsFewer(s, size);
    if |s| >= size && j > 0 {
      UnitsWithin(s[size..], size, j - 1);
      assert UnitsOf(s, size)[j] == UnitsOf(s[size..], size)[j - 1];
    }
  }

  lemma {:induction false} UnitsFewer<T>(s: seq<T>, size: nat)
    requires size >= 2
    ensures |UnitsOf(s, size)| <= |s|
    decreases |s|
  {
    if |s| >= size { UnitsFewer(s[size..], size); }
  }

  /** Every file is in a unit or is the lone one, not both. */
  lemma {:induction false} InUnitOrLone(names: seq<string>, size: nat, n: string)
    requires size >= 2 && NoDup(names) && n in names
    ensures n in Lone(names, size) <==> forall j | 0 <= j < |UnitsOf(names, size)| :: n !in UnitsOf(names, size)[j]
    decreases |names|
  {
    if |names| >= size {
      var rest := names[size..];
      assert names == names[..size] + rest;
      var units := UnitsOf(names, size);
      assert units[0] == names[..size] && units[1..] == UnitsOf(rest, size);
      if n in rest {
        var i :| 0 <= i < |rest| && rest[i] == n;
        assert names[size + i] == n && n !in names[..size];
        RestNoDup(names, size);
        InUnitOrLone(rest, size, n);
        var later := UnitsOf(rest, size);
        assert forall j | 0 <= j < |later| :: units[j + 1] == later[j];
      } else {
        LoneWithin(rest, size);
        assert n in units[0];
      }
    } else if |names| >= 2 {
      assert UnitsOf(names, size)[0] == names;
    }
  }

  lemma {:induction false} LoneWithin<T>(s: seq<T>, size: nat)
    requires size >= 2
    ensures forall x | x in Lone(s, size) :: x in s
    decreases |s|
  {
    if |s| >= size { LoneWithin(s[size..], size); }
  }

  lemma RestNoDup(names: seq<string>, size: nat)
    requires NoDup(names) && size <= |names|
    ensures NoDup(names[size..])
  {
    var rest := names[size..];
    forall i, j | 0 <= i < j < |rest| ensures rest[i] != rest[j] {
      assert names[size + i] != names[size + j];
    }
  }

  lemma SliceReady(d: Dir, names: seq<string>, xs: seq<seq<Record>>, lo: nat, hi: nat)
    requires UnitReady(d, names, xs) && lo <= hi <= |names|
    ensures UnitReady(d, names[lo..hi], xs[lo..hi])
  {
    hide IsBin;
    hide HoldsRecords;
    var (ns, ys) := (names[lo..hi], xs[lo..hi]);
    forall i, j | 0 <= i < j < |ns| ensures ns[i] != ns[j] {
      assert names[lo + i] != names[lo + j];
    }
  }

  lemma {:induction false} UnitsAreReady(d: Dir, names: seq<string>, xs: seq<seq<Record>>, size: nat)
    requires size >= 2 && UnitReady(d, names, xs)
    ensures var (units, xss) := (UnitsOf(names, size), UnitsOf(xs, size));
            && |units| == |xss|
            && (forall j | 0 <= j < |units| :: |units[j]| >= 2 && UnitReady(d, units[j], xss[j]))
            && UnitReady(d, Lone(names, size), Lone(xs, size))
    decreases |names|
  {
    ReadyLength(d, names, xs);
    if |names| >= size {
      var (rest, ys) := (names[size..], xs[size..]);
      SliceReady(d, names, xs, 0, size);
      SliceReady(d, names, xs, size, |names|);
      assert names[size..|names|] == rest && xs[size..|xs|] == ys;
      assert names[0..size] == names[..size] && xs[0..size] == xs[..size];
      hide UnitReady;
      UnitsAreReady(d, rest, ys, size);
    } else {
      hide UnitReady;
      SliceReady(d, names, xs, 0, 0);
      assert names[0..0] == [] && xs[0..0] == [];
    }
  }

  lemma ReadyLength(d: Dir, names: seq<string>, xs: seq<seq<Record>>)
    requires UnitReady(d, names, xs)
    ensures |names| == |xs| && NoDup(names)
  {
  }

  lemma {:induction false} UnitsApart(names: seq<string>, size: nat, i: nat, j: nat)
    requires size >= 2 && NoDup(names) && i < j < |UnitsOf(names, size)|
    ensures SetOf(UnitsOf(names, size)[i]) !! SetOf(UnitsOf(names, size)[j])
    decreases |names|
  {
    if |names| >= size {
      var rest := names[size..];
      RestNoDup(names, size);
      if i == 0 {
        UnitsWithin(rest, size, j - 1);
        FirstApart(names, size, UnitsOf(rest, size)[j - 1]);
      } else {
        UnitsApart(rest, size, i - 1, j - 1);
      }
    }
  }

  lemma FirstApart(names: seq<string>, size: nat, unit: seq<string>)
    requires NoDup(names) && size <= |names| && forall x | x in unit :: x in names[size..]
    ensures SetOf(names[..size]) !! SetOf(unit)
  {
    forall x | x in unit ensures x !in names[..size] {
      var i :| 0 <= i < |names[size..]| && names[size..][i] == x;
      assert names[size + i] == x;
    }
  }

  lemma SeveralUnitsReady(before: seq<Dir>, idx: nat, names: seq<string>, xs: seq<seq<Record>>, size: nat,
                          ks: nat -> nat, nows: nat -> nat)
    requires SeveralReady(before, idx, names, xs, size, ks, nows)
    ensures UnitsReady(before[idx], UnitsOf(names, size), UnitsOf(xs, size), idx + 2)
    ensures |UnitsOf(names, size)| <= |names|
  {
    hide UnitReady;
    hide OutFree;
    hide SparseSize;
    hide Overlay;
    hide SetOf;
    hide OutName;
    UnitsAreReady(before[idx], names, xs, size);
    ReadyLength(before[idx], names, xs);
    UnitsFewer(names, size);
    var units := UnitsOf(names, size);
    forall i, j | 0 <= i < j < |units| ensures SetOf(units[i]) !! SetOf(units[j]) {
      UnitsApart(names, size, i, j);
    }
  }

  // ---- what is left of the level ----

  lemma LoneSpared(was: Dir, names: seq<string>, xs: seq<seq<Record>>, size: nat, level: nat, ks: nat -> nat,
                   nows: nat -> nat, ms: seq<Made>, n: string)
    requires size >= 2 && WholeLevel(was, names, xs)
    requires var (units, xss) := (UnitsOf(names, size), UnitsOf(xs, size));
             UnitsReady(was, units, xss, level) && AllMade(was, units, xss, level, ks, nows, ms) && |ms| == |units|
    requires n in Lone(names, size)
    ensures n in was && n in Leftover(was, UnitsOf(names, size), ms)
  {
    hide IsBin;
    hide HoldsRecords;
    hide MadeBy;
    hide CompactBytes;
    hide SparseSize;
    hide Overlay;
    hide Foreign;
    hide UnitsOf;
    hide Lone;
    LoneWithin(names, size);
    InUnitOrLone(names, size, n);
    var (units, xss) := (UnitsOf(names, size), UnitsOf(xs, size));
    forall i | 0 <= i < |ms| ensures Foreign(n, SetOf(units[i]), ms[i].names) {
      UnitTables(was, units[i], xss[i]);
      LaterTableForeign(n, ms[i], i, units[i], CompactBytes(Overlay(xss[i]), level, ks(i)));
    }
  }

  /** The only table left on the level is the lone file. */
  lemma LoneIsLevel(was: Dir, names: seq<string>, xs: seq<seq<Record>>, size: nat, level: nat, ks: nat -> nat,
                    nows: nat -> nat, ms: seq<Made>)
    requires size >= 2 && WholeLevel(was, names, xs)
    requires var (units, xss) := (UnitsOf(names, size), UnitsOf(xs, size));
             UnitsReady(was, units, xss, level) && AllMade(was, units, xss, level, ks, nows, ms) && |ms| == |units|
    ensures SubLevel(Leftover(was, UnitsOf(names, size), ms), was)
    ensures WholeLevel(Leftover(was, UnitsOf(names, size), ms), Lone(names, size), Lone(xs, size))
  {
    hide IsBin;
    hide UnitReady;
    hide UnitsReady;
    hide AllMade;
    hide UnitsOf;
    hide Lone;
    var units := UnitsOf(names, size);
    var left := Leftover(was, units, ms);
    UnitsAreReady(was, names, xs, size);
    ReadyLength(was, names, xs);
    forall n | n in SetOf(Lone(names, size)) ensures n in was && n in left && left[n] == was[n] {
      LoneSpared(was, names, xs, size, level, ks, nows, ms, n);
    }
    SameUnit(was, left, Lone(names, size), Lone(xs, size));
    forall n | n in left && IsBin(n) ensures n in Lone(names, size) {
      InUnitOrLone(names, size, n);
      SparedByUnits(n, units, ms);
    }
  }

  lemma SparedByUnits(n: string, units: seq<seq<string>>, ms: seq<Made>)
    requires |ms| == |units| && Spared(n, units, ms)
    ensures forall j | 0 <= j < |units| :: n !in units[j]
  {
    forall j | 0 <= j < |units| ensures n !in units[j] {
      assert Foreign(n, SetOf(units[j]), ms[j].names);
    }
  }

  // ---- what the next level gains ----

  /** One output as it arrives in the next level. */
  ghost predicate Arrives(next: Dir, m: Made, xs: seq<seq<Record>>, level: nat, k: nat, now: nat) {
    && m.file == FileData(now, CompactBytes(Overlay(xs), level, k))
    && IsTmp(m.out) && FreeSlot(next, PromotedName(m.out), now)
    && AllSorted(xs) && (forall i | 0 <= i < |xs| :: GoodRecords(xs[i]))
    && UnitFits(xs, level, k)
  }

  ghost predicate AllArrive(next: Dir, ms: seq<Made>, xss: seq<seq<seq<Record>>>, level: nat, ks: nat -> nat,
                            nows: nat -> nat)
  {
    && |ms| == |xss|
    && (forall j: nat | j < |ms| :: Arrives(next, ms[j], xss[j], level, ks(j), nows(j)))
    && (forall i: nat, j: nat | i < j < |ms| :: ms[i].out != ms[j].out && nows(i) < nows(j))
  }

  lemma {:induction false} MovedNames(next: Dir, ms: seq<Made>, n: nat, name: string)
    requires n <= |ms| && name in MovedUp(next, ms, n)
    ensures || (name in next && MovedUp(next, ms, n)[name] == next[name])
            || exists j :: 0 <= j < n && name == PromotedName(ms[j].out) && MovedUp(next, ms, n)[name] == ms[j].file
  {
    hide PromotedName;
    if n > 0 && name != PromotedName(ms[n - 1].out) { MovedNames(next, ms, n - 1, name); }
  }

  /** The next output's slot is still free after the outputs before it. */
  lemma SlotStaysFree(next: Dir, ms: seq<Made>, xss: seq<seq<seq<Record>>>, level: nat, ks: nat -> nat,
                      nows: nat -> nat, n: nat)
    requires AllArrive(next, ms, xss, level, ks, nows) && n < |ms|
    ensures FreeSlot(MovedUp(next, ms, n), PromotedName(ms[n].out), nows(n))
  {
    hide PromotedName;
    hide IsBin;
    hide IsTmp;
    hide MovedUp;
    hide CompactBytes;
    hide UnitFits;
    hide AllSorted;
    hide GoodRecords;
    hide Overlay;
    var (d, name) := (MovedUp(next, ms, n), PromotedName(ms[n].out));
    assert Arrives(next, ms[n], xss[n], level, ks(n), nows(n));
    forall x | x in d ensures x != name && (IsBin(x) ==> d[x].created < nows(n)) {
      MovedNames(next, ms, n, x);
      if j: nat :| j < n && x == PromotedName(ms[j].out) && d[x] == ms[j].file {
        assert Arrives(next, ms[j], xss[j], level, ks(j), nows(j));
        if x == name { PromotedApart(ms[j].out, ms[n].out); }
      }
    }
  }

  /** One more output on top. */
  lemma RaisedOne(next: Dir, rest: seq<Dir>, ms: seq<Made>, xss: seq<seq<seq<Record>>>, level: nat,
                  ks: nat -> nat, nows: nat -> nat, n: nat, key: Bytes)
    requires GoodLevels(rest) && AllArrive(next, ms, xss, level, ks, nows) && n < |ms|
    requires GoodDir(MovedUp(next, ms, n))
    ensures GoodDir(MovedUp(next, ms, n + 1))
    ensures AllValid([MovedUp(next, ms, n + 1)] + rest) && AllValid([MovedUp(next, ms, n)] + rest)
    ensures DiskLookup([MovedUp(next, ms, n + 1)] + rest, key) ==
            Override(FirstKept(xss[n], key), DiskLookup([MovedUp(next, ms, n)] + rest, key))
  {
    hide PromotedName;
    hide CompactBytes;
    hide GoodRecords;
    hide Overlay;
    hide FreeSlot;
    hide DiskLookup;
    hide FirstKept;
    hide IsBin;
    hide IsTmp;
    hide GoodDir;
    hide GoodLevels;
    hide Contents;
    hide IsTable;
    hide Find;
    hide SparseSize;
    hide MovedUp;
    hide AllValid;
    SlotStaysFree(next, ms, xss, level, ks, nows, n);
    assert Arrives(next, ms[n], xss[n], level, ks(n), nows(n));
    hide AllArrive;
    var (d, name, f) := (MovedUp(next, ms, n), PromotedName(ms[n].out), ms[n].file);
    KindsDiffer(ms[n].out);
    OutputTable(xss[n], level, ks(n));
    OverlayFind(xss[n], key);
    TopTable(d, rest, name, f, key);
    MovedOne(next, ms, n + 1);
    OneGoodDir([d[name := f]] + rest, 0);
  }

  lemma {:induction false} Raised(next: Dir, rest: seq<Dir>, ms: seq<Made>, xss: seq<seq<seq<Record>>>, level: nat,
                                  ks: nat -> nat, nows: nat -> nat, n: nat, key: Bytes)
    requires GoodDir(next) && GoodLevels(rest) && AllArrive(next, ms, xss, level, ks, nows)
    requires n <= |ms| == |xss|
    ensures GoodDir(MovedUp(next, ms, n))
    ensures AllValid([MovedUp(next, ms, n)] + rest) && AllValid([next] + rest)
    ensures DiskLookup([MovedUp(next, ms, n)] + rest, key) ==
            Override(LastKept(xss, n, key), DiskLookup([next] + rest, key))
  {
    hide DiskLookup;
    hide FirstKept;
    hide GoodDir;
    hide GoodLevels;
    hide AllArrive;
    hide MovedUp;
    hide AllValid;
    if n == 0 {
      GoodPair(next, rest);
      NothingUp(next, ms);
    } else {
      Raised(next, rest, ms, xss, level, ks, nows, n - 1, key);
      RaisedOne(next, rest, ms, xss, level, ks, nows, n - 1, key);
    }
  }

  lemma NothingUp(next: Dir, ms: seq<Made>)
    ensures MovedUp(next, ms, 0) == next
  {
  }

  lemma MovedOne(next: Dir, ms: seq<Made>, n: nat)
    requires 0 < n <= |ms|
    ensures MovedUp(next, ms, n) == MovedUp(next, ms, n - 1)[PromotedName(ms[n - 1].out) := ms[n - 1].file]
  {
    hide PromotedName;
  }

  lemma GoodPair(d: Dir, rest: seq<Dir>)
    requires GoodDir(d) && GoodLevels(rest)
    ensures AllValid([d] + rest) && GoodLevels([d] + rest)
  {
    hide GoodRecords;
  }

  // ---- the lookups before and after ----

  lemma ArrivalOf(before: seq<Dir>, idx: nat, names: seq<string>, xs: seq<seq<Record>>, size: nat,
                  ks: nat -> nat, nows: nat -> nat, ms: seq<Made>, j: nat)
    requires SeveralReady(before, idx, names, xs, size, ks, nows)
    requires AllMade(before[idx], UnitsOf(names, size), UnitsOf(xs, size), idx + 2, ks, nows, ms)
    requires j < |ms| == |UnitsOf(names, size)|
    ensures Arrives(DirAt(before, idx + 1), ms[j], UnitsOf(xs, size)[j], idx + 2, ks(j), nows(j))
  {
    hide UnitReady;
    hide UnitsOf;
    hide IsBin;
    hide IsTmp;
    hide OutName;
    hide PromotedName;
    hide CompactBytes;
    hide Overlay;
    hide GoodRecords;
    hide UnitFits;
    hide FreeSlot;
    hide AllFromUnit;
    var (units, xss) := (UnitsOf(names, size), UnitsOf(xs, size));
    assert OutFree(before[idx], DirAt(before, idx + 1), OutName(j, Passes(|units[j]|) - 1, 0), nows(j));
    assert MadeAt(before[idx], ms[j], nows(j));
    OutNameIsTmp(j, Passes(|units[j]|) - 1, 0);
    OneGoodDir(before, idx);
    UnitRecordsGood(before[idx], names, xs);
    UnitsWithin(xs, size, j);
    forall i | 0 <= i < |xss[j]| ensures Sorted(xss[j][i]) && GoodRecords(xss[j][i]) {
      assert xss[j][i] in xs;
    }
  }

  lemma AllArrivals(before: seq<Dir>, idx: nat, names: seq<string>, xs: seq<seq<Record>>, size: nat,
                    ks: nat -> nat, nows: nat -> nat, ms: seq<Made>)
    requires SeveralReady(before, idx, names, xs, size, ks, nows)
    requires AllMade(before[idx], UnitsOf(names, size), UnitsOf(xs, size), idx + 2, ks, nows, ms)
    requires |ms| == |UnitsOf(names, size)|
    ensures AllArrive(DirAt(before, idx + 1), ms, UnitsOf(xs, size), idx + 2, ks, nows)
  {
    hide WholeLevel;
    hide UnitsOf;
    hide OutFree;
    hide UnitFits;
    hide Arrives;
    hide AllMade;
    hide GoodLevels;
    UnitsFewer(names, size);
    MadeLength(before[idx], UnitsOf(names, size), UnitsOf(xs, size), idx + 2, ks, nows, ms);
    forall j: nat | j < |ms|
      ensures Arrives(DirAt(before, idx + 1), ms[j], UnitsOf(xs, size)[j], idx + 2, ks(j), nows(j))
    {
      ArrivalOf(before, idx, names, xs, size, ks, nows, ms, j);
    }
    forall i: nat, j: nat | i < j < |ms| ensures ms[i].out != ms[j].out {
      OutsDiffer(before[idx], UnitsOf(names, size), UnitsOf(xs, size), idx + 2, ks, nows, ms, i, j);
    }
  }

  lemma MadeLength(was: Dir, units: seq<seq<string>>, xss: seq<seq<seq<Record>>>, level: nat, ks: nat -> nat,
                   nows: nat -> nat, ms: seq<Made>)
    requires AllMade(was, units, xss, level, ks, nows, ms)
    ensures |xss| == |units|
  {
  }

  /** The level loses everything but the lone file, the next one gains the outputs. */
  lemma TurnedShape(before: seq<Dir>, after: seq<Dir>, idx: nat, units: seq<seq<string>>, ms: seq<Made>)
    requires idx < |before| && AllPromoted(before, after, idx, units, ms)
    ensures |ms| == |units|
    ensures after == before[..idx] + ([Leftover(before[idx], units, ms)]
                     + ([MovedUp(DirAt(before, idx + 1), ms, |ms|)] + Lower(before, idx)))
  {
    hide Leftover;
    hide MovedUp;
  }

  lemma ThreeParts(pre: seq<Dir>, left: Dir, next: Dir, low: seq<Dir>, key: Bytes)
    requires GoodLevels(pre) && GoodDir(left) && GoodDir(next) && GoodLevels(low)
    ensures AllValid(pre) && ValidDir(left) && AllValid([next] + low)
    ensures GoodLevels(pre + ([left] + ([next] + low))) && AllValid(pre + ([left] + ([next] + low)))
    ensures DiskLookup(pre + ([left] + ([next] + low)), key) ==
            Override(DiskLookup(pre, key), Override(LevelLookup(ViewOf(left), key), DiskLookup([next] + low, key)))
  {
    hide DiskLookup;
    hide LevelLookup;
    hide ViewOf;
    hide GoodRecords;
    GoodValid(pre);
    GoodPair(next, low);
    GoodPair(left, [next] + low);
    GoodIsValid(left);
    GoodJoin(pre, [left] + ([next] + low), left, [next] + low);
    hide GoodDir;
    hide GoodLevels;
    hide ValidDir;
    TreeCons(left, [next] + low, key);
    TreeConcat(pre, [left] + ([next] + low), key);
  }

  /** Before, the level answers as its newest group that holds the key; afterwards as the oldest one
      that still does. */
  lemma SeveralLookups(before: seq<Dir>, after: seq<Dir>, idx: nat, names: seq<string>, xs: seq<seq<Record>>,
                       size: nat, ks: nat -> nat, nows: nat -> nat, ms: seq<Made>, key: Bytes)
    requires SeveralReady(before, idx, names, xs, size, ks, nows)
    requires AllMade(before[idx], UnitsOf(names, size), UnitsOf(xs, size), idx + 2, ks, nows, ms)
    requires AllPromoted(before, after, idx, UnitsOf(names, size), ms)
    ensures AllValid(before) && GoodLevels(after) && AllValid(after)
    ensures AllValid(before[..idx]) && AllValid(before[idx + 1..])
    ensures var (above, below) := (DiskLookup(before[..idx], key), DiskLookup(before[idx + 1..], key));
            && DiskLookup(before, key) == Override(above, Override(FirstSome(Groups(xs, size, key)), below))
            && DiskLookup(after, key) == Override(above, Override(LastSome(KeptGroups(xs, size, key)), below))
  {
    hide UnitReady;
    hide GoodLevels;
    hide AllValid;
    hide GoodDir;
    hide DiskLookup;
    hide LevelLookup;
    hide ViewOf;
    hide UnitsOf;
    hide Leftover;
    hide MovedUp;
    hide Lone;
    hide Groups;
    hide KeptGroups;
    hide FirstHit;
    hide OutFree;
    hide UnitFits;
    hide AllMade;
    hide WholeLevel;
    hide Lower;
    hide LastKept;
    BeforeLookup(before, idx, names, xs, key);
    NewestGroup(xs, size, key);
    AfterSeveral(before, after, idx, names, xs, size, ks, nows, ms, key);
    OldestGroup(xs, size, key);
  }

  lemma AfterSeveral(before: seq<Dir>, after: seq<Dir>, idx: nat, names: seq<string>, xs: seq<seq<Record>>,
                     size: nat, ks: nat -> nat, nows: nat -> nat, ms: seq<Made>, key: Bytes)
    requires SeveralReady(before, idx, names, xs, size, ks, nows)
    requires AllMade(before[idx], UnitsOf(names, size), UnitsOf(xs, size), idx + 2, ks, nows, ms)
    requires AllPromoted(before, after, idx, UnitsOf(names, size), ms)
    ensures GoodLevels(after) && AllValid(after) && AllValid(before[..idx]) && AllValid(before[idx + 1..])
    ensures DiskLookup(after, key) ==
            Override(DiskLookup(before[..idx], key),
                     Override(FirstHit(Lone(xs, size), 0, key),
                              Override(LastKept(UnitsOf(xs, size), |UnitsOf(xs, size)|, key),
                                       DiskLookup(before[idx + 1..], key))))
  {
    hide UnitReady;
    hide GoodLevels;
    hide AllValid;
    hide GoodDir;
    hide DiskLookup;
    hide LevelLookup;
    hide ViewOf;
    hide UnitsOf;
    hide UnitsReady;
    hide Leftover;
    hide MovedUp;
    hide Lone;
    hide FirstHit;
    hide OutFree;
    hide UnitFits;
    hide AllMade;
    hide WholeLevel;
    hide Lower;
    hide LastKept;
    hide AllArrive;
    hide ValidDir;
    var (units, xss) := (UnitsOf(names, size), UnitsOf(xs, size));
    TurnedShape(before, after, idx, units, ms);
    SeveralUnitsReady(before, idx, names, xs, size, ks, nows);
    AllArrivals(before, idx, names, xs, size, ks, nows, ms);
    MadeLength(before[idx], units, xss, idx + 2, ks, nows, ms);
    PartsGood(before, idx);
    LowerLookup(before, idx, key);
    var (left, next) := (Leftover(before[idx], units, ms), DirAt(before, idx + 1));
    LoneIsLevel(before[idx], names, xs, size, idx + 2, ks, nows, ms);
    SubGood(left, before[idx]);
    GoodIsValid(left);
    LevelIsList(left, Lone(names, size), Lone(xs, size), key);
    Raised(next, Lower(before, idx), ms, xss, idx + 2, ks, nows, |ms|, key);
    ThreeParts(before[..idx], left, MovedUp(next, ms, |ms|), Lower(before, idx), key);
  }

  // ---- exactly when a key keeps its lookup ----

  /** For a key of which no unit drops a tombstone: it keeps its lookup exactly when a level above answers
      it, or the newest and the oldest group that hold it give the same bytes. */
  lemma SeveralIff(before: seq<Dir>, after: seq<Dir>, idx: nat, names: seq<string>, xs: seq<seq<Record>>,
                   size: nat, ks: nat -> nat, nows: nat -> nat, ms: seq<Made>, key: Bytes)
    requires SeveralReady(before, idx, names, xs, size, ks, nows)
    requires AllMade(before[idx], UnitsOf(names, size), UnitsOf(xs, size), idx + 2, ks, nows, ms)
    requires AllPromoted(before, after, idx, UnitsOf(names, size), ms)
    requires |key| == 1 ==> Some(TOMBSTONE) !in Groups(xs, size, key)
    ensures AllValid(before) && AllValid(after) && AllValid(before[..idx])
    ensures DiskLookup(after, key) == DiskLookup(before, key) <==>
            || DiskLookup(before[..idx], key).Some?
            || FirstSome(Groups(xs, size, key)) == LastSome(Groups(xs, size, key))
  {
    hide SeveralReady;
    hide AllMade;
    hide AllPromoted;
    hide DiskLookup;
    hide AllValid;
    hide GoodLevels;
    hide Groups;
    hide KeptGroups;
    SeveralLookups(before, after, idx, names, xs, size, ks, nows, ms, key);
    assert size >= 2 by { SizeOk(before, idx, names, xs, size, ks, nows); }
    GroupsKept(xs, size, key);
    BothOrNone(Groups(xs, size, key));
  }

  lemma SizeOk(before: seq<Dir>, idx: nat, names: seq<string>, xs: seq<seq<Record>>, size: nat, ks: nat -> nat,
               nows: nat -> nat)
    requires SeveralReady(before, idx, names, xs, size, ks, nows)
    ensures size >= 2
  {
    hide WholeLevel;
    hide GoodLevels;
  }

  lemma {:induction false} GroupsKept(xs: seq<seq<Record>>, size: nat, key: Bytes)
    requires size >= 2 && (|key| == 1 ==> Some(TOMBSTONE) !in Groups(xs, size, key))
    ensures KeptGroups(xs, size, key) == Groups(xs, size, key)
    decreases |xs|
  {
    hide FirstHit;
    hide FirstKept;
    if |xs| >= size {
      var unit := xs[..size];
      assert Groups(xs, size, key)[0] == FirstHit(unit, 0, key);
      KeptIsHit(unit, 0, key);
      assert unit[0..] == unit;
      GroupsKept(xs[size..], size, key);
    } else if |xs| >= 2 {
      assert Groups(xs, size, key)[0] == FirstHit(xs, 0, key);
      KeptIsHit(xs, 0, key);
      assert xs[0..] == xs;
    }
  }

  /** The first and the last answer are both there or both missing. */
  lemma BothOrNone(hits: seq<Option<Bytes>>)
    ensures FirstSome(hits).None? <==> forall i | 0 <= i < |hits| :: hits[i].None?
    ensures LastSome(hits).None? <==> forall i | 0 <= i < |hits| :: hits[i].None?
  {
    if hits != [] {
      BothOrNone(hits[1..]);
      BothOrNone(hits[..|hits| - 1]);
      assert forall i | 0 < i < |hits| :: hits[1..][i - 1] == hits[i];
      assert forall i | 0 <= i < |hits| - 1 :: hits[..|hits| - 1][i] == hits[i];
    }
  }

  // ---- for every key ----

  /** The key is answered by its newest group before and by its oldest one after. */
  ghost predicate TurnsKey(before: seq<Dir>, after: seq<Dir>, idx: nat, xs: seq<seq<Record>>, size: nat, key: Bytes)
    requires AllValid(before) && AllValid(after) && size >= 2
    requires idx < |before| && AllValid(before[..idx]) && AllValid(before[idx + 1..])
  {
    var (above, below) := (DiskLookup(before[..idx], key), DiskLookup(before[idx + 1..], key));
    && DiskLookup(before, key) == Override(above, Override(FirstSome(Groups(xs, size, key)), below))
    && DiskLookup(after, key) == Override(above, Override(LastSome(KeptGroups(xs, size, key)), below))
  }

  ghost predicate TurnsGroups(before: seq<Dir>, after: seq<Dir>, idx: nat, xs: seq<seq<Record>>, size: nat)
    requires size >= 2 && idx < |before|
  {
    && AllValid(before) && GoodLevels(after) && AllValid(after)
    && AllValid(before[..idx]) && AllValid(before[idx + 1..])
    && forall key :: TurnsKey(before, after, idx, xs, size, key)
  }

  lemma SeveralTurn(before: seq<Dir>, after: seq<Dir>, idx: nat, names: seq<string>, xs: seq<seq<Record>>,
                    size: nat, ks: nat -> nat, nows: nat -> nat, ms: seq<Made>)
    requires SeveralReady(before, idx, names, xs, size, ks, nows)
    requires UnitsReady(before[idx], UnitsOf(names, size), UnitsOf(xs, size), idx + 2) ==>
               && AllMade(before[idx], UnitsOf(names, size), UnitsOf(xs, size), idx + 2, ks, nows, ms)
               && AllPromoted(before, after, idx, UnitsOf(names, size), ms)
    ensures size >= 2 && idx < |before| && TurnsGroups(before, after, idx, xs, size)
  {
    SeveralUnitsReady(before, idx, names, xs, size, ks, nows);
    SizeOk(before, idx, names, xs, size, ks, nows);
    hide SeveralReady;
    hide UnitsReady;
    hide AllMade;
    hide AllPromoted;
    hide DiskLookup;
    hide AllValid;
    hide GoodLevels;
    hide Groups;
    hide KeptGroups;
    SeveralLookups(before, after, idx, names, xs, size, ks, nows, ms, []);
    forall key ensures TurnsKey(before, after, idx, xs, size, key) {
      SeveralLookups(before, after, idx, names, xs, size, ks, nows, ms, key);
    }
  }
}
