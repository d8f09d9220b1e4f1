/** The tree reader: loading the level directories and looking a key up across them. */
module LsmTree {
  import opened Wrappers
  import opened Bytes
  import opened Records
  import opened SSTable
  import opened TableReader
  import opened Levels
  import Bloom

  /** A level's open tables, keyed by their metadata; iteration order is arbitrary. */
  type FileMap = map<Metadata, Reader>

  // ---- what loading promises ----

  ghost function ReaderFor(f: FileData): Reader
    requires IsTable(f.bytes)
  {
    ReaderOf(TableIn(f.bytes), f.created)
  }

  /** A reader of some table of the level. */
  ghost predicate ReadsFrom(r: Reader, d: Dir)
    requires ValidDir(d)
  {
    exists n | n in d && IsBin(n) :: r == ReaderFor(d[n])
  }

  lemma Origin(r: Reader, d: Dir) returns (n: string)
    requires ValidDir(d) && ReadsFrom(r, d)
    ensures n in d && IsBin(n) && r == ReaderFor(d[n])
  {
    n :| n in d && IsBin(n) && r == ReaderFor(d[n]);
  }

  lemma ReadsName(d: Dir, n: string)
    requires ValidDir(d) && n in d && IsBin(n)
    ensures ReadsFrom(ReaderFor(d[n]), d)
  {
  }

  ghost predicate Loaded(files: FileMap, d: Dir)
    requires ValidDir(d)
  {
    && (forall n | n in d && IsBin(n) ::
          var r := ReaderFor(d[n]); r.metadata in files && files[r.metadata] == r)
    && AllRead(files, d)
  }

  ghost predicate AllRead(files: FileMap, d: Dir)
    requires ValidDir(d)
  {
    forall m | m in files :: ReadsFrom(files[m], d)
  }

  /** What opening a file gives. */
  function Opened(f: FileData): Result<Option<Reader>, ReadError> {
    OpenSpec(f.bytes, f.created)
  }

  /** The file was opened as this reader. */
  ghost predicate OpenedAs(d: Dir, n: string, r: Reader) {
    n in d && IsBin(n) && Opened(d[n]) == Ok(Some(r))
  }

  /** Every `.bin` file opens, those with a foreign header are skipped, and the map holds exactly the
      readers of the others, each under its metadata. */
  ghost predicate LoadedFrom(files: FileMap, d: Dir) {
    && (forall n | n in d && IsBin(n) :: Opened(d[n]).Ok?)
    && (forall n, r | OpenedAs(d, n, r) :: r.metadata in files)
    && (forall m | m in files :: files[m].metadata == m && exists n :: OpenedAs(d, n, files[m]))
  }

  /** On any directory, whatever its files hold; and on a directory of tables, all of them. */
  method LoadLevel(d: Dir) returns (r: Result<FileMap, ReadError>)
    ensures r.Ok? <==> forall n | n in d && IsBin(n) :: Opened(d[n]).Ok?
    ensures r.Ok? ==> LoadedFrom(r.value, d)
    ensures ValidDir(d) ==> r.Ok? && Loaded(r.value, d)
  {
    hide OpenSpec;
    hide ReaderOf;
    hide ValidTable;
    hide Opened;
    hide OpenedAs;
    hide LoadedFrom;
    hide IsBin;
    var files: FileMap := map[];
    var remaining := d.Keys;
    ghost var done: set<string> := {};
    NothingLoaded(d);
    while remaining != {}
      invariant done + remaining == d.Keys && done !! remaining
      invariant LoadedFrom(files, DirPart(d, done))
      invariant ValidDir(d) ==> Loaded(files, DirPart(d, done))
      decreases remaining
    {
      var name :| name in remaining;
      remaining := remaining - {name};
      if IsBin(name) {
        var attempt := Open(d[name].bytes, d[name].created);
        OpenedIs(d[name]);
        if ValidDir(d) { OpenInverts(TableIn(d[name].bytes), d[name].created); }
        if attempt.Err? { return Err(attempt.error); }
        MoreLoaded(files, d, done, name);
        if attempt.value.Some? {
          var reader := attempt.value.value;
          if ValidDir(d) { AddLoaded(files, d, done, name); }
          files := files[reader.metadata := reader];
        }
      } else {
        MoreLoaded(files, d, done, name);
        if ValidDir(d) { SkipLoaded(files, d, done, name); }
      }
      done := done + {name};
    }
    assert DirPart(d, done) == d;
    AllOpened(files, d);
    return Ok(files);
  }

  lemma OpenedIs(f: FileData)
    ensures Opened(f) == OpenSpec(f.bytes, f.created)
  {
  }

  lemma NothingLoaded(d: Dir)
    ensures LoadedFrom(map[], DirPart(d, {}))
  {
  }

  lemma AllOpened(files: FileMap, d: Dir)
    requires LoadedFrom(files, d)
    ensures forall n | n in d && IsBin(n) :: Opened(d[n]).Ok?
  {
  }

  lemma MoreLoaded(files: FileMap, d: Dir, done: set<string>, name: string)
    requires LoadedFrom(files, DirPart(d, done)) && name in d && name !in done
    requires IsBin(name) ==> Opened(d[name]).Ok?
    ensures var o := Opened(d[name]);
            LoadedFrom(if IsBin(name) && o.value.Some? then files[o.value.value.metadata := o.value.value] else files,
                       DirPart(d, done + {name}))
  {
    hide Opened;
    hide IsBin;
    var (p, q, o) := (DirPart(d, done), DirPart(d, done + {name}), Opened(d[name]));
    var more := if IsBin(name) && o.value.Some? then files[o.value.value.metadata := o.value.value] else files;
    forall n, r | OpenedAs(q, n, r) ensures r.metadata in more {
      if n != name { assert OpenedAs(p, n, r); }
    }
    forall m | m in more ensures more[m].metadata == m && exists n :: OpenedAs(q, n, more[m]) {
      if IsBin(name) && o.value.Some? && m == o.value.value.metadata {
        assert OpenedAs(q, name, more[m]);
      } else {
        var n :| OpenedAs(p, n, files[m]);
        assert OpenedAs(q, n, more[m]);
      }
    }
  }

  ghost function DirPart(d: Dir, names: set<string>): Dir {
    map n | n in d && n in names :: d[n]
  }

  lemma ReaderMeta(f: FileData)
    requires IsTable(f.bytes)
    ensures ReaderFor(f).metadata.created == f.created && ReaderFor(f).file == f.bytes
  {
  }

  lemma AddLoaded(files: FileMap, d: Dir, done: set<string>, name: string)
    requires ValidDir(d) && done <= d.Keys && name in d && name !in done && IsBin(name)
    requires Loaded(files, DirPart(d, done))
    ensures var r := ReaderFor(d[name]); Loaded(files[r.metadata := r], DirPart(d, done + {name}))
  {
    hide ReaderFor;
    hide ReadsFrom;
    hide IsBin;
    hide IsTable;
    var p, q := DirPart(d, done), DirPart(d, done + {name});
    var r := ReaderFor(d[name]);
    var more := files[r.metadata := r];
    forall n | n in q && IsBin(n)
      ensures var s := ReaderFor(q[n]); s.metadata in more && more[s.metadata] == s
    {
      ReaderMeta(d[n]);
      ReaderMeta(d[name]);
      if n != name { assert n in p && p[n] == q[n]; }
    }
    AddOrigins(files, d, done, name);
  }

  lemma AddOrigins(files: FileMap, d: Dir, done: set<string>, name: string)
    requires ValidDir(d) && done <= d.Keys && name in d && IsBin(name)
    requires Loaded(files, DirPart(d, done))
    ensures var r := ReaderFor(d[name]); AllRead(files[r.metadata := r], DirPart(d, done + {name}))
  {
    hide ReaderFor;
    hide ReadsFrom;
    hide IsBin;
    hide IsTable;
    var p, q := DirPart(d, done), DirPart(d, done + {name});
    var r := ReaderFor(d[name]);
    var more := files[r.metadata := r];
    forall m | m in more ensures ReadsFrom(more[m], q) {
      if m == r.metadata {
        ReadsName(q, name);
      } else {
        var n := Origin(files[m], p);
        ReadsName(q, n);
      }
    }
  }

  lemma SkipLoaded(files: FileMap, d: Dir, done: set<string>, name: string)
    requires ValidDir(d) && done <= d.Keys && name in d && !IsBin(name)
    requires Loaded(files, DirPart(d, done))
    ensures Loaded(files, DirPart(d, done + {name}))
  {
    hide ReaderFor;
    hide ReadsFrom;
    hide IsBin;
    var p, q := DirPart(d, done), DirPart(d, done + {name});
    forall n | n in q && IsBin(n)
      ensures var s := ReaderFor(q[n]); s.metadata in files && files[s.metadata] == s
    {
      assert n in p && p[n] == q[n];
    }
    forall m | m in files ensures ReadsFrom(files[m], q) {
      var n := Origin(files[m], p);
      ReadsName(q, n);
    }
  }

  // ---- skipping tables ----

  predicate InRange(m: Metadata, key: Bytes) {
    var first := if m.sparseIndex == [] then [] else m.sparseIndex[0].key;
    !Less(key, first) && !Less(m.maxKey, key)
  }

  /** The range check, then the filter block read from its fixed place. */
  method Worth(r: Reader, key: Bytes) returns (w: Result<bool, ReadError>)
    ensures InRange(r.metadata, key) && |r.file| < INDEX_OFFSET ==> w == Err(UnexpectedEof)
    ensures |r.file| >= INDEX_OFFSET ==>
              w == Ok(InRange(r.metadata, key) && Bloom.MayContain(r.file[BLOOM_OFFSET..INDEX_OFFSET], key))
    ensures !InRange(r.metadata, key) ==> w == Ok(false)
  {
    if !InRange(r.metadata, key) { return Ok(false); }
    if |r.file| < INDEX_OFFSET { return Err(UnexpectedEof); }
    var held := Bloom.ProbablyExist(r.file[BLOOM_OFFSET..INDEX_OFFSET], key);
    return Ok(held);
  }

  ghost predicate Skipped(t: Table, key: Bytes)
    requires ValidTable(t)
  {
    var r := ReaderOf(t, 0);
    !InRange(r.metadata, key) || !Bloom.MayContain(Bloom.Block(t.k, KeysOf(t.records)), key)
  }

  lemma RangeOf(t: Table, created: nat, key: Bytes)
    requires ValidTable(t)
    ensures InRange(ReaderOf(t, created).metadata, key) <==>
            var rs := t.records;
            if rs == [] then key == [] else !Less(key, rs[0].key) && !Less(MaxKey(rs), key)
  {
    LessTotal(key, []);
  }

  /** A table is skipped exactly when the key lies outside its range or some probe of it hits a bit that
      no key of the table owns. */
  lemma SkippedIff(t: Table, key: Bytes)
    requires ValidTable(t)
    ensures Skipped(t, key) <==>
            || (if t.records == [] then key != [] else Less(key, t.records[0].key) || Less(MaxKey(t.records), key))
            || exists i: nat | i < t.k ::
                 !Bloom.Owned(t.k, KeysOf(t.records), |t.records|, Bloom.Probe(key, i))
  {
    hide ReaderOf;
    hide InRange;
    hide Bloom.MayContain;
    hide Bloom.Block;
    hide Bloom.Owned;
    hide Bloom.Probe;
    RangeOf(t, 0, key);
    Bloom.AnswerIs(t.k, KeysOf(t.records), key);
  }

  /** A skipped table does not hold the key. */
  lemma SkippedMisses(t: Table, key: Bytes)
    requires ValidTable(t) && Skipped(t, key)
    ensures Find(t.records, key) == None
  {
    hide ReaderOf;
    hide InRange;
    hide Bloom.MayContain;
    hide Bloom.Block;
    var rs := t.records;
    RangeOf(t, 0, key);
    if Find(rs, key).Some? {
      var j := ScanHits(rs, 0, key);
      LessTotal(key, key);
      if j > 0 {
        assert Less(rs[0].key, rs[j].key);
        LessTotal(rs[0].key, key);
      }
      if j < |rs| - 1 {
        assert Less(rs[j].key, rs[|rs| - 1].key);
        LessTotal(key, MaxKey(rs));
      }
      assert KeysOf(rs)[j] == key;
      Bloom.NoFalseNegatives(t.k, KeysOf(rs), key);
    }
  }

  /** On a table that passes the range check, search answers as a full scan would. */
  lemma SearchInRange(t: Table, created: nat, key: Bytes)
    requires ValidTable(t) && InRange(ReaderOf(t, created).metadata, key)
    ensures SortedMarks(ReaderOf(t, created).metadata.sparseIndex)
    ensures SearchSpec(ReaderOf(t, created), key).answer == Ok(Find(t.records, key))
  {
    hide InRange;
    hide SearchSpec;
    RangeOf(t, created, key);
    MarksSorted(t);
    SearchCorrect(t, created, key);
  }

  // ---- reading one level ----

  /** `sort_by` on creation time, newest first. */
  function InsertByAge(r: Reader, rs: seq<Reader>): seq<Reader> {
    if rs == [] then [r]
    else if r.metadata.created > rs[0].metadata.created then [r] + rs
    else [rs[0]] + InsertByAge(r, rs[1..])
  }

  function SortByAge(rs: seq<Reader>): seq<Reader> {
    if rs == [] then [] else InsertByAge(rs[0], SortByAge(rs[1..]))
  }

  ghost predicate NewestFirst(rs: seq<Reader>) {
    forall i, j | 0 <= i < j < |rs| :: rs[i].metadata.created >= rs[j].metadata.created
  }

  lemma {:induction false} InsertIs(r: Reader, rs: seq<Reader>)
    requires NewestFirst(rs)
    ensures NewestFirst(InsertByAge(r, rs))
    ensures forall x :: x in InsertByAge(r, rs) <==> x == r || x in rs
  {
    if rs != [] {
      assert rs == [rs[0]] + rs[1..];
      if r.metadata.created <= rs[0].metadata.created {
        InsertIs(r, rs[1..]);
        var rest := InsertByAge(r, rs[1..]);
        forall j | 0 <= j < |rest| ensures rs[0].metadata.created >= rest[j].metadata.created {
          assert rest[j] in rest;
        }
      }
    }
  }

  lemma {:induction false} SortIs(rs: seq<Reader>)
    ensures NewestFirst(SortByAge(rs))
    ensures forall x :: x in SortByAge(rs) <==> x in rs
  {
    if rs != [] {
      SortIs(rs[1..]);
      InsertIs(rs[0], SortByAge(rs[1..]));
      assert rs == [rs[0]] + rs[1..];
    }
  }

  /** The candidates are readers of the level's tables, among them every table seen so far that
      holds the key. */
  ghost predicate Candidates(valid: seq<Reader>, files: FileMap, done: set<Metadata>, d: Dir, key: Bytes)
    requires ValidDir(d)
  {
    && (forall r | r in valid :: ReadsFrom(r, d) && InRange(r.metadata, key))
    && (forall n | n in d && IsBin(n) && ReaderFor(d[n]).metadata in done && Find(Contents(d[n].bytes), key).Some? ::
          ReaderFor(d[n]) in valid)
  }

  lemma CandidateStep(valid: seq<Reader>, files: FileMap, done: set<Metadata>, d: Dir, key: Bytes, m: Metadata,
                      keep: bool)
    requires ValidDir(d) && Loaded(files, d) && m in files && Candidates(valid, files, done, d, key)
    requires |files[m].file| >= INDEX_OFFSET ==>
               keep == (InRange(files[m].metadata, key) &&
                        Bloom.MayContain(files[m].file[BLOOM_OFFSET..INDEX_OFFSET], key))
    ensures |files[m].file| >= INDEX_OFFSET
    ensures Candidates(if keep then valid + [files[m]] else valid, files, done + {m}, d, key)
  {
    hide InRange;
    hide Bloom.MayContain;
    hide ReaderFor;
    hide ReadsFrom;
    hide Find;
    hide IsBin;
    hide Contents;
    var more := if keep then valid + [files[m]] else valid;
    var name := Origin(files[m], d);
    TableBasics(d[name]);
    forall n | n in d && IsBin(n) && ReaderFor(d[n]).metadata in done + {m} && Find(Contents(d[n].bytes), key).Some?
      ensures ReaderFor(d[n]) in more
    {
      if ReaderFor(d[n]).metadata == m { KeptIfHeld(files, d, key, m, n, keep); }
    }
  }

  lemma KeptIfHeld(files: FileMap, d: Dir, key: Bytes, m: Metadata, n: string, keep: bool)
    requires ValidDir(d) && Loaded(files, d) && m in files
    requires n in d && IsBin(n) && ReaderFor(d[n]).metadata == m && Find(Contents(d[n].bytes), key).Some?
    requires |files[m].file| >= INDEX_OFFSET ==>
               keep == (InRange(files[m].metadata, key) &&
                        Bloom.MayContain(files[m].file[BLOOM_OFFSET..INDEX_OFFSET], key))
    ensures keep && files[m] == ReaderFor(d[n])
  {
    hide InRange;
    hide Bloom.MayContain;
    hide ReaderFor;
    hide Find;
    hide IsBin;
    TableBasics(d[n]);
    WorthIfHeld(d[n], key);
  }

  lemma TableBasics(f: FileData)
    requires IsTable(f.bytes)
    ensures |f.bytes| >= INDEX_OFFSET && ReaderFor(f).file == f.bytes && ReaderFor(f).metadata.created == f.created
  {
    OpenInverts(TableIn(f.bytes), f.created);
  }

  lemma WorthIfHeld(f: FileData, key: Bytes)
    requires IsTable(f.bytes) && Find(Contents(f.bytes), key).Some?
    ensures |f.bytes| >= INDEX_OFFSET
    ensures InRange(ReaderFor(f).metadata, key) && Bloom.MayContain(f.bytes[BLOOM_OFFSET..INDEX_OFFSET], key)
  {
    hide InRange;
    hide Bloom.MayContain;
    hide Find;
    var t := TableIn(f.bytes);
    TableBasics(f);
    OpenInverts(t, f.created);
    RangeOf(t, 0, key);
    RangeOf(t, f.created, key);
    if Skipped(t, key) { SkippedMisses(t, key); }
  }

  method ReadLevel(files: FileMap, key: Bytes, ghost d: Dir) returns (answer: Result<Option<Bytes>, ReadError>)
    ensures ValidDir(d) && Loaded(files, d) ==> answer == Ok(LevelLookup(ViewOf(d), key))
  {
    hide InRange;
    hide SearchSpec;
    hide Candidates;
    hide Loaded;
    hide ViewOf;
    hide LevelLookup;
    hide Bloom.MayContain;
    hide SortedMarks;
    ghost var ok := ValidDir(d) && Loaded(files, d);
    var valid: seq<Reader> := [];
    var remaining := files.Keys;
    ghost var done: set<Metadata> := {};
    if ok { NoCandidates(files, d, key); }
    while remaining != {}
      invariant done + remaining == files.Keys
      invariant ok ==> Candidates(valid, files, done, d, key)
      decreases remaining
    {
      var m :| m in remaining;
      remaining := remaining - {m};
      var worth := Worth(files[m], key);
      if ok { CandidateStep(valid, files, done, d, key, m, worth.Ok? && worth.value); }
      if worth.Err? { return Err(worth.error); }
      if worth.value { valid := valid + [files[m]]; }
      done := done + {m};
    }
    var sorted := SortByAge(valid);
    if ok { SortingKeeps(valid, sorted, files, d, key); }
    var i := 0;
    while i < |sorted|
      invariant 0 <= i <= |sorted|
      invariant ok ==> AllMissed(sorted, i, d, key)
    {
      var found, _, _ := Search(sorted[i], key);
      if ok { SearchStep(sorted, i, files, d, key, found); }
      if found.Err? { return Err(found.error); }
      if found.value.Some? { return Ok(found.value); }
      i := i + 1;
    }
    if ok { NoneLeft(sorted, files, d, key); }
    return Ok(None);
  }

  lemma NoCandidates(files: FileMap, d: Dir, key: Bytes)
    requires ValidDir(d)
    ensures Candidates([], files, {}, d, key)
  {
  }

  lemma SortingKeeps(valid: seq<Reader>, sorted: seq<Reader>, files: FileMap, d: Dir, key: Bytes)
    requires ValidDir(d) && Candidates(valid, files, files.Keys, d, key) && sorted == SortByAge(valid)
    ensures Candidates(sorted, files, files.Keys, d, key) && NewestFirst(sorted)
  {
    hide InRange;
    hide ReaderFor;
    hide Find;
    SortIs(valid);
  }

  /** No table whose reader stands before `i` holds the key. */
  ghost predicate AllMissed(sorted: seq<Reader>, i: nat, d: Dir, key: Bytes)
    requires ValidDir(d)
  {
    && i <= |sorted|
    && forall n, p | n in d && IsBin(n) && 0 <= p < i && sorted[p] == ReaderFor(d[n]) ::
         Find(Contents(d[n].bytes), key).None?
  }

  /** One table's turn: it is searched exactly; a hit is the level's answer, a miss is remembered. */
  lemma SearchStep(sorted: seq<Reader>, i: nat, files: FileMap, d: Dir, key: Bytes,
                   found: Result<Option<Bytes>, ReadError>)
    requires ValidDir(d) && Loaded(files, d) && Candidates(sorted, files, files.Keys, d, key) && NewestFirst(sorted)
    requires i < |sorted| && AllMissed(sorted, i, d, key)
    requires SortedMarks(sorted[i].metadata.sparseIndex) ==> found == SearchSpec(sorted[i], key).answer
    ensures found.Ok?
    ensures found.value.Some? ==> found == Ok(LevelLookup(ViewOf(d), key))
    ensures found.value.None? ==> AllMissed(sorted, i + 1, d, key)
  {
    hide InRange;
    hide SearchSpec;
    hide SortedMarks;
    hide LevelLookup;
    hide ViewOf;
    hide ReaderOf;
    hide ReadsFrom;
    hide Find;
    hide IsBin;
    var name := Origin(sorted[i], d);
    SearchInRange(TableIn(d[name].bytes), d[name].created, key);
    assert found == Ok(Find(Contents(d[name].bytes), key));
    if found.value.Some? {
      HitIsNewest(sorted, i, files, d, key, name);
    } else {
      forall n, p | n in d && IsBin(n) && 0 <= p < i + 1 && sorted[p] == ReaderFor(d[n])
        ensures Find(Contents(d[n].bytes), key).None?
      {
        if p == i {
          TableBasics(d[n]);
          TableBasics(d[name]);
        }
      }
    }
  }

  lemma ViewAt(d: Dir, n: string)
    requires ValidDir(d) && n in d && IsBin(n)
    ensures d[n].created in ViewOf(d) && ViewOf(d)[d[n].created] == Contents(d[n].bytes)
  {
  }

  lemma ViewFrom(d: Dir, c: nat) returns (n: string)
    requires ValidDir(d) && c in ViewOf(d)
    ensures n in d && IsBin(n) && d[n].created == c && ViewOf(d)[c] == Contents(d[n].bytes)
  {
    n :| n in d && IsBin(n) && d[n].created == c;
    ViewAt(d, n);
  }

  /** The position of a candidate in the sorted list. */
  lemma CandidateAt(sorted: seq<Reader>, files: FileMap, d: Dir, key: Bytes, n: string) returns (p: nat)
    requires ValidDir(d) && Loaded(files, d) && Candidates(sorted, files, files.Keys, d, key)
    requires n in d && IsBin(n) && Find(Contents(d[n].bytes), key).Some?
    ensures p < |sorted| && sorted[p] == ReaderFor(d[n])
  {
    hide InRange;
    hide ReaderFor;
    hide ReadsFrom;
    hide Find;
    hide IsBin;
    var r := ReaderFor(d[n]);
    assert r.metadata in files;
    assert r in sorted;
    p :| 0 <= p < |sorted| && sorted[p] == r;
  }

  lemma HitIsNewest(sorted: seq<Reader>, i: nat, files: FileMap, d: Dir, key: Bytes, name: string)
    requires ValidDir(d) && Loaded(files, d) && Candidates(sorted, files, files.Keys, d, key) && NewestFirst(sorted)
    requires i < |sorted| && AllMissed(sorted, i, d, key)
    requires name in d && IsBin(name) && sorted[i] == ReaderFor(d[name])
    requires Find(Contents(d[name].bytes), key).Some?
    ensures LevelLookup(ViewOf(d), key) == Find(Contents(d[name].bytes), key)
  {
    hide InRange;
    hide ReaderOf;
    hide ReadsFrom;
    hide Find;
    hide LevelLookup;
    hide IsBin;
    hide ViewOf;
    hide Candidates;
    hide Loaded;
    hide Contents;
    hide AllMissed;
    hide NewestFirst;
    var v, created := ViewOf(d), d[name].created;
    ViewAt(d, name);
    forall c | c in v && created < c ensures Find(v[c], key).None? {
      NewerMisses(sorted, i, files, d, key, name, c);
    }
    HitDecides(v, key, created);
  }

  lemma NewerMisses(sorted: seq<Reader>, i: nat, files: FileMap, d: Dir, key: Bytes, name: string, c: nat)
    requires ValidDir(d) && Loaded(files, d) && Candidates(sorted, files, files.Keys, d, key) && NewestFirst(sorted)
    requires i < |sorted| && AllMissed(sorted, i, d, key)
    requires name in d && IsBin(name) && sorted[i] == ReaderFor(d[name])
    requires c in ViewOf(d) && d[name].created < c
    ensures Find(ViewOf(d)[c], key).None?
  {
    hide InRange;
    hide ReaderFor;
    hide ReadsFrom;
    hide Find;
    hide IsBin;
    hide IsTable;
    hide ViewOf;
    hide Candidates;
    hide Loaded;
    hide Contents;
    hide AllMissed;
    var n := ViewFrom(d, c);
    TableBasics(d[n]);
    TableBasics(d[name]);
    if Find(Contents(d[n].bytes), key).Some? {
      var p := CandidateAt(sorted, files, d, key, n);
      assert p < i;
      MissedAt(sorted, i, d, key, n, p);
    }
  }

  lemma MissedAt(sorted: seq<Reader>, i: nat, d: Dir, key: Bytes, n: string, p: nat)
    requires ValidDir(d) && AllMissed(sorted, i, d, key)
    requires n in d && IsBin(n) && p < i && sorted[p] == ReaderFor(d[n])
    ensures Find(Contents(d[n].bytes), key).None?
  {
    hide Find;
    hide IsBin;
    hide Contents;
    hide ReaderFor;
  }

  lemma NoneLeft(sorted: seq<Reader>, files: FileMap, d: Dir, key: Bytes)
    requires ValidDir(d) && Loaded(files, d) && Candidates(sorted, files, files.Keys, d, key)
    requires AllMissed(sorted, |sorted|, d, key)
    ensures LevelLookup(ViewOf(d), key) == None
  {
    hide InRange;
    hide ReaderOf;
    hide ReadsFrom;
    hide Find;
    hide LevelLookup;
    hide IsBin;
    hide ViewOf;
    hide Candidates;
    hide Loaded;
    hide Contents;
    var v := ViewOf(d);
    forall c | c in v ensures Find(v[c], key).None? {
      var n := ViewFrom(d, c);
      if Find(v[c], key).Some? {
        var p := CandidateAt(sorted, files, d, key, n);
      }
    }
    MissIff(v, key);
  }

  // ---- the tree ----

  ghost predicate AllValid(ds: seq<Dir>) {
    forall i | 0 <= i < |ds| :: ValidDir(ds[i])
  }

  ghost predicate AllLoaded(levels: seq<FileMap>, ds: seq<Dir>)
    requires AllValid(ds)
  {
    |levels| == |ds| && forall i | 0 <= i < |ds| :: Loaded(levels[i], ds[i])
  }

  lemma TreeLookupFrom(ds: seq<Dir>, i: nat, key: Bytes)
    requires AllValid(ds) && i < |ds|
    ensures TreeLookup(ViewsOf(ds)[i..], key) ==
            if LevelLookup(ViewOf(ds[i]), key).Some? then LevelLookup(ViewOf(ds[i]), key)
            else TreeLookup(ViewsOf(ds)[i + 1..], key)
  {
    hide LevelLookup;
    var vs := ViewsOf(ds);
    assert vs[i..][0] == ViewOf(ds[i]) && vs[i..][1..] == vs[i + 1..];
  }

  // ---- directories with foreign files ----

  /** The directory without the `.bin` files whose header is not the store's. */
  function Known(d: Dir): Dir {
    map n | n in d && !(IsBin(n) && Opened(d[n]) == Ok(None)) :: d[n]
  }

  function AllKnown(ds: seq<Dir>): (r: seq<Dir>)
    ensures |r| == |ds|
  {
    seq(|ds|, i requires 0 <= i < |ds| => Known(ds[i]))
  }

  lemma TableOpens(f: FileData)
    requires IsTable(f.bytes)
    ensures Opened(f) == Ok(Some(ReaderFor(f))) && ReaderFor(f).metadata.created == f.created
  {
    hide OpenSpec;
    OpenInverts(TableIn(f.bytes), f.created);
  }

  /** Loading a directory loads the tables among its files; a foreign file changes nothing. */
  lemma LoadsKnown(files: FileMap, d: Dir)
    requires LoadedFrom(files, d) && ValidDir(Known(d))
    ensures Loaded(files, Known(d))
  {
    hide Opened;
    hide IsBin;
    hide IsTable;
    hide ReaderFor;
    var k := Known(d);
    forall n | n in k && IsBin(n)
      ensures var r := ReaderFor(k[n]); r.metadata in files && files[r.metadata] == r
    {
      TableOpens(k[n]);
      var r := ReaderFor(k[n]);
      assert OpenedAs(d, n, r);
      var m :| OpenedAs(d, m, files[r.metadata]);
      assert m in k;
      TableOpens(k[m]);
      assert m == n;
    }
    forall m | m in files ensures ReadsFrom(files[m], k) {
      var n :| OpenedAs(d, n, files[m]);
      assert n in k;
      TableOpens(k[n]);
      ReadsName(k, n);
    }
  }

  lemma LevelKnown(ds: seq<Dir>, i: nat)
    requires AllValid(AllKnown(ds)) && i < |ds|
    ensures AllKnown(ds)[i] == Known(ds[i]) && ValidDir(Known(ds[i]))
  {
    hide ValidDir;
    hide Known;
  }

  class LsmTreeReader {
    var levelArray: seq<FileMap>

    constructor ()
      ensures levelArray == []
    {
      levelArray := [];
    }

    /** Scan the level directories, top level first. It fails exactly when some table file cannot be
        opened; otherwise every level holds the readers of its files, foreign ones left out. */
    method Reload(dirs: seq<Dir>) returns (r: Result<(), ReadError>)
      modifies this
      ensures r.Ok? <==> forall i, n | 0 <= i < |dirs| && n in dirs[i] && IsBin(n) :: Opened(dirs[i][n]).Ok?
      ensures r.Ok? ==> |levelArray| == |dirs| && forall i | 0 <= i < |dirs| :: LoadedFrom(levelArray[i], dirs[i])
      ensures r.Ok? && AllValid(AllKnown(dirs)) ==> AllLoaded(levelArray, AllKnown(dirs))
      ensures AllValid(dirs) ==> r.Ok? && AllLoaded(levelArray, dirs)
      ensures r.Err? ==> levelArray == old(levelArray)
    {
      hide Loaded;
      hide LoadedFrom;
      hide Opened;
      hide IsBin;
      hide ValidDir;
      hide Known;
      hide AllKnown;
      var levels: seq<FileMap> := [];
      var i := 0;
      while i < |dirs|
        invariant 0 <= i <= |dirs| && |levels| == i
        invariant levelArray == old(levelArray)
        invariant forall j, n | 0 <= j < i && n in dirs[j] && IsBin(n) :: Opened(dirs[j][n]).Ok?
        invariant forall j | 0 <= j < i :: LoadedFrom(levels[j], dirs[j])
        invariant AllValid(dirs) ==> forall j | 0 <= j < i :: Loaded(levels[j], dirs[j])
      {
        var level := LoadLevel(dirs[i]);
        assert AllValid(dirs) ==> ValidDir(dirs[i]);
        if level.Err? { return Err(level.error); }
        levels := levels + [level.value];
        i := i + 1;
      }
      levelArray := levels;
      if AllValid(AllKnown(dirs)) {
        forall j | 0 <= j < |dirs| ensures ValidDir(AllKnown(dirs)[j]) && Loaded(levels[j], AllKnown(dirs)[j]) {
          LevelKnown(dirs, j);
          LoadsKnown(levels[j], dirs[j]);
        }
      }
      return Ok(());
    }

    /** Whatever the tables, the answer is the newest-first, upper-level-first lookup. */
    method Read(key: Bytes, ghost dirs: seq<Dir>) returns (answer: Result<Option<Bytes>, ReadError>)
      ensures AllValid(dirs) && AllLoaded(levelArray, dirs) ==> answer == Ok(TreeLookup(ViewsOf(dirs), key))
    {
      hide Loaded;
      hide LevelLookup;
      hide ViewOf;
      hide TreeLookup;
      ghost var ok := AllValid(dirs) && AllLoaded(levelArray, dirs);
      var i := 0;
      while i < |levelArray|
        invariant 0 <= i <= |levelArray|
        invariant ok ==> TreeLookup(ViewsOf(dirs)[i..], key) == TreeLookup(ViewsOf(dirs)[0..], key)
      {
        ghost var d: Dir := if ok then dirs[i] else map[];
        var found := ReadLevel(levelArray[i], key, d);
        if ok { TreeLookupFrom(dirs, i, key); }
        if found.Err? { return Err(found.error); }
        if found.value.Some? {
          assert ok ==> ViewsOf(dirs)[0..] == ViewsOf(dirs);
          return Ok(found.value);
        }
        i := i + 1;
      }
      if ok {
        assert ViewsOf(dirs)[i..] == [] && ViewsOf(dirs)[0..] == ViewsOf(dirs);
        EmptyTree(key);
      }
      return Ok(None);
    }
  }

  lemma EmptyTree(key: Bytes)
    ensures TreeLookup([], key) == None
  {
  }
}
