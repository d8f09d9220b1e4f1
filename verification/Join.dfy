/** Compaction on bytes: finding a data section, the two-way merge of two open files, and
    rebuilding an SSTable around a merged section. */
module Join {
  import opened Wrappers
  import opened Bytes
  import opened Records
  import opened Merging
  import opened SSTable
  import opened Levels
  import Bloom

  datatype CompactionError =
    | EmptyUnit | NoOutput | NotFound | UnexpectedEof
    | InvalidCrc | InvalidFooter | InvalidSparseIndex | InvalidData | TooLong

  /** A merge input: a whole SSTable, or an intermediate file that is only a data section. */
  datatype TableFile = SSTableFile(bytes: Bytes) | RawSection(bytes: Bytes)

  datatype SectionAt = SectionAt(start: nat, size: nat)

  /** Where a file's data section lies, or why the file is rejected. */
  function ToDataSection(f: TableFile): Result<SectionAt, CompactionError> {
    var b := f.bytes;
    match f
    case RawSection(_) => Ok(SectionAt(0, |b|))
    case SSTableFile(_) =>
      if |b| < HEADER_SIZE then Err(UnexpectedEof)
      else if b[..HEADER_SIZE] != HeaderCrc() then Err(InvalidCrc)
      else if |b| < BLOOM_OFFSET then Err(UnexpectedEof)
      else
        var footerSize := FromLe(b[HEADER_SIZE..BLOOM_OFFSET]);
        if footerSize == 0 || footerSize > |b| then Err(InvalidFooter)
        else if |b| < INDEX_OFFSET + 4 then Err(UnexpectedEof)
        else
          var start := INDEX_OFFSET + 4 + FromLe(b[INDEX_OFFSET..INDEX_OFFSET + 4]);
          if start > |b| || start + footerSize > |b| then Err(InvalidSparseIndex)
          else Ok(SectionAt(start, |b| - start - footerSize))
  }

  ghost predicate HoldsRecords(f: TableFile, rs: seq<Record>) {
    && Sorted(rs) && AllFit(rs)
    && match f
       case SSTableFile(b) => IsTable(b) && Contents(b) == rs
       case RawSection(b) => b == Encode(rs)
  }

  /** The section lies at `at` and holds exactly the encoded records. */
  ghost predicate SectionHolds(file: Bytes, at: SectionAt, rs: seq<Record>) {
    && at.start + at.size <= |file|
    && at.size == |Encode(rs)|
    && CursorAt(file, at.start, rs, 0, file[at.start + at.size..])
    && AllFit(rs)
  }

  lemma TableSectionFound(t: Table)
    requires ValidTable(t)
    ensures var r := ToDataSection(SSTableFile(Layout(t)));
            r.Ok? && SectionHolds(Layout(t), r.value, t.records)
  {
    hide HeaderCrc;
    hide Bloom.Block;
    hide Sorted;
    hide EncodeFrom;
    var rs := t.records;
    var (enc, data, footer) := (EncodeMarks(MarksOf(rs, t.index)), Encode(rs), Footer(MaxKey(rs)));
    LayoutParts(Bloom.Block(t.k, KeysOf(rs)), enc, data, footer);
  }

  /** A table's bytes determine its records. */
  lemma ContentsOf(t: Table)
    requires ValidTable(t)
    ensures IsTable(Layout(t)) && Contents(Layout(t)) == t.records
  {
    hide Layout;
    hide ToDataSection;
    hide EncodeFrom;
    var u := TableIn(Layout(t));
    TableSectionFound(t);
    TableSectionFound(u);
    var (b, at) := (Layout(t), ToDataSection(SSTableFile(Layout(t))).value);
    SectionIs(b, at, t.records);
    SectionIs(b, at, u.records);
    EncodeInjective(t.records, u.records, 0);
    assert t.records[0..] == t.records && u.records[0..] == u.records;
  }

  lemma SectionIs(b: Bytes, at: SectionAt, rs: seq<Record>)
    requires SectionHolds(b, at, rs)
    ensures b[at.start..at.start + at.size] == EncodeFrom(rs, 0)
  {
    var tail := b[at.start + at.size..];
    assert b[at.start..][..at.size] == b[at.start..at.start + at.size];
    assert (EncodeFrom(rs, 0) + tail)[..at.size] == EncodeFrom(rs, 0);
  }

  /** The compactor finds the data section of anything either writer produced. */
  lemma SectionFound(f: TableFile, rs: seq<Record>)
    requires HoldsRecords(f, rs)
    ensures ToDataSection(f).Ok? && SectionHolds(f.bytes, ToDataSection(f).value, rs)
  {
    hide SectionHolds;
    match f
    case RawSection(b) =>
      RawSectionFound(rs);
    case SSTableFile(b) =>
      TableSectionFound(TableIn(b));
  }

  lemma RawSectionFound(rs: seq<Record>)
    requires AllFit(rs)
    ensures SectionHolds(Encode(rs), SectionAt(0, |Encode(rs)|), rs)
  {
    var b := Encode(rs);
    assert b[|b|..] == [];
    assert b[0..] == b + [];
  }

  // ---- reading past tombstones ----

  /** The records still to come on one side: the one in hand, then the unread ones that survive. */
  ghost function Coming(entry: Option<Record>, rs: seq<Record>, i: nat): seq<Record> {
    if entry.None? then [] else [entry.value] + StripFrom(rs, i)
  }

  function Unread(size: nat, ptr: nat): nat {
    if ptr < size then size - ptr else 0
  }

  /** The records a file yields from `ptr` until the cursor has passed the section. A last record
      that claims more bytes than the section has is read from what follows it. */
  function Scan(file: Bytes, at: SectionAt, ptr: nat): Option<seq<Record>>
    decreases at.size - ptr
  {
    if ptr >= at.size then Some([])
    else
      match ReadRecord(file, at.start + ptr)
      case None => None
      case Some(r) =>
        match Scan(file, at, r.next - at.start)
        case None => None
        case Some(rest) => Some([r.record] + rest)
  }

  /** The unread part of the file is `rs[i..]`. */
  ghost predicate Unscanned(file: Bytes, at: SectionAt, ptr: nat, rs: seq<Record>, i: nat) {
    i <= |rs| && Scan(file, at, ptr) == Some(rs[i..])
  }

  lemma ScanNext(file: Bytes, at: SectionAt, ptr: nat, rs: seq<Record>, i: nat)
    requires Unscanned(file, at, ptr, rs, i) && ptr < at.size
    ensures i < |rs| && ReadRecord(file, at.start + ptr).Some?
    ensures var r := ReadRecord(file, at.start + ptr).value;
            r.record == rs[i] && Unscanned(file, at, r.next - at.start, rs, i + 1)
  {
    hide ReadRecord;
    var r := ReadRecord(file, at.start + ptr).value;
    var rest := Scan(file, at, r.next - at.start).value;
    assert rs[i..][0] == r.record && rs[i..][1..] == rest == rs[i + 1..];
  }

  /** The cursor moved from `ptr` past the next surviving record, or to the end of the section; in a
      file whose records cannot all be read it stays on the way to the failure. */
  ghost predicate Advanced(file: Bytes, at: SectionAt, ptr: nat, rs: seq<Record>, i: nat,
                           entry: Option<Record>, next: nat, j: nat)
  {
    && (Unscanned(file, at, ptr, rs, i) ==>
          Unscanned(file, at, next, rs, j) && Coming(entry, rs, j) == StripFrom(rs, i))
    && (Scan(file, at, ptr).None? ==> entry.Some? && Scan(file, at, next).None?)
    && (entry.Some? ==> Fits(entry.value))
  }

  method ReadNextNonTombstone(file: Bytes, at: SectionAt, ptr: nat, ghost rs: seq<Record>, ghost i: nat)
    returns (entry: Result<Option<Record>, CompactionError>, next: nat, ghost j: nat)
    ensures entry.Ok? ==> Advanced(file, at, ptr, rs, i, entry.value, next, j)
    ensures entry.Err? ==> Scan(file, at, ptr).None? && entry.error == UnexpectedEof
    ensures Unread(at.size, next) <= Unread(at.size, ptr)
    ensures entry.Ok? && entry.value.Some? ==> Unread(at.size, next) < Unread(at.size, ptr)
  {
    hide ReadRecord;
    hide Unscanned;
    hide Fits;
    ghost var ok := Unscanned(file, at, ptr, rs, i);
    next, j := ptr, i;
    if ok { UnscannedBound(file, at, ptr, rs, i); }
    while next < at.size
      invariant ptr <= next
      invariant ok ==> Unscanned(file, at, next, rs, j) && j <= |rs| && StripFrom(rs, j) == StripFrom(rs, i)
      invariant Scan(file, at, ptr).None? <==> Scan(file, at, next).None?
      decreases at.size - next
    {
      if ok { ScanNext(file, at, next, rs, j); }
      var r := ReadRecord(file, at.start + next);
      if r.None? { return Err(UnexpectedEof), next, j; }
      ReadSound(file, at.start + next);
      next := next + (r.value.next - (at.start + next));
      j := j + 1;
      if IsTombstone(r.value.record) { continue; }
      return Ok(Some(r.value.record)), next, j;
    }
    if ok { ScanDone(file, at, next, rs, j); }
    return Ok(None), next, j;
  }

  lemma UnscannedBound(file: Bytes, at: SectionAt, ptr: nat, rs: seq<Record>, i: nat)
    requires Unscanned(file, at, ptr, rs, i)
    ensures i <= |rs|
  {
  }

  lemma ScanDone(file: Bytes, at: SectionAt, ptr: nat, rs: seq<Record>, i: nat)
    requires Unscanned(file, at, ptr, rs, i) && ptr >= at.size
    ensures i == |rs|
  {
  }

  lemma {:induction false} ScanFits(file: Bytes, at: SectionAt, ptr: nat)
    requires Scan(file, at, ptr).Some?
    ensures AllFit(Scan(file, at, ptr).value)
    decreases at.size - ptr
  {
    hide ReadRecord;
    hide Fits;
    if ptr < at.size {
      ReadSound(file, at.start + ptr);
      ScanFits(file, at, ReadRecord(file, at.start + ptr).value.next - at.start);
    }
  }

  lemma {:induction false} ScanSection(file: Bytes, at: SectionAt, rs: seq<Record>, i: nat)
    requires SectionHolds(file, at, rs) && i <= |rs|
    ensures Scan(file, at, Offset(rs, i)) == Some(rs[i..])
    decreases |rs| - i
  {
    hide ReadRecord;
    hide EncodeRecord;
    hide SectionHolds;
    SectionSize(file, at, rs);
    OffsetSplits(rs, i);
    if i < |rs| {
      OffsetIncreases(rs, i, |rs|);
      OffsetSplits(rs, |rs|);
      AtRecord(file, at, rs, i);
      ScanSection(file, at, rs, i + 1);
      assert rs[i..] == [rs[i]] + rs[i + 1..];
    } else {
      assert rs[i..] == [];
    }
  }

  lemma SectionSize(file: Bytes, at: SectionAt, rs: seq<Record>)
    requires SectionHolds(file, at, rs)
    ensures at.size == |Encode(rs)|
  {
  }

  /** The compactor reads exactly the records of anything either writer, or a merge, produced. */
  lemma ScanFile(f: TableFile, rs: seq<Record>)
    requires HoldsRecords(f, rs)
    ensures ToDataSection(f).Ok? && Scan(f.bytes, ToDataSection(f).value, 0) == Some(rs)
  {
    hide SectionHolds;
    hide ToDataSection;
    hide HoldsRecords;
    SectionFound(f, rs);
    ScanSection(f.bytes, ToDataSection(f).value, rs, 0);
    assert rs[0..] == rs;
  }

  lemma AtRecord(file: Bytes, at: SectionAt, rs: seq<Record>, j: nat)
    requires SectionHolds(file, at, rs) && j <= |rs| && Offset(rs, j) < at.size
    ensures j < |rs|
    ensures ReadRecord(file, at.start + Offset(rs, j)) == Some(RecordRead(rs[j], at.start + Offset(rs, j + 1)))
  {
    hide ReadRecord;
    OffsetSplits(rs, j);
    var tail := file[at.start + at.size..];
    SeekTo(file, at.start, rs, j, tail);
    CursorReads(file, at.start + Offset(rs, j), rs, j, tail);
  }

  // ---- the merge ----

  /** One side of the merge: `l` is what survives of the file's records, `n` how many of them have
      been written, `entry` and the unread rest are the others. */
  ghost predicate Side(entry: Option<Record>, rs: seq<Record>, i: nat, l: seq<Record>, n: nat) {
    n <= |l| && l[n..] == Coming(entry, rs, i)
  }

  lemma SideHead(entry: Option<Record>, rs: seq<Record>, i: nat, l: seq<Record>, n: nat)
    requires Side(entry, rs, i, l, n)
    ensures entry.Some? <==> n < |l|
    ensures entry.Some? ==> l[n] == entry.value && l[n + 1..] == StripFrom(rs, i)
  {
    if entry.Some? {
      assert l[n..][0] == entry.value;
      assert l[n + 1..] == l[n..][1..];
    }
  }

  /** The written part is the encoding of `out`, and `out` plus what is left to merge is the merge. */
  ghost predicate MergeInv(dest: Bytes, out: seq<Record>, l: seq<Record>, n: nat, r: seq<Record>, m: nat) {
    n <= |l| && m <= |r| && dest == Encode(out) && out + MergeFrom(l, n, r, m) == Merge(l, r)
  }

  lemma MergeStep(dest: Bytes, out: seq<Record>, l: seq<Record>, n: nat, r: seq<Record>, m: nat)
    requires MergeInv(dest, out, l, n, r, m) && (n < |l| || m < |r|)
    ensures var t := NextTurn(l, n, r, m);
            MergeInv(dest + EncodeRecord(t.out), out + [t.out], l, t.i, r, t.j)
  {
    hide EncodeRecord;
    hide Encode;
    hide NextTurn;
    var t := NextTurn(l, n, r, m);
    EncodeSnoc(out, t.out);
    assert out + ([t.out] + MergeFrom(l, t.i, r, t.j)) == out + [t.out] + MergeFrom(l, t.i, r, t.j);
  }

  method WriteEntry(dest: Bytes, r: Record) returns (res: Result<Bytes, CompactionError>)
    ensures res == if Fits(r) then Ok(dest + EncodeRecord(r)) else Err(TooLong)
  {
    if |r.key| >= U32_LIMIT || |r.value| >= U32_LIMIT { return Err(TooLong); }
    var out := dest + U32(|r.key|);
    out := out + r.key;
    out := out + U32(|r.value|);
    out := out + r.value;
    assert out == dest + EncodeRecord(r);
    return Ok(out);
  }

  /** Both sides, the written bytes, and how far each side has got. */
  ghost predicate JoinInv(dest: Bytes, out: seq<Record>,
                          le: Option<Record>, l: seq<Record>, i: nat, n: nat,
                          re: Option<Record>, r: seq<Record>, j: nat, m: nat)
  {
    && Side(le, l, i, Strip(l), n) && Side(re, r, j, Strip(r), m)
    && MergeInv(dest, out, Strip(l), n, Strip(r), m)
    && AllFit(Strip(l)) && AllFit(Strip(r))
  }

  lemma JoinTurn(dest: Bytes, out: seq<Record>,
                 le: Option<Record>, l: seq<Record>, i: nat, n: nat,
                 re: Option<Record>, r: seq<Record>, j: nat, m: nat)
    requires JoinInv(dest, out, le, l, i, n, re, r, j, m) && (le.Some? || re.Some?)
    ensures le.Some? <==> n < |Strip(l)|
    ensures re.Some? <==> m < |Strip(r)|
    ensures le.Some? ==> le.value == Strip(l)[n] && Strip(l)[n + 1..] == StripFrom(l, i) && Fits(le.value)
    ensures re.Some? ==> re.value == Strip(r)[m] && Strip(r)[m + 1..] == StripFrom(r, j) && Fits(re.value)
    ensures var t := NextTurn(Strip(l), n, Strip(r), m);
            MergeInv(dest + EncodeRecord(t.out), out + [t.out], Strip(l), t.i, Strip(r), t.j)
  {
    hide Strip;
    hide EncodeRecord;
    SideHead(le, l, i, Strip(l), n);
    SideHead(re, r, j, Strip(r), m);
    MergeStep(dest, out, Strip(l), n, Strip(r), m);
  }

  lemma JoinStarts(l: seq<Record>, i: nat, le: Option<Record>, r: seq<Record>, j: nat, re: Option<Record>)
    requires AllFit(l) && AllFit(r)
    requires Coming(le, l, i) == StripFrom(l, 0) && Coming(re, r, j) == StripFrom(r, 0)
    ensures JoinInv([], [], le, l, i, 0, re, r, j, 0)
  {
    StripFits(l, 0);
    StripFits(r, 0);
    assert Strip(l)[0..] == Strip(l) && Strip(r)[0..] == Strip(r);
    assert [] + MergeFrom(Strip(l), 0, Strip(r), 0) == Merge(Strip(l), Strip(r));
  }

  lemma JoinEnds(dest: Bytes, out: seq<Record>,
                 l: seq<Record>, i: nat, n: nat, r: seq<Record>, j: nat, m: nat)
    requires JoinInv(dest, out, None, l, i, n, None, r, j, m)
    ensures dest == Encode(Merging.Join(l, r))
  {
    SideHead(None, l, i, Strip(l), n);
    SideHead(None, r, j, Strip(r), m);
    assert out + [] == out;
  }

  /** What joining two files gives, whatever they hold: an error of the first header that fails, an
      error if the records of either cannot be read, else the encoded merge. */
  function JoinSpec(left: TableFile, right: TableFile): Result<Bytes, CompactionError> {
    match ToDataSection(left)
    case Err(e) => Err(e)
    case Ok(lat) =>
      match ToDataSection(right)
      case Err(e) => Err(e)
      case Ok(rat) =>
        var (l, r) := (Scan(left.bytes, lat, 0), Scan(right.bytes, rat, 0));
        if l.None? || r.None? then Err(UnexpectedEof) else Ok(Encode(Merging.Join(l.value, r.value)))
  }

  /** On what the writers produce the result is the merge of the records. */
  lemma JoinsRecords(left: TableFile, right: TableFile, l: seq<Record>, r: seq<Record>)
    requires HoldsRecords(left, l) && HoldsRecords(right, r)
    ensures JoinSpec(left, right) == Ok(Encode(Merging.Join(l, r)))
  {
    hide HoldsRecords;
    hide ToDataSection;
    hide Scan;
    hide Encode;
    hide Merging.Join;
    ScanFile(left, l);
    ScanFile(right, r);
  }

  lemma WholeScan(file: Bytes, at: SectionAt)
    requires Scan(file, at, 0).Some?
    ensures Unscanned(file, at, 0, Scan(file, at, 0).value, 0) && AllFit(Scan(file, at, 0).value)
  {
    hide Scan;
    hide Fits;
    ScanFits(file, at, 0);
    var rs := Scan(file, at, 0).value;
    assert rs[0..] == rs;
  }

  /** One side of the merge: its records as far as they can be read, the record in hand, the cursor. */
  ghost predicate Reading(file: Bytes, at: SectionAt, rs: seq<Record>, entry: Option<Record>, ptr: nat, i: nat) {
    && (entry.Some? ==> Fits(entry.value))
    && match Scan(file, at, 0)
       case Some(all) => rs == all && Unscanned(file, at, ptr, rs, i)
       case None => entry.Some? && Scan(file, at, ptr).None?
  }

  /** What was written so far is whole records. */
  ghost predicate Whole(dest: Bytes, out: seq<Record>) {
    dest == Encode(out) && AllFit(out)
  }

  lemma WholeMore(dest: Bytes, out: seq<Record>, r: Record)
    requires Whole(dest, out) && Fits(r)
    ensures Whole(dest + EncodeRecord(r), out + [r])
  {
    hide EncodeRecord;
    hide Encode;
    hide Fits;
    EncodeSnoc(out, r);
  }

  lemma WholeParses(dest: Bytes, out: seq<Record>)
    requires Whole(dest, out)
    ensures Parse(dest) == Some(out)
  {
    ParseIff(dest, out);
  }

  lemma WholeNothing()
    ensures Whole([], [])
  {
  }

  /** Both sides, and the merge if both can be read to the end. */
  ghost predicate JoinAt(left: Bytes, lat: SectionAt, right: Bytes, rat: SectionAt, dest: Bytes, out: seq<Record>,
                         le: Option<Record>, l: seq<Record>, lptr: nat, i: nat, n: nat,
                         re: Option<Record>, r: seq<Record>, rptr: nat, j: nat, m: nat)
  {
    && Whole(dest, out)
    && Reading(left, lat, l, le, lptr, i) && Reading(right, rat, r, re, rptr, j)
    && (Scan(left, lat, 0).Some? && Scan(right, rat, 0).Some? ==> JoinInv(dest, out, le, l, i, n, re, r, j, m))
  }

  /** The records of a file, none if they cannot be read. */
  ghost function Readable(file: Bytes, at: SectionAt): seq<Record> {
    match Scan(file, at, 0)
    case Some(rs) => rs
    case None => []
  }

  lemma ReadingOn(file: Bytes, at: SectionAt, rs: seq<Record>, entry: Option<Record>, ptr: nat, i: nat,
                  entry2: Option<Record>, next: nat, j: nat)
    requires Reading(file, at, rs, entry, ptr, i) && Advanced(file, at, ptr, rs, i, entry2, next, j)
    ensures Reading(file, at, rs, entry2, next, j)
  {
    hide Scan;
    hide Unscanned;
    hide Fits;
    hide Coming;
  }

  lemma JoinAtStart(left: Bytes, lat: SectionAt, right: Bytes, rat: SectionAt,
                    le: Option<Record>, lptr: nat, i: nat, re: Option<Record>, rptr: nat, j: nat)
    requires Advanced(left, lat, 0, Readable(left, lat), 0, le, lptr, i)
    requires Advanced(right, rat, 0, Readable(right, rat), 0, re, rptr, j)
    ensures JoinAt(left, lat, right, rat, [], [], le, Readable(left, lat), lptr, i, 0, re, Readable(right, rat), rptr,
                   j, 0)
  {
    hide Unscanned;
    hide Fits;
    hide Coming;
    hide JoinInv;
    hide AllFit;
    var (l, r) := (Readable(left, lat), Readable(right, rat));
    WholeNothing();
    hide Whole;
    if Scan(left, lat, 0).Some? { WholeScan(left, lat); }
    if Scan(right, rat, 0).Some? { WholeScan(right, rat); }
    hide Scan;
    if Scan(left, lat, 0).Some? && Scan(right, rat, 0).Some? { JoinStarts(l, i, le, r, j, re); }
  }

  /** The newer record goes out, alone or for both sides. */
  lemma TakeLeft(left: Bytes, lat: SectionAt, right: Bytes, rat: SectionAt, dest: Bytes, out: seq<Record>,
                 le: Option<Record>, l: seq<Record>, lptr: nat, i: nat, n: nat,
                 re: Option<Record>, r: seq<Record>, rptr: nat, j: nat, m: nat,
                 le2: Option<Record>, lptr2: nat, i2: nat)
    requires JoinAt(left, lat, right, rat, dest, out, le, l, lptr, i, n, re, r, rptr, j, m)
    requires le.Some? && (re.Some? ==> Cmp(le.value.key, re.value.key).Lt?)
    requires Advanced(left, lat, lptr, l, i, le2, lptr2, i2)
    ensures Fits(le.value)
    ensures JoinAt(left, lat, right, rat, dest + EncodeRecord(le.value), out + [le.value],
                   le2, l, lptr2, i2, n + 1, re, r, rptr, j, m)
  {
    hide Scan;
    hide Unscanned;
    hide Fits;
    hide Strip;
    hide Coming;
    hide MergeInv;
    hide EncodeRecord;
    hide Cmp;
    hide AllFit;
    hide Whole;
    WholeMore(dest, out, le.value);
    ReadingOn(left, lat, l, le, lptr, i, le2, lptr2, i2);
    if Scan(left, lat, 0).Some? && Scan(right, rat, 0).Some? { JoinTurn(dest, out, le, l, i, n, re, r, j, m); }
  }

  lemma TakeRight(left: Bytes, lat: SectionAt, right: Bytes, rat: SectionAt, dest: Bytes, out: seq<Record>,
                  le: Option<Record>, l: seq<Record>, lptr: nat, i: nat, n: nat,
                  re: Option<Record>, r: seq<Record>, rptr: nat, j: nat, m: nat,
                  re2: Option<Record>, rptr2: nat, j2: nat)
    requires JoinAt(left, lat, right, rat, dest, out, le, l, lptr, i, n, re, r, rptr, j, m)
    requires re.Some? && (le.Some? ==> Cmp(le.value.key, re.value.key).Gt?)
    requires Advanced(right, rat, rptr, r, j, re2, rptr2, j2)
    ensures Fits(re.value)
    ensures JoinAt(left, lat, right, rat, dest + EncodeRecord(re.value), out + [re.value],
                   le, l, lptr, i, n, re2, r, rptr2, j2, m + 1)
  {
    hide Scan;
    hide Unscanned;
    hide Fits;
    hide Strip;
    hide Coming;
    hide MergeInv;
    hide EncodeRecord;
    hide Cmp;
    hide AllFit;
    hide Whole;
    WholeMore(dest, out, re.value);
    ReadingOn(right, rat, r, re, rptr, j, re2, rptr2, j2);
    if Scan(left, lat, 0).Some? && Scan(right, rat, 0).Some? { JoinTurn(dest, out, le, l, i, n, re, r, j, m); }
  }

  lemma TakeBoth(left: Bytes, lat: SectionAt, right: Bytes, rat: SectionAt, dest: Bytes, out: seq<Record>,
                 le: Option<Record>, l: seq<Record>, lptr: nat, i: nat, n: nat,
                 re: Option<Record>, r: seq<Record>, rptr: nat, j: nat, m: nat,
                 le2: Option<Record>, lptr2: nat, i2: nat, re2: Option<Record>, rptr2: nat, j2: nat)
    requires JoinAt(left, lat, right, rat, dest, out, le, l, lptr, i, n, re, r, rptr, j, m)
    requires le.Some? && re.Some? && Cmp(le.value.key, re.value.key).Eq?
    requires Advanced(left, lat, lptr, l, i, le2, lptr2, i2) && Advanced(right, rat, rptr, r, j, re2, rptr2, j2)
    ensures JoinAt(left, lat, right, rat, dest + EncodeRecord(le.value), out + [le.value],
                   le2, l, lptr2, i2, n + 1, re2, r, rptr2, j2, m + 1)
  {
    hide Scan;
    hide Unscanned;
    hide Fits;
    hide Strip;
    hide Coming;
    hide MergeInv;
    hide EncodeRecord;
    hide Cmp;
    hide AllFit;
    hide Whole;
    WholeMore(dest, out, le.value);
    ReadingOn(left, lat, l, le, lptr, i, le2, lptr2, i2);
    ReadingOn(right, rat, r, re, rptr, j, re2, rptr2, j2);
    if Scan(left, lat, 0).Some? && Scan(right, rat, 0).Some? { JoinTurn(dest, out, le, l, i, n, re, r, j, m); }
  }

  /** A side whose records cannot all be read always has a record in hand. */
  lemma JoinAtIs(left: Bytes, lat: SectionAt, right: Bytes, rat: SectionAt, dest: Bytes, out: seq<Record>,
                 le: Option<Record>, l: seq<Record>, lptr: nat, i: nat, n: nat,
                 re: Option<Record>, r: seq<Record>, rptr: nat, j: nat, m: nat)
    requires JoinAt(left, lat, right, rat, dest, out, le, l, lptr, i, n, re, r, rptr, j, m)
    ensures Parse(dest).Some?
    ensures le.Some? ==> Fits(le.value) && Parse(dest + EncodeRecord(le.value)).Some?
    ensures re.Some? ==> Fits(re.value) && Parse(dest + EncodeRecord(re.value)).Some?
    ensures Scan(left, lat, lptr).None? ==> Scan(left, lat, 0).None?
    ensures Scan(right, rat, rptr).None? ==> Scan(right, rat, 0).None?
    ensures le.None? && re.None? ==>
              && Scan(left, lat, 0) == Some(l) && Scan(right, rat, 0) == Some(r)
              && dest == Encode(Merging.Join(l, r))
  {
    hide Scan;
    hide Fits;
    hide Encode;
    hide Merging.Join;
    hide JoinInv;
    hide Whole;
    hide Parse;
    hide EncodeRecord;
    WholeParses(dest, out);
    if le.Some? {
      WholeMore(dest, out, le.value);
      WholeParses(dest + EncodeRecord(le.value), out + [le.value]);
    }
    if re.Some? {
      WholeMore(dest, out, re.value);
      WholeParses(dest + EncodeRecord(re.value), out + [re.value]);
    }
    if le.None? && re.None? { JoinEnds(dest, out, l, i, n, r, j, m); }
  }

  lemma JoinFails(left: TableFile, right: TableFile)
    ensures ToDataSection(left).Err? ==> JoinSpec(left, right) == Err(ToDataSection(left).error)
    ensures ToDataSection(left).Ok? && ToDataSection(right).Err? ==>
              JoinSpec(left, right) == Err(ToDataSection(right).error)
  {
    hide ToDataSection;
  }

  lemma JoinResult(left: TableFile, lat: SectionAt, right: TableFile, rat: SectionAt)
    requires ToDataSection(left) == Ok(lat) && ToDataSection(right) == Ok(rat)
    ensures Scan(left.bytes, lat, 0).None? || Scan(right.bytes, rat, 0).None? ==>
              JoinSpec(left, right) == Err(UnexpectedEof)
    ensures Scan(left.bytes, lat, 0).Some? && Scan(right.bytes, rat, 0).Some? ==>
              JoinSpec(left, right) ==
              Ok(Encode(Merging.Join(Scan(left.bytes, lat, 0).value, Scan(right.bytes, rat, 0).value)))
  {
    hide ToDataSection;
    hide Scan;
    hide Encode;
    hide Merging.Join;
  }

  lemma NothingParses()
    ensures Parse([]).Some?
  {
    WholeNothing();
    WholeParses([], []);
  }

  /** `dest` is what the output file holds at the end: if the merge fails, the records written until
      then. */
  method JoinTables(left: TableFile, right: TableFile) returns (res: Result<(), CompactionError>, dest: Bytes)
    ensures match JoinSpec(left, right)
            case Ok(bytes) => res == Ok(()) && dest == bytes
            case Err(e) => res == Err(e) && Parse(dest).Some?
  {
    hide ToDataSection;
    hide JoinSpec;
    hide EncodeRecord;
    hide Encode;
    hide Merging.Join;
    hide Cmp;
    hide Scan;
    hide Fits;
    hide JoinAt;
    hide Advanced;
    hide Readable;
    hide Parse;
    dest := [];
    NothingParses();
    JoinFails(left, right);
    var ls := ToDataSection(left);
    if ls.Err? { return Err(ls.error), dest; }
    var rs := ToDataSection(right);
    if rs.Err? { return Err(rs.error), dest; }
    var (lat, rat) := (ls.value, rs.value);
    JoinResult(left, lat, right, rat);
    ghost var l, r := Readable(left.bytes, lat), Readable(right.bytes, rat);
    ghost var i: nat, j: nat, n: nat, m: nat, out: seq<Record> := 0, 0, 0, 0, [];
    var lptr: nat, rptr: nat := 0, 0;
    var entry: Result<Option<Record>, CompactionError>;
    entry, lptr, i := ReadNextNonTombstone(left.bytes, lat, 0, l, 0);
    if entry.Err? { return Err(entry.error), dest; }
    var le := entry.value;
    entry, rptr, j := ReadNextNonTombstone(right.bytes, rat, 0, r, 0);
    if entry.Err? { return Err(entry.error), dest; }
    var re := entry.value;
    JoinAtStart(left.bytes, lat, right.bytes, rat, le, lptr, i, re, rptr, j);

    while le.Some? && re.Some?
      invariant JoinAt(left.bytes, lat, right.bytes, rat, dest, out, le, l, lptr, i, n, re, r, rptr, j, m)
      decreases Unread(lat.size, lptr) + Unread(rat.size, rptr)
                + (if le.Some? then 1 else 0) + (if re.Some? then 1 else 0)
    {
      ghost var dest0, out0 := dest, out;
      JoinAtIs(left.bytes, lat, right.bytes, rat, dest, out, le, l, lptr, i, n, re, r, rptr, j, m);
      match Cmp(le.value.key, re.value.key)
      case Lt =>
        var w := WriteEntry(dest, le.value);
        if w.Err? { return Err(TooLong), dest; }
        dest, out := w.value, out + [le.value];
        var more, next, i2 := ReadNextNonTombstone(left.bytes, lat, lptr, l, i);
        if more.Err? { return Err(more.error), dest; }
        TakeLeft(left.bytes, lat, right.bytes, rat, dest0, out0, le, l, lptr, i, n, re, r, rptr, j, m, more.value, next,
                 i2);
        n := n + 1;
        le, lptr, i := more.value, next, i2;
      case Gt =>
        var w := WriteEntry(dest, re.value);
        if w.Err? { return Err(TooLong), dest; }
        dest, out := w.value, out + [re.value];
        var more, next, j2 := ReadNextNonTombstone(right.bytes, rat, rptr, r, j);
        if more.Err? { return Err(more.error), dest; }
        TakeRight(left.bytes, lat, right.bytes, rat, dest0, out0, le, l, lptr, i, n, re, r, rptr, j, m, more.value,
                  next, j2);
        m := m + 1;
        re, rptr, j := more.value, next, j2;
      case Eq =>
        var w := WriteEntry(dest, le.value);
        if w.Err? { return Err(TooLong), dest; }
        dest, out := w.value, out + [le.value];
        var lentry, lnext, i2 := ReadNextNonTombstone(left.bytes, lat, lptr, l, i);
        if lentry.Err? { return Err(lentry.error), dest; }
        var rentry, rnext, j2 := ReadNextNonTombstone(right.bytes, rat, rptr, r, j);
        if rentry.Err? { return Err(rentry.error), dest; }
        TakeBoth(left.bytes, lat, right.bytes, rat, dest0, out0, le, l, lptr, i, n, re, r, rptr, j, m,
                 lentry.value, lnext, i2, rentry.value, rnext, j2);
        n, m := n + 1, m + 1;
        le, lptr, i := lentry.value, lnext, i2;
        re, rptr, j := rentry.value, rnext, j2;
    }

    while le.Some?
      invariant le.None? || re.None?
      invariant JoinAt(left.bytes, lat, right.bytes, rat, dest, out, le, l, lptr, i, n, re, r, rptr, j, m)
      decreases Unread(lat.size, lptr) + (if le.Some? then 1 else 0)
    {
      ghost var dest0, out0 := dest, out;
      JoinAtIs(left.bytes, lat, right.bytes, rat, dest, out, le, l, lptr, i, n, re, r, rptr, j, m);
      var w := WriteEntry(dest, le.value);
      if w.Err? { return Err(TooLong), dest; }
      dest, out := w.value, out + [le.value];
      var more, next, i2 := ReadNextNonTombstone(left.bytes, lat, lptr, l, i);
      if more.Err? { return Err(more.error), dest; }
      TakeLeft(left.bytes, lat, right.bytes, rat, dest0, out0, le, l, lptr, i, n, re, r, rptr, j, m, more.value, next,
               i2);
      n := n + 1;
      le, lptr, i := more.value, next, i2;
    }

    while re.Some?
      invariant le.None?
      invariant JoinAt(left.bytes, lat, right.bytes, rat, dest, out, le, l, lptr, i, n, re, r, rptr, j, m)
      decreases Unread(rat.size, rptr) + (if re.Some? then 1 else 0)
    {
      ghost var dest0, out0 := dest, out;
      JoinAtIs(left.bytes, lat, right.bytes, rat, dest, out, le, l, lptr, i, n, re, r, rptr, j, m);
      var w := WriteEntry(dest, re.value);
      if w.Err? { return Err(TooLong), dest; }
      dest, out := w.value, out + [re.value];
      var more, next, j2 := ReadNextNonTombstone(right.bytes, rat, rptr, r, j);
      if more.Err? { return Err(more.error), dest; }
      TakeRight(left.bytes, lat, right.bytes, rat, dest0, out0, le, l, lptr, i, n, re, r, rptr, j, m, more.value, next,
                j2);
      m := m + 1;
      re, rptr, j := more.value, next, j2;
    }
    JoinAtIs(left.bytes, lat, right.bytes, rat, dest, out, le, l, lptr, i, n, re, r, rptr, j, m);
    return Ok(()), dest;
  }
}
