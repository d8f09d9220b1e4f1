/** Opening an SSTable and searching it: the sparse-index parser, the footer, binary search on the
    index, and the scan that has no end marker of its own. */
module TableReader {
  import opened Wrappers
  import opened Bytes
  import opened Records
  import opened SSTable
  import Bloom

  datatype ReadError = UnexpectedEof | InvalidSeek

  datatype Metadata = Metadata(created: nat, sparseIndex: seq<Mark>, maxKey: Bytes)

  /** An open table after its index has been read: the cached metadata and data-section offset. */
  datatype Reader = Reader(file: Bytes, dataOffset: nat, metadata: Metadata)

  // ---- parsing ----

  datatype MarkRead = MarkRead(mark: Mark, next: nat)

  function ParseMark(buf: Bytes, pos: nat): (r: Option<MarkRead>)
    ensures r.Some? ==> pos < r.value.next <= |buf|
  {
    if pos + 4 > |buf| then None
    else
      var keyEnd := pos + 4 + FromLe(buf[pos..pos + 4]);
      if keyEnd > |buf| || keyEnd + 8 > |buf| then None
      else Some(MarkRead(Mark(FromLe(buf[keyEnd..keyEnd + 8]), buf[pos + 4..keyEnd]), keyEnd + 8))
  }

  function ParseMarks(buf: Bytes, pos: nat, acc: seq<Mark>): Result<seq<Mark>, ReadError>
    decreases |buf| - pos
  {
    if pos >= |buf| then Ok(acc)
    else
      match ParseMark(buf, pos)
      case None => Err(UnexpectedEof)
      case Some(m) => ParseMarks(buf, m.next, acc + [m.mark])
  }

  method ParseSparseIndex(buf: Bytes) returns (r: Result<seq<Mark>, ReadError>)
    ensures r == ParseMarks(buf, 0, [])
  {
    hide FromLe;
    var result: seq<Mark> := [];
    var pos := 0;
    while pos < |buf|
      invariant 0 <= pos <= |buf|
      invariant ParseMarks(buf, pos, result) == ParseMarks(buf, 0, [])
    {
      ghost var step := ParseMark(buf, pos);
      if pos + 4 > |buf| { return Err(UnexpectedEof); }
      var keyLen := FromLe(buf[pos..pos + 4]);
      pos := pos + 4;
      if pos + keyLen > |buf| { return Err(UnexpectedEof); }
      var key := buf[pos..pos + keyLen];
      pos := pos + keyLen;
      if pos + 8 > |buf| { return Err(UnexpectedEof); }
      var offset := FromLe(buf[pos..pos + 8]);
      pos := pos + 8;
      assert step == Some(MarkRead(Mark(offset, key), pos));
      result := result + [Mark(offset, key)];
    }
    return Ok(result);
  }

  /** `seek(End(-footer_size))`, then a length and a key. Absurd sizes give the empty key. */
  function ReadFooter(file: Bytes): Result<Bytes, ReadError> {
    if |file| < BLOOM_OFFSET then Err(UnexpectedEof)
    else
      var footerSize := FromLe(file[HEADER_SIZE..BLOOM_OFFSET]);
      if footerSize == 0 || footerSize > MAX_FOOTER then Ok([])
      else if footerSize > |file| then Err(InvalidSeek)
      else
        match ReadPrefixed(file, |file| - footerSize)
        case None => Err(UnexpectedEof)
        case Some(p) => Ok(p.bytes)
  }

  /** Header check, sparse index, footer. `Ok(None)` is a file skipped for its header. */
  function OpenSpec(file: Bytes, created: nat): Result<Option<Reader>, ReadError> {
    if |file| < HEADER_SIZE then Err(UnexpectedEof)
    else if file[..HEADER_SIZE] != HeaderCrc() then Ok(None)
    else if |file| < INDEX_OFFSET + 4 then Err(UnexpectedEof)
    else
      var start := INDEX_OFFSET + 4 + FromLe(file[INDEX_OFFSET..INDEX_OFFSET + 4]);
      if start > |file| then Err(UnexpectedEof)
      else
        match ParseMarks(file[INDEX_OFFSET + 4..start], 0, [])
        case Err(e) => Err(e)
        case Ok(marks) =>
          match ReadFooter(file)
          case Err(e) => Err(e)
          case Ok(maxKey) => Ok(Some(Reader(file, start, Metadata(created, marks, maxKey))))
  }

  method Open(file: Bytes, created: nat) returns (r: Result<Option<Reader>, ReadError>)
    ensures r == OpenSpec(file, created)
  {
    hide ParseMarks;
    hide HeaderCrc;
    hide FromLe;
    if |file| < HEADER_SIZE { return Err(UnexpectedEof); }
    var crc := file[..HEADER_SIZE];
    if crc != HeaderCrc() { return Ok(None); }
    if |file| < INDEX_OFFSET + 4 { return Err(UnexpectedEof); }
    var size := FromLe(file[INDEX_OFFSET..INDEX_OFFSET + 4]);
    var dataOffset := INDEX_OFFSET + 4 + size;
    if dataOffset > |file| { return Err(UnexpectedEof); }
    var marks := ParseSparseIndex(file[INDEX_OFFSET + 4..dataOffset]);
    if marks.Err? { return Err(marks.error); }
    var maxKey := ReadFooter(file);
    if maxKey.Err? { return Err(maxKey.error); }
    return Ok(Some(Reader(file, dataOffset, Metadata(created, marks.value, maxKey.value))));
  }

  // ---- the layout round trip ----

  lemma ParseMarkInverts(buf: Bytes, pos: nat, m: Mark, tail: Bytes)
    requires pos <= |buf| && buf[pos..] == EncodeMark(m) + tail
    requires |m.key| < U32_LIMIT && m.offset < U64_LIMIT
    ensures var next := pos + |EncodeMark(m)|;
            && next <= |buf| && buf[next..] == tail && ParseMark(buf, pos) == Some(MarkRead(m, next))
  {
    Assoc(Prefixed(m.key), U64(m.offset), tail);
    PeelPrefixed(buf, pos, m.key, U64(m.offset) + tail);
    PeelFirst(buf, pos + 4 + |m.key|, U64(m.offset), tail);
  }

  lemma {:induction false} ParseMarksInverts(buf: Bytes, pos: nat, ms: seq<Mark>, i: nat)
    requires forall j | 0 <= j < |ms| :: |ms[j].key| < U32_LIMIT && ms[j].offset < U64_LIMIT
    requires i <= |ms| && pos <= |buf| && buf[pos..] == EncodeMarksFrom(ms, i)
    ensures ParseMarks(buf, pos, ms[..i]) == Ok(ms)
    decreases |ms| - i
  {
    hide ParseMark;
    hide EncodeMark;
    if i < |ms| {
      ParseMarkInverts(buf, pos, ms[i], EncodeMarksFrom(ms, i + 1));
      ParseMarksInverts(buf, pos + |EncodeMark(ms[i])|, ms, i + 1);
      assert ms[..i] + [ms[i]] == ms[..i + 1];
    } else {
      assert ms[..i] == ms;
    }
  }

  ghost function ReaderOf(t: Table, created: nat): Reader
    requires forall j | 0 <= j < |t.index| :: t.index[j] < |t.records|
  {
    Reader(Layout(t), DataStart(t), Metadata(created, MarksOf(t.records, t.index), MaxKey(t.records)))
  }

  lemma FooterInverts(file: Bytes, maxKey: Bytes)
    requires |file| >= BLOOM_OFFSET + 4 + |maxKey|
    requires file[HEADER_SIZE..BLOOM_OFFSET] == U64(|Footer(maxKey)|)
    requires file[|file| - |Footer(maxKey)|..] == Footer(maxKey)
    requires |Footer(maxKey)| <= MAX_FOOTER
    ensures ReadFooter(file) == Ok(maxKey)
  {
    var at := |file| - |Footer(maxKey)|;
    assert file[at..] == Prefixed(maxKey) + [];
    ReadPrefixedInverts(file, at, maxKey, []);
  }

  lemma MarksFit(t: Table)
    requires ValidTable(t)
    ensures forall j | 0 <= j < |t.index| ::
              var m := MarksOf(t.records, t.index)[j]; |m.key| < U32_LIMIT && m.offset < U64_LIMIT
  {
    forall j | 0 <= j < |t.index| ensures Offset(t.records, t.index[j]) < U64_LIMIT {
      OffsetSplits(t.records, t.index[j]);
    }
  }

  /** On the bytes of either writer the reader recovers the header, every mark, the data section's
      start and the max key. */
  lemma OpenInverts(t: Table, created: nat)
    requires ValidTable(t)
    ensures OpenSpec(Layout(t), created) == Ok(Some(ReaderOf(t, created)))
    ensures Layout(t)[BLOOM_OFFSET..INDEX_OFFSET] == Bloom.Block(t.k, KeysOf(t.records))
  {
    hide HeaderCrc;
    hide Bloom.Block;
    hide ParseMarks;
    hide ReadFooter;
    hide Sorted;
    var marks := MarksOf(t.records, t.index);
    var (enc, data, footer) := (EncodeMarks(marks), Encode(t.records), Footer(MaxKey(t.records)));
    LayoutParts(Bloom.Block(t.k, KeysOf(t.records)), enc, data, footer);
    MarksFit(t);
    assert enc[0..] == enc;
    assert marks[..0] == [];
    ParseMarksInverts(enc, 0, marks, 0);
    FooterInverts(Layout(t), MaxKey(t.records));
  }

  // ---- search ----

  ghost predicate SortedMarks(ms: seq<Mark>) {
    forall i, j {:trigger Less(ms[i].key, ms[j].key)} :: 0 <= i < j < |ms| ==> Less(ms[i].key, ms[j].key)
  }

  /** How many marks have a key not above the searched one, when the marks are sorted. */
  function Floor(ms: seq<Mark>, key: Bytes, n: nat): (r: nat)
    requires n <= |ms|
    ensures r <= n
  {
    if n == 0 then 0
    else if Less(key, ms[n - 1].key) then Floor(ms, key, n - 1)
    else n
  }

  lemma {:induction false} FloorIs(ms: seq<Mark>, key: Bytes, n: nat, cut: nat)
    requires SortedMarks(ms) && cut <= n <= |ms|
    requires cut > 0 ==> !Less(key, ms[cut - 1].key)
    requires forall j | cut <= j < n :: Less(key, ms[j].key)
    ensures Floor(ms, key, n) == cut
  {
    if cut < n { FloorIs(ms, key, n - 1, cut); }
  }

  /** `binary_search_by` on the mark keys. */
  method BinarySearch(ms: seq<Mark>, key: Bytes) returns (found: bool, idx: nat)
    ensures found ==> idx < |ms|
    ensures !found ==> idx <= |ms|
    ensures SortedMarks(ms) ==> Floor(ms, key, |ms|) == if found then idx + 1 else idx
    ensures found ==> ms[idx].key == key
  {
    hide Cmp;
    var low, high := 0, |ms|;
    while low < high
      invariant 0 <= low <= high <= |ms|
      invariant SortedMarks(ms) && low > 0 ==> Less(ms[low - 1].key, key)
      invariant SortedMarks(ms) ==> forall j | high <= j < |ms| :: Less(key, ms[j].key)
    {
      var mid := (low + high) / 2;
      CmpLaws(ms[mid].key, key);
      match Cmp(ms[mid].key, key)
      case Eq =>
        if SortedMarks(ms) {
          LessTotal(key, key);
          FloorIs(ms, key, |ms|, mid + 1) by {
            forall j | mid + 1 <= j < |ms| ensures Less(key, ms[j].key) {
              assert Less(ms[mid].key, ms[j].key);
            }
          }
        }
        return true, mid;
      case Lt =>
        low := mid + 1;
      case Gt =>
        if SortedMarks(ms) {
          CmpLaws(key, ms[mid].key);
          forall j | mid <= j < |ms| ensures Less(key, ms[j].key) {
            if mid < j {
              assert Less(ms[mid].key, ms[j].key);
              LessTransitive(key, ms[mid].key, ms[j].key);
            }
          }
        }
        high := mid;
    }
    if SortedMarks(ms) {
      if low > 0 { LessTotal(ms[low - 1].key, key); }
      FloorIs(ms, key, |ms|, low);
    }
    return false, low;
  }

  /** A finished scan: its answer, and the file position it stopped at. */
  datatype ScanEnd = ScanEnd(answer: Result<Option<Bytes>, ReadError>, stop: nat)

  /** Read records from `at` until one is not below the key. Running out of bytes at a record
      boundary is an absent key; running out inside a record is an error. */
  function ScanFile(file: Bytes, at: nat, key: Bytes): ScanEnd
    decreases |file| - at
  {
    if at + 4 > |file| then ScanEnd(Ok(None), at)
    else
      match ReadRecord(file, at)
      case None => ScanEnd(Err(UnexpectedEof), |file|)
      case Some(r) =>
        match Cmp(r.record.key, key)
        case Eq => ScanEnd(Ok(Some(r.record.value)), r.next)
        case Gt => ScanEnd(Ok(None), r.next)
        case Lt => ScanFile(file, r.next, key)
  }

  /** Where a search starts to read: at the last mark not above the key. */
  function SearchStart(r: Reader, key: Bytes): nat {
    var n := Floor(r.metadata.sparseIndex, key, |r.metadata.sparseIndex|);
    r.dataOffset + if n == 0 then 0 else r.metadata.sparseIndex[n - 1].offset
  }

  function SearchSpec(r: Reader, key: Bytes): ScanEnd {
    if Floor(r.metadata.sparseIndex, key, |r.metadata.sparseIndex|) == 0 then ScanEnd(Ok(None), r.dataOffset)
    else ScanFile(r.file, SearchStart(r, key), key)
  }

  /** `start` and `stop` are the file positions before and after the bytes the search reads. */
  method Search(r: Reader, key: Bytes)
    returns (answer: Result<Option<Bytes>, ReadError>, ghost start: nat, ghost stop: nat)
    ensures SortedMarks(r.metadata.sparseIndex) ==> answer == SearchSpec(r, key).answer
    ensures SortedMarks(r.metadata.sparseIndex) ==> start == SearchStart(r, key) && stop == SearchSpec(r, key).stop
  {
    hide FromLe;
    hide Cmp;
    hide SortedMarks;
    var ms := r.metadata.sparseIndex;
    var found, idx := BinarySearch(ms, key);
    if !found && idx == 0 { return Ok(None), r.dataOffset, r.dataOffset; }
    var at := r.dataOffset + (if found then ms[idx].offset else ms[idx - 1].offset);
    start := at;
    while true
      invariant ScanFile(r.file, at, key) == ScanFile(r.file, start, key)
      decreases |r.file| - at
    {
      if at + 4 > |r.file| { return Ok(None), start, at; }
      var entry := ReadRecord(r.file, at);
      if entry.None? { return Err(UnexpectedEof), start, |r.file|; }
      match Cmp(entry.value.record.key, key)
      case Eq => return Ok(Some(entry.value.record.value)), start, entry.value.next;
      case Gt => return Ok(None), start, entry.value.next;
      case Lt => at := entry.value.next;
    }
  }

  // ---- search is correct ----

  /** The first record from `i` on that is not below the key. */
  function StopAt(rs: seq<Record>, i: nat, key: Bytes): (r: nat)
    requires i <= |rs|
    ensures i <= r <= |rs|
    decreases |rs| - i
  {
    if i == |rs| || !Less(rs[i].key, key) then i else StopAt(rs, i + 1, key)
  }

  /** A scan of the file from record `i` answers as a scan of the records does, and stops right
      after the record it stopped for; only a key above all records runs into the footer. */
  lemma {:induction false} ScanFileIs(file: Bytes, start: nat, rs: seq<Record>, i: nat, maxKey: Bytes, key: Bytes)
    requires Sorted(rs) && AllFit(rs) && |maxKey| < U32_LIMIT
    requires i <= |rs| && CursorAt(file, start + Offset(rs, i), rs, i, Footer(maxKey))
    ensures var s, stop := ScanFile(file, start + Offset(rs, i), key), StopAt(rs, i, key);
            if stop < |rs|
            then s == ScanEnd(Ok(ScanFrom(rs, i, key)), start + Offset(rs, stop + 1))
            else s.answer == Err(UnexpectedEof)
    decreases |rs| - i
  {
    hide Sorted;
    hide ReadRecord;
    hide EncodeRecord;
    var at := start + Offset(rs, i);
    if i < |rs| {
      CursorReads(file, at, rs, i, Footer(maxKey));
      assert Offset(rs, i + 1) == Offset(rs, i) + |EncodeRecord(rs[i])|;
      CmpLaws(rs[i].key, key);
      CmpLaws(key, rs[i].key);
      match Cmp(rs[i].key, key)
      case Lt => ScanFileIs(file, start, rs, i + 1, maxKey, key);
      case Eq =>
      case Gt => SortedMissesBelow(rs, i, key);
    } else {
      FooterIsNoRecord(file, at, maxKey);
    }
  }

  /** The footer holds a key but no value, so it cannot be read as a record. */
  lemma FooterIsNoRecord(file: Bytes, at: nat, maxKey: Bytes)
    requires |maxKey| < U32_LIMIT
    requires at <= |file| && file[at..] == [] + Footer(maxKey)
    ensures at + 4 <= |file| && ReadRecord(file, at) == None
  {
    assert file[at..] == Prefixed(maxKey) + [];
    ReadPrefixedInverts(file, at, maxKey, []);
  }

  lemma MarksSorted(t: Table)
    requires ValidTable(t)
    ensures SortedMarks(MarksOf(t.records, t.index))
  {
    var ms := MarksOf(t.records, t.index);
    forall i, j | 0 <= i < j < |ms| ensures Less(ms[i].key, ms[j].key) {
      assert Earlier(t.index, i, j);
      assert Less(t.records[t.index[i]].key, t.records[t.index[j]].key);
    }
  }

  lemma {:induction false} FloorMark(ms: seq<Mark>, key: Bytes, n: nat)
    requires n <= |ms|
    ensures var f := Floor(ms, key, n);
            (f > 0 ==> !Less(key, ms[f - 1].key)) && (f < n ==> Less(key, ms[f].key))
  {
    if n > 0 { FloorMark(ms, key, n - 1); }
  }

  lemma {:induction false} StopIs(rs: seq<Record>, i: nat, key: Bytes, bound: nat)
    requires i <= bound <= |rs|
    requires bound < |rs| ==> !Less(rs[bound].key, key)
    ensures StopAt(rs, i, key) <= bound
    decreases bound - i
  {
    if i < bound { StopIs(rs, i + 1, key, bound); }
  }

  /** Scanning from record i instead of record 0 loses nothing when record i is not above the key. */
  lemma ScanFromMark(rs: seq<Record>, i: nat, key: Bytes)
    requires Sorted(rs) && i < |rs| && !Less(key, rs[i].key)
    ensures ScanFrom(rs, i, key) == Find(rs, key)
  {
    forall p | 0 <= p < i ensures rs[p].key != key {
      assert Less(rs[p].key, rs[i].key);
    }
    ScanSkips(rs, 0, i, key);
  }

  /** The data section of a table's file, with the cursor at record `i`. */
  lemma CursorInTable(t: Table, i: nat)
    requires ValidTable(t) && i <= |t.records|
    ensures CursorAt(Layout(t), DataStart(t) + Offset(t.records, i), t.records, i, Footer(MaxKey(t.records)))
  {
    hide Bloom.Block;
    hide HeaderCrc;
    hide Sorted;
    hide LayoutBytes;
    hide EncodeMarks;
    hide EncodeFrom;
    hide Footer;
    var (enc, data, footer) :=
      (EncodeMarks(MarksOf(t.records, t.index)), Encode(t.records), Footer(MaxKey(t.records)));
    LayoutParts(Bloom.Block(t.k, KeysOf(t.records)), enc, data, footer);
    hide MarksOf;
    SeekTo(Layout(t), DataStart(t), t.records, i, footer);
  }

  /** Between these file positions lie records of block `j` and at most one record more. */
  ghost predicate ReadsBlock(t: Table, j: nat, start: nat, stop: nat)
    requires ValidTable(t)
  {
    && j < |t.index|
    && start == DataStart(t) + Offset(t.records, t.index[j])
    && var end := BlockEnd(t.index, |t.records|, j);
       end <= |t.records|
       && stop <= DataStart(t) + Offset(t.records, if end < |t.records| then end + 1 else end)
  }

  /** The number of the block a search reads. */
  ghost function BlockFor(t: Table, key: Bytes): int
    requires ValidTable(t)
  {
    var ms := MarksOf(t.records, t.index);
    Floor(ms, key, |ms|) - 1
  }

  /** The key lies between the first and the last key of the table. */
  ghost predicate Inside(t: Table, key: Bytes) {
    t.records != [] && !Less(key, t.records[0].key) && !Less(MaxKey(t.records), key)
  }

  /** Search on any table either writer can produce, for any key. Below the first key it answers
      absent without reading; between the first and the max key it answers as a scan of all records
      would, reading from the last mark not above the key no further than the rest of that block and
      one record, never past the data section; above the max key it runs into the footer and fails,
      which is what the caller's range check prevents. */
  lemma SearchCorrect(t: Table, created: nat, key: Bytes)
    requires ValidTable(t)
    ensures var rs, r := t.records, ReaderOf(t, created);
            var s := SearchSpec(r, key);
            if rs == [] || Less(key, rs[0].key) then s.answer == Ok(None) && s.stop == SearchStart(r, key)
            else if Less(MaxKey(rs), key) then s.answer == Err(UnexpectedEof)
            else
              && s.answer == Ok(Find(rs, key))
              && s.stop <= DataStart(t) + |Encode(rs)|
              && BlockFor(t, key) >= 0 && ReadsBlock(t, BlockFor(t, key), SearchStart(r, key), s.stop)
  {
    hide SearchSpec;
    hide SearchStart;
    hide ReaderOf;
    hide BlockFor;
    hide ReadsBlock;
    hide DataStart;
    hide Encode;
    hide Find;
    hide Less;
    hide Sorted;
    hide MaxKey;
    hide Layout;
    hide ScanFile;
    hide ValidIndex;
    hide AllFit;
    hide MarksOf;
    hide EncodeMarks;
    hide Offset;
    if t.records == [] || Less(key, t.records[0].key) {
      SearchOutside(t, created, key);
    } else {
      SearchBegins(t, created, key);
      SearchFromMark(t, created, key, BlockFor(t, key));
    }
  }

  /** No mark is at or below the key: nothing is read. */
  lemma SearchOutside(t: Table, created: nat, key: Bytes)
    requires ValidTable(t) && (t.records == [] || Less(key, t.records[0].key))
    ensures var r := ReaderOf(t, created);
            SearchSpec(r, key).answer == Ok(None) && SearchSpec(r, key).stop == SearchStart(r, key)
  {
    hide Layout;
    hide DataStart;
    hide ScanFile;
    hide Floor;
    hide Less;
    if t.records == [] { NoMarks(t, key); } else { FirstMarkAbove(t, key); }
  }

  /** Otherwise the scan starts at a mark: the last one not above the key. */
  lemma SearchBegins(t: Table, created: nat, key: Bytes)
    requires ValidTable(t) && t.records != [] && !Less(key, t.records[0].key)
    ensures var (r, j) := (ReaderOf(t, created), BlockFor(t, key));
            && 0 <= j < |t.index| && t.index[j] < |t.records|
            && !Less(key, t.records[t.index[j]].key)
            && (j + 1 < |t.index| ==> t.index[j + 1] < |t.records| && Less(key, t.records[t.index[j + 1]].key))
            && SearchStart(r, key) == DataStart(t) + Offset(t.records, t.index[j])
            && SearchSpec(r, key) == ScanFile(Layout(t), SearchStart(r, key), key)
  {
    hide Layout;
    hide DataStart;
    hide ScanFile;
    hide Floor;
    hide Less;
    hide Sorted;
    hide AllFit;
    hide EncodeMarks;
    FirstMark(t);
    FloorMark(MarksOf(t.records, t.index), key, |t.index|);
  }

  lemma FirstMark(t: Table)
    requires ValidTable(t) && t.records != []
    ensures var ms := MarksOf(t.records, t.index);
            && |ms| > 0 && ms[0].key == t.records[0].key
            && forall j | 0 <= j < |ms| :: ms[j] == MarkOf(t.records, t.index[j])
  {
    hide Offset;
  }

  lemma NoMarks(t: Table, key: Bytes)
    requires ValidTable(t) && t.records == []
    ensures var ms := MarksOf(t.records, t.index); Floor(ms, key, |ms|) == 0
  {
  }

  lemma FirstMarkAbove(t: Table, key: Bytes)
    requires ValidTable(t) && t.records != [] && Less(key, t.records[0].key)
    ensures var ms := MarksOf(t.records, t.index); Floor(ms, key, |ms|) == 0
  {
    var ms := MarksOf(t.records, t.index);
    MarksSorted(t);
    forall j | 0 <= j < |ms| ensures Less(key, ms[j].key) {
      if j > 0 {
        assert Less(ms[0].key, ms[j].key);
        LessTransitive(key, ms[0].key, ms[j].key);
      }
    }
    FloorIs(ms, key, |ms|, 0);
  }

  lemma SearchFromMark(t: Table, created: nat, key: Bytes, j: nat)
    requires ValidTable(t) && j < |t.index|
    requires !Less(key, t.records[t.index[j]].key)
    requires j + 1 < |t.index| ==> Less(key, t.records[t.index[j + 1]].key)
    ensures var rs, s := t.records, ScanFile(Layout(t), DataStart(t) + Offset(t.records, t.index[j]), key);
            if Less(MaxKey(rs), key) then s.answer == Err(UnexpectedEof)
            else
              && s.answer == Ok(Find(rs, key))
              && s.stop <= DataStart(t) + |Encode(rs)|
              && ReadsBlock(t, j, DataStart(t) + Offset(rs, t.index[j]), s.stop)
  {
    hide Layout;
    hide DataStart;
    hide ScanFile;
    hide ScanFrom;
    hide StopAt;
    hide Cmp;
    hide ReadsBlock;
    var rs, i := t.records, t.index[j];
    CursorInTable(t, i);
    ScanFileIs(Layout(t), DataStart(t), rs, i, MaxKey(rs), key);
    if Less(MaxKey(rs), key) {
      StopsAtEnd(rs, i, key);
    } else {
      StopInBlock(t, key, j);
      ScanFromMark(rs, i, key);
    }
  }

  lemma StopInBlock(t: Table, key: Bytes, j: nat)
    requires ValidTable(t) && j < |t.index|
    requires !Less(MaxKey(t.records), key)
    requires j + 1 < |t.index| ==> Less(key, t.records[t.index[j + 1]].key)
    ensures var rs, i := t.records, t.index[j];
            var stop := StopAt(rs, i, key);
            && stop < |rs|
            && Offset(rs, stop + 1) <= |Encode(rs)|
            && ReadsBlock(t, j, DataStart(t) + Offset(rs, i), DataStart(t) + Offset(rs, stop + 1))
  {
    hide Layout;
    hide DataStart;
    hide StopAt;
    hide Cmp;
    hide Encode;
    hide MarksOf;
    hide Offset;
    var rs, i := t.records, t.index[j];
    var stop := StopAt(rs, i, key);
    StopIs(rs, i, key, |rs| - 1);
    OffsetSplits(rs, stop + 1);
    var end := BlockEnd(t.index, |rs|, j);
    if j + 1 < |t.index| {
      assert Earlier(t.index, j, j + 1);
      LessTotal(key, rs[end].key);
      StopIs(rs, i, key, end);
      MonotoneOffset(rs, stop + 1, end + 1);
    } else {
      MonotoneOffset(rs, stop + 1, end);
    }
  }

  lemma MonotoneOffset(rs: seq<Record>, i: nat, j: nat)
    requires i <= j <= |rs|
    ensures Offset(rs, i) <= Offset(rs, j)
  {
    if i < j { OffsetIncreases(rs, i, j); }
  }

  lemma {:induction false} StopsAtEnd(rs: seq<Record>, i: nat, key: Bytes)
    requires Sorted(rs) && rs != [] && i <= |rs| && Less(MaxKey(rs), key)
    ensures StopAt(rs, i, key) == |rs|
    decreases |rs| - i
  {
    if i < |rs| {
      StopsAtEnd(rs, i + 1, key);
      if i < |rs| - 1 {
        assert Less(rs[i].key, rs[|rs| - 1].key);
        LessTransitive(rs[i].key, MaxKey(rs), key);
      }
    }
  }

  // ---- how many bytes a search reads ----

  /** The encoded size of record `i`, nothing behind the last one. */
  function SizeAt(rs: seq<Record>, i: nat): nat {
    if i < |rs| then |EncodeRecord(rs[i])| else 0
  }

  /** What a search reads is the block's bytes and at most the record behind it. */
  lemma ReadSpan(t: Table, j: nat, start: nat, stop: nat)
    requires ValidTable(t) && ReadsBlock(t, j, start, stop)
    ensures var end := BlockEnd(t.index, |t.records|, j);
            t.index[j] < |t.records| && end <= |t.records|
            && stop - start <= Span(t.records, t.index[j], end) + SizeAt(t.records, end)
  {
    hide EncodeRecord;
    hide DataStart;
  }

  /** On a flushed table: at most the target block size, or the block's single record, and one
      record more. */
  lemma FlushSearchReads(t: Table, target: nat, created: nat, key: Bytes)
    requires ValidTable(t) && t.index == FlushIndex(t.records, target) && Inside(t, key)
    ensures var r, j := ReaderOf(t, created), BlockFor(t, key);
            && 0 <= j < |t.index|
            && var end := BlockEnd(t.index, |t.records|, j);
               SearchSpec(r, key).stop - SearchStart(r, key)
               <= (if SizeAt(t.records, t.index[j]) > target then SizeAt(t.records, t.index[j]) else target)
                  + SizeAt(t.records, end)
  {
    hide ReaderOf;
    hide SearchSpec;
    hide SearchStart;
    hide DataStart;
    hide EncodeRecord;
    hide FlushBlocks;
    hide Sorted;
    var (r, j) := (ReaderOf(t, created), BlockFor(t, key));
    SearchCorrect(t, created, key);
    ReadSpan(t, j, SearchStart(r, key), SearchSpec(r, key).stop);
    assert 0 <= j < |t.index|;
    FlushBlocksBounded(t.records, target, |t.records|);
    assert t.index == FlushBlocks(t.records, target, |t.records|).index;
    assert FlushBlockOk(t.index, t.records, target, |t.records|, j);
  }

  /** On a compacted table: less than the stride and two records more. */
  lemma CompactSearchReads(t: Table, stride: nat, created: nat, key: Bytes)
    requires ValidTable(t) && t.index == CompactIndex(t.records, stride) && stride > 0 && Inside(t, key)
    ensures var r, j := ReaderOf(t, created), BlockFor(t, key);
            && 0 <= j < |t.index|
            && var end := BlockEnd(t.index, |t.records|, j);
               && end > 0
               && SearchSpec(r, key).stop - SearchStart(r, key)
                  < stride + SizeAt(t.records, end - 1) + SizeAt(t.records, end)
  {
    hide ReaderOf;
    hide SearchSpec;
    hide SearchStart;
    hide DataStart;
    hide EncodeRecord;
    hide CompactBlocks;
    hide Sorted;
    var (r, j) := (ReaderOf(t, created), BlockFor(t, key));
    SearchCorrect(t, created, key);
    ReadSpan(t, j, SearchStart(r, key), SearchSpec(r, key).stop);
    assert 0 <= j < |t.index|;
    CompactBlocksBounded(t.records, stride, |t.records|);
    assert t.index == CompactBlocks(t.records, stride, |t.records|).index;
    assert CompactBlockOk(t.index, t.records, stride, |t.records|, j);
    LastOfBlock(t.records, t.index[j], BlockEnd(t.index, |t.records|, j));
  }

  lemma LastOfBlock(rs: seq<Record>, from: nat, end: nat)
    requires from < end <= |rs|
    ensures Span(rs, from, end) == Span(rs, from, end - 1) + SizeAt(rs, end - 1)
    ensures from + 1 == end ==> Span(rs, from, end - 1) == 0
  {
  }
}
