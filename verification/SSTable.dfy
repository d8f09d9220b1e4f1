/** The bytes of an SSTable, the two policies that choose which records its sparse index marks,
    and what both policies guarantee.

    [CRC 64][footer size u64][bloom 1000][index size u32][index][data section][max-key-len u32][max key] */
module SSTable {
  import opened Bytes
  import opened Records
  import Bloom

  const HEADER_SIZE: nat := 64
  const BLOOM_OFFSET: nat := HEADER_SIZE + 8
  const INDEX_OFFSET: nat := BLOOM_OFFSET + Bloom.BLOOM_FILTER_SIZE
  const MAX_FOOTER: nat := 10000

  function CrcByte(i: nat): Byte
    requires i < 64
  {
    (("054a62a514e1d7d93b2955772fe6070d03a9d58f34a42d85918ac975488dbbe4"[i] as int) % 256) as Byte
  }

  function HeaderCrc(): (crc: Bytes)
    ensures |crc| == HEADER_SIZE
  {
    seq(HEADER_SIZE, i requires 0 <= i < HEADER_SIZE => CrcByte(i))
  }

  // ---- the sparse index ----

  datatype Mark = Mark(offset: nat, key: Bytes)

  function EncodeMark(m: Mark): (b: Bytes)
    ensures |b| == 12 + |m.key|
  {
    Prefixed(m.key) + U64(m.offset)
  }

  function EncodeMarksFrom(ms: seq<Mark>, i: nat): Bytes
    decreases |ms| - i
  {
    if i >= |ms| then [] else EncodeMark(ms[i]) + EncodeMarksFrom(ms, i + 1)
  }

  function EncodeMarks(ms: seq<Mark>): Bytes {
    EncodeMarksFrom(ms, 0)
  }

  // ---- the file ----

  /** `index` lists the numbers of the marked records, `k` is the Bloom probe count. */
  datatype Table = Table(records: seq<Record>, index: seq<nat>, k: nat)

  function MaxKey(rs: seq<Record>): Bytes {
    if rs == [] then [] else rs[|rs| - 1].key
  }

  function KeysOf(rs: seq<Record>): (keys: seq<Bytes>)
    ensures |keys| == |rs|
  {
    seq(|rs|, i requires 0 <= i < |rs| => rs[i].key)
  }

  function MarkOf(rs: seq<Record>, i: nat): Mark
    requires i < |rs|
  {
    Mark(Offset(rs, i), rs[i].key)
  }

  predicate Earlier(index: seq<nat>, i: nat, j: nat)
    requires i < |index| && j < |index|
  {
    index[i] < index[j]
  }

  /** The index marks record 0 first, then later records in order. */
  ghost predicate ValidIndex(index: seq<nat>, n: nat) {
    && (index == [] <==> n == 0)
    && (n > 0 ==> index[0] == 0)
    && (forall j | 0 <= j < |index| :: index[j] < n)
    && (forall i, j | 0 <= i < j < |index| :: Earlier(index, i, j))
  }

  function MarksOf(rs: seq<Record>, index: seq<nat>): (ms: seq<Mark>)
    requires forall j | 0 <= j < |index| :: index[j] < |rs|
    ensures |ms| == |index|
  {
    seq(|index|, j requires 0 <= j < |index| => MarkOf(rs, index[j]))
  }

  function Footer(maxKey: Bytes): (f: Bytes)
    ensures |f| == 4 + |maxKey|
  {
    Prefixed(maxKey)
  }

  function LayoutBytes(bloom: Bytes, marks: Bytes, data: Bytes, footer: Bytes): Bytes {
    HeaderCrc() + (U64(|footer|) + (bloom + (U32(|marks|) + (marks + (data + footer)))))
  }

  ghost predicate ValidTable(t: Table) {
    && Sorted(t.records) && AllFit(t.records)
    && ValidIndex(t.index, |t.records|)
    && 2 <= t.k <= 16
    && |Footer(MaxKey(t.records))| <= MAX_FOOTER
    && |Encode(t.records)| < U64_LIMIT
    && |EncodeMarks(MarksOf(t.records, t.index))| < U32_LIMIT
  }

  ghost function Layout(t: Table): Bytes
    requires forall j | 0 <= j < |t.index| :: t.index[j] < |t.records|
  {
    LayoutBytes(Bloom.Block(t.k, KeysOf(t.records)), EncodeMarks(MarksOf(t.records, t.index)),
                Encode(t.records), Footer(MaxKey(t.records)))
  }

  function DataStart(t: Table): nat
    requires forall j | 0 <= j < |t.index| :: t.index[j] < |t.records|
  {
    INDEX_OFFSET + 4 + |EncodeMarks(MarksOf(t.records, t.index))|
  }

  /** Every part is found at its fixed or computed place. */
  lemma LayoutParts(bloom: Bytes, marks: Bytes, data: Bytes, footer: Bytes)
    requires |bloom| == Bloom.BLOOM_FILTER_SIZE
    ensures var b, start := LayoutBytes(bloom, marks, data, footer), INDEX_OFFSET + 4 + |marks|;
            && |b| == start + |data| + |footer|
            && b[..HEADER_SIZE] == HeaderCrc()
            && b[HEADER_SIZE..BLOOM_OFFSET] == U64(|footer|)
            && b[BLOOM_OFFSET..INDEX_OFFSET] == bloom
            && b[INDEX_OFFSET..INDEX_OFFSET + 4] == U32(|marks|)
            && b[INDEX_OFFSET + 4..start] == marks
            && b[start..] == data + footer
            && b[start + |data|..] == footer
  {
    hide HeaderCrc;
    hide U32;
    hide U64;
    var b := LayoutBytes(bloom, marks, data, footer);
    var r4 := marks + (data + footer);
    var r3 := U32(|marks|) + r4;
    var r2 := bloom + r3;
    assert b[0..] == b;
    PeelFirst(b, 0, HeaderCrc(), U64(|footer|) + r2);
    assert b[..HEADER_SIZE] == b[0..HEADER_SIZE];
    PeelFirst(b, HEADER_SIZE, U64(|footer|), r2);
    PeelFirst(b, BLOOM_OFFSET, bloom, r3);
    PeelFirst(b, INDEX_OFFSET, U32(|marks|), r4);
    PeelFirst(b, INDEX_OFFSET + 4, marks, data + footer);
    PeelFirst(b, INDEX_OFFSET + 4 + |marks|, data, footer);
  }

  /** An index over records with non-empty values takes at most 4/3 of the bytes of the records. */
  lemma {:induction false} MarksTake(rs: seq<Record>, index: seq<nat>, j: nat)
    requires ValidIndex(index, |rs|) && j <= |index|
    requires forall i | 0 <= i < |rs| :: |rs[i].value| >= 1
    ensures var from := if j < |index| then Offset(rs, index[j]) else |Encode(rs)|;
            3 * |EncodeMarksFrom(MarksOf(rs, index), j)| <= 4 * (|Encode(rs)| - from)
    decreases |index| - j
  {
    hide EncodeRecord;
    hide Encode;
    hide EncodeMark;
    if j < |index| {
      MarksTake(rs, index, j + 1);
      var end := if j + 1 < |index| then index[j + 1] else |rs|;
      if j + 1 < |index| { assert Earlier(index, j, j + 1); }
      OffsetIncreases(rs, index[j], end);
      OffsetSplits(rs, |rs|);
      assert MarksOf(rs, index)[j] == MarkOf(rs, index[j]);
    }
  }

  // ---- the two index policies ----

  /** The marks placed so far and the bytes in the block that is being filled. */
  datatype Blocks = Blocks(index: seq<nat>, bytes: nat)

  /** Flush: open a block at the first record and whenever the next one would overfill the block. */
  function FlushBlocks(rs: seq<Record>, target: nat, n: nat): Blocks
    requires n <= |rs|
  {
    if n == 0 then Blocks([], 0)
    else
      var (b, size) := (FlushBlocks(rs, target, n - 1), |EncodeRecord(rs[n - 1])|);
      if b.bytes == 0 || b.bytes + size > target then Blocks(b.index + [n - 1], size)
      else Blocks(b.index, b.bytes + size)
  }

  /** Compaction: open a block at the first record and once the block has reached the stride. */
  function CompactBlocks(rs: seq<Record>, stride: nat, n: nat): Blocks
    requires n <= |rs|
  {
    if n == 0 then Blocks([], 0)
    else
      var (b, size) := (CompactBlocks(rs, stride, n - 1), |EncodeRecord(rs[n - 1])|);
      if b.index == [] || b.bytes >= stride then Blocks(b.index + [n - 1], size)
      else Blocks(b.index, b.bytes + size)
  }

  function FlushIndex(rs: seq<Record>, target: nat): seq<nat> {
    FlushBlocks(rs, target, |rs|).index
  }

  function CompactIndex(rs: seq<Record>, stride: nat): seq<nat> {
    CompactBlocks(rs, stride, |rs|).index
  }

  /** The record after the last one of block `j`. */
  function BlockEnd(index: seq<nat>, n: nat, j: nat): nat
    requires j < |index|
  {
    if j + 1 < |index| then index[j + 1] else n
  }

  /** The bytes of records `from..to`. */
  function Span(rs: seq<Record>, from: nat, to: nat): int
    requires from <= |rs| && to <= |rs|
  {
    Offset(rs, to) - Offset(rs, from)
  }

  /** The block being filled holds exactly the records since the last mark. */
  ghost predicate BlocksAgree(b: Blocks, rs: seq<Record>, n: nat)
    requires n <= |rs|
  {
    && ValidIndex(b.index, n)
    && b.bytes == (if n == 0 then 0 else Span(rs, b.index[|b.index| - 1], n))
    && (n > 0 ==> b.bytes > 0)
  }

  lemma AddRecord(b: Blocks, rs: seq<Record>, n: nat, opens: bool)
    requires n < |rs| && BlocksAgree(b, rs, n) && (b.index == [] ==> opens)
    ensures var size := |EncodeRecord(rs[n])|;
            BlocksAgree(if opens then Blocks(b.index + [n], size) else Blocks(b.index, b.bytes + size), rs, n + 1)
  {
    hide EncodeRecord;
    assert Offset(rs, n + 1) == Offset(rs, n) + |EncodeRecord(rs[n])|;
    var index := b.index + [n];
    if n > 0 { assert index[0] == b.index[0]; }
    forall i, j | 0 <= i < j < |index| ensures Earlier(index, i, j) {
      if j < |b.index| { assert Earlier(b.index, i, j); }
    }
  }

  lemma {:induction false} FlushBlocksAgree(rs: seq<Record>, target: nat, n: nat)
    requires n <= |rs|
    ensures BlocksAgree(FlushBlocks(rs, target, n), rs, n)
  {
    hide BlocksAgree;
    hide EncodeRecord;
    if n > 0 {
      FlushBlocksAgree(rs, target, n - 1);
      var b := FlushBlocks(rs, target, n - 1);
      var opens := b.bytes == 0 || b.bytes + |EncodeRecord(rs[n - 1])| > target;
      EmptyBlocks(b, rs, n - 1);
      AddRecord(b, rs, n - 1, opens);
    } else {
      NoBlocks(rs);
    }
  }

  lemma NoBlocks(rs: seq<Record>)
    ensures BlocksAgree(Blocks([], 0), rs, 0)
  {
  }

  lemma EmptyBlocks(b: Blocks, rs: seq<Record>, n: nat)
    requires n <= |rs| && BlocksAgree(b, rs, n)
    ensures b.index == [] <==> b.bytes == 0
  {
  }

  lemma {:induction false} CompactBlocksAgree(rs: seq<Record>, stride: nat, n: nat)
    requires n <= |rs|
    ensures BlocksAgree(CompactBlocks(rs, stride, n), rs, n)
  {
    hide BlocksAgree;
    hide EncodeRecord;
    if n > 0 {
      CompactBlocksAgree(rs, stride, n - 1);
      var b := CompactBlocks(rs, stride, n - 1);
      AddRecord(b, rs, n - 1, b.index == [] || b.bytes >= stride);
    } else {
      NoBlocks(rs);
    }
  }

  /** Adding record n moves only the end of the last block. */
  lemma BlockEnds(b: Blocks, n: nat, opens: bool, j: nat)
    requires j < |b.index|
    ensures var index := if opens then b.index + [n] else b.index;
            && index[j] == b.index[j]
            && BlockEnd(index, n + 1, j) == if opens || j + 1 < |b.index| then BlockEnd(b.index, n, j) else n + 1
  {
  }

  ghost predicate FlushBlockOk(index: seq<nat>, rs: seq<Record>, target: nat, n: nat, j: nat)
    requires n <= |rs| && j < |index|
  {
    && index[j] <= BlockEnd(index, n, j) <= |rs|
    && (Span(rs, index[j], BlockEnd(index, n, j)) <= target || BlockEnd(index, n, j) == index[j] + 1)
    && (j + 1 < |index| ==> index[j + 1] < n && Span(rs, index[j], index[j + 1] + 1) > target)
  }

  lemma FlushBlockGrows(b: Blocks, rs: seq<Record>, target: nat, n: nat, opens: bool, j: nat)
    requires n < |rs| && BlocksAgree(b, rs, n)
    requires opens <==> b.bytes == 0 || b.bytes + |EncodeRecord(rs[n])| > target
    requires j < |b.index| && FlushBlockOk(b.index, rs, target, n, j)
    ensures FlushBlockOk(if opens then b.index + [n] else b.index, rs, target, n + 1, j)
  {
    hide EncodeRecord;
    BlockEnds(b, n, opens, j);
  }

  lemma FlushBlockOpens(index: seq<nat>, rs: seq<Record>, target: nat, n: nat)
    requires n < |rs|
    ensures FlushBlockOk(index + [n], rs, target, n + 1, |index|)
  {
    hide Offset;
  }

  /** A flush block is at most the target size, unless it is a single record, and the record behind it
      would not have fitted. */
  lemma {:induction false} FlushBlocksBounded(rs: seq<Record>, target: nat, n: nat)
    requires n <= |rs|
    ensures var index := FlushBlocks(rs, target, n).index;
            forall j | 0 <= j < |index| :: FlushBlockOk(index, rs, target, n, j)
  {
    hide EncodeRecord;
    hide FlushBlockOk;
    hide Offset;
    if n > 0 {
      FlushBlocksBounded(rs, target, n - 1);
      FlushBlocksAgree(rs, target, n - 1);
      hide BlocksAgree;
      var b, c := FlushBlocks(rs, target, n - 1), FlushBlocks(rs, target, n);
      var opens := b.bytes == 0 || b.bytes + |EncodeRecord(rs[n - 1])| > target;
      forall j | 0 <= j < |c.index| ensures FlushBlockOk(c.index, rs, target, n, j) {
        if j < |b.index| {
          FlushBlockGrows(b, rs, target, n - 1, opens, j);
        } else {
          FlushBlockOpens(b.index, rs, target, n - 1);
        }
      }
    }
  }

  ghost predicate CompactBlockOk(index: seq<nat>, rs: seq<Record>, stride: nat, n: nat, j: nat)
    requires n <= |rs| && j < |index|
  {
    && index[j] < BlockEnd(index, n, j) <= |rs|
    && (j + 1 < |index| ==> Span(rs, index[j], BlockEnd(index, n, j)) >= stride)
    && (index[j] + 1 < BlockEnd(index, n, j) ==> Span(rs, index[j], BlockEnd(index, n, j) - 1) < stride)
  }

  lemma CompactBlockGrows(b: Blocks, rs: seq<Record>, stride: nat, n: nat, opens: bool, j: nat)
    requires n < |rs| && BlocksAgree(b, rs, n)
    requires opens <==> b.index == [] || b.bytes >= stride
    requires j < |b.index| && CompactBlockOk(b.index, rs, stride, n, j)
    ensures CompactBlockOk(if opens then b.index + [n] else b.index, rs, stride, n + 1, j)
  {
    hide EncodeRecord;
    BlockEnds(b, n, opens, j);
  }

  lemma CompactBlockOpens(index: seq<nat>, rs: seq<Record>, stride: nat, n: nat)
    requires n < |rs|
    ensures CompactBlockOk(index + [n], rs, stride, n + 1, |index|)
  {
    hide Offset;
  }

  /** Every compaction block but the last reaches the stride, and none does before its last record. */
  lemma {:induction false} CompactBlocksBounded(rs: seq<Record>, stride: nat, n: nat)
    requires n <= |rs|
    ensures var index := CompactBlocks(rs, stride, n).index;
            forall j | 0 <= j < |index| :: CompactBlockOk(index, rs, stride, n, j)
  {
    hide EncodeRecord;
    hide CompactBlockOk;
    hide Offset;
    if n > 0 {
      CompactBlocksBounded(rs, stride, n - 1);
      CompactBlocksAgree(rs, stride, n - 1);
      hide BlocksAgree;
      var b, c := CompactBlocks(rs, stride, n - 1), CompactBlocks(rs, stride, n);
      var opens := b.index == [] || b.bytes >= stride;
      forall j | 0 <= j < |c.index| ensures CompactBlockOk(c.index, rs, stride, n, j) {
        if j < |b.index| {
          CompactBlockGrows(b, rs, stride, n - 1, opens, j);
        } else {
          CompactBlockOpens(b.index, rs, stride, n - 1);
        }
      }
    }
  }
}
