/** Rebuilding an SSTable around a merged data section. */
module Build {
  import opened Wrappers
  import opened Bytes
  import opened Records
  import opened SSTable
  import opened Join
  import Bloom

  /** `key-len | key | offset` for every mark. */
  method SerializeMarks(marks: seq<Mark>) returns (out: Bytes)
    ensures out == EncodeMarks(marks)
  {
    out := [];
    for i := 0 to |marks|
      invariant out + EncodeMarksFrom(marks, i) == EncodeMarks(marks)
    {
      Assoc(out, EncodeMark(marks[i]), EncodeMarksFrom(marks, i + 1));
      out := out + (U32(|marks[i].key|) + marks[i].key + U64(marks[i].offset));
    }
    assert out + [] == out;
  }

  /** The same, refusing a key whose length does not fit its field. */
  method TrySerializeMarks(marks: seq<Mark>) returns (out: Result<Bytes, CompactionError>)
    ensures out == if exists i | 0 <= i < |marks| :: |marks[i].key| >= U32_LIMIT then Err(TooLong)
                   else Ok(EncodeMarks(marks))
  {
    var buf: Bytes := [];
    for i := 0 to |marks|
      invariant buf + EncodeMarksFrom(marks, i) == EncodeMarks(marks)
      invariant forall j | 0 <= j < i :: |marks[j].key| < U32_LIMIT
    {
      if |marks[i].key| >= U32_LIMIT { return Err(TooLong); }
      Assoc(buf, EncodeMark(marks[i]), EncodeMarksFrom(marks, i + 1));
      buf := buf + (U32(|marks[i].key|) + marks[i].key + U64(marks[i].offset));
    }
    assert buf + [] == buf;
    return Ok(buf);
  }

  function Stride(level: nat): nat {
    64 * 1024 * (if level < 1 then 1 else level)
  }

  function CompactTable(rs: seq<Record>, level: nat, k: nat): Table {
    Table(rs, CompactIndex(rs, Stride(level)), k)
  }

  lemma CompactIndexValid(rs: seq<Record>, stride: nat)
    ensures ValidIndex(CompactIndex(rs, stride), |rs|)
  {
    CompactBlocksAgree(rs, stride, |rs|);
  }

  /** The length of the sparse index that compaction writes for these records. */
  function SparseSize(rs: seq<Record>, level: nat): nat {
    CompactIndexValid(rs, Stride(level));
    |EncodeMarks(MarksOf(rs, CompactIndex(rs, Stride(level))))|
  }

  ghost function CompactBytes(rs: seq<Record>, level: nat, k: nat): Bytes {
    CompactIndexValid(rs, Stride(level));
    Layout(CompactTable(rs, level, k))
  }

  lemma ReadsNext(data: Bytes, rs: seq<Record>, n: nat)
    requires data == Encode(rs) && AllFit(rs) && n <= |rs|
    ensures Offset(rs, n) < |data| <==> n < |rs|
    ensures n < |rs| ==> ReadRecord(data, Offset(rs, n)) == Some(RecordRead(rs[n], Offset(rs, n + 1)))
    ensures Offset(rs, n) <= |data|
  {
    hide ReadRecord;
    hide EncodeRecord;
    OffsetSplits(rs, n);
    assert data[0..] == data + [];
    SeekTo(data, 0, rs, n, []);
    if n < |rs| { CursorReads(data, Offset(rs, n), rs, n, []); }
  }

  /** The builder's running state after `n` records. */
  ghost predicate BuildInv(rs: seq<Record>, stride: nat, n: nat, marks: seq<Mark>, since: nat, keys: seq<Bytes>,
                           maxKey: Bytes)
    requires n <= |rs|
  {
    && ValidIndex(CompactBlocks(rs, stride, n).index, n)
    && marks == MarksOf(rs, CompactBlocks(rs, stride, n).index)
    && since == CompactBlocks(rs, stride, n).bytes
    && keys == KeysOf(rs)[..n]
    && maxKey == MaxKey(rs[..n])
  }

  lemma BuildStep(rs: seq<Record>, stride: nat, n: nat, marks: seq<Mark>, since: nat, keys: seq<Bytes>, maxKey: Bytes)
    requires n < |rs| && BuildInv(rs, stride, n, marks, since, keys, maxKey)
    ensures var size := Offset(rs, n + 1) - Offset(rs, n);
            var opens := marks == [] || since >= stride;
            BuildInv(rs, stride, n + 1, if opens then marks + [Mark(Offset(rs, n), rs[n].key)] else marks,
                     if opens then size else since + size, keys + [rs[n].key], rs[n].key)
  {
    hide EncodeRecord;
    CompactBlocksAgree(rs, stride, n + 1);
    var b := CompactBlocks(rs, stride, n);
    var marked := b.index + [n];
    if marks == [] || since >= stride {
      assert MarksOf(rs, marked) == marks + [MarkOf(rs, n)];
    }
    assert KeysOf(rs)[..n + 1] == KeysOf(rs)[..n] + [rs[n].key];
  }

  lemma BuildDone(rs: seq<Record>, stride: nat, marks: seq<Mark>, since: nat, keys: seq<Bytes>, maxKey: Bytes)
    requires BuildInv(rs, stride, |rs|, marks, since, keys, maxKey)
    ensures ValidIndex(CompactIndex(rs, stride), |rs|)
    ensures marks == MarksOf(rs, CompactIndex(rs, stride)) && keys == KeysOf(rs) && maxKey == MaxKey(rs)
    ensures AllFit(rs) ==> (forall j | 0 <= j < |marks| :: |marks[j].key| < U32_LIMIT) && |maxKey| < U32_LIMIT
  {
    assert KeysOf(rs)[..|rs|] == KeysOf(rs);
    assert rs[..|rs|] == rs;
  }

  lemma BuildStart(rs: seq<Record>, stride: nat)
    ensures BuildInv(rs, stride, 0, [], 0, [], [])
  {
    assert MarksOf(rs, []) == [];
  }

  lemma ParseUnfold(data: Bytes)
    ensures Parse(data) == ParseFrom(data, 0)
  {
  }

  /** A section that does not parse fails at a record, not at its end. */
  lemma ParseFails(data: Bytes, at: nat)
    requires ParseFrom(data, at) == None
    ensures at < |data|
    ensures ReadRecord(data, at).Some? ==> ParseFrom(data, ReadRecord(data, at).value.next) == None
  {
    hide ReadRecord;
  }

  lemma Nest(a: Bytes, b: Bytes, c: Bytes, d: Bytes, e: Bytes, f: Bytes, g: Bytes)
    ensures a + b + c + d + e + f + g == a + (b + (c + (d + (e + (f + g)))))
  {
  }

  /** The parts put together are the table's file. */
  lemma BuildAssembles(rs: seq<Record>, level: nat, k: nat, marks: seq<Mark>, since: nat, keys: seq<Bytes>,
                       maxKey: Bytes,
                       enc: Bytes, footer: Bytes)
    requires AllFit(rs) && BuildInv(rs, Stride(level), |rs|, marks, since, keys, maxKey)
    requires enc == EncodeMarks(marks) && footer == U32(|maxKey|) + maxKey
    ensures |enc| == SparseSize(rs, level) && |maxKey| < U32_LIMIT
    ensures forall j | 0 <= j < |marks| :: |marks[j].key| < U32_LIMIT
    ensures HeaderCrc() + U64(|footer|) + Bloom.Block(k, keys) + U32(|enc|) + enc + Encode(rs) + footer
            == CompactBytes(rs, level, k)
  {
    hide BuildInv;
    hide HeaderCrc;
    hide Bloom.Block;
    hide Encode;
    hide MarksOf;
    hide EncodeMarks;
    BuildDone(rs, Stride(level), marks, since, keys, maxKey);
    Nest(HeaderCrc(), U64(|footer|), Bloom.Block(k, keys), U32(|enc|), enc, Encode(rs), footer);
  }

  /** The table that wraps a section; an error when the section is malformed, and when the sparse
      index does not fit its length field. */
  method BuildFromDataSection(data: Bytes, level: nat, k: nat) returns (res: Result<Bytes, CompactionError>)
    ensures res == match Parse(data)
                   case None => Err(InvalidData)
                   case Some(rs) =>
                     if SparseSize(rs, level) < U32_LIMIT then Ok(CompactBytes(rs, level, k)) else Err(TooLong)
  {
    hide ReadRecord;
    hide EncodeRecord;
    hide BuildInv;
    hide ValidIndex;
    hide HeaderCrc;
    hide Bloom.Block;
    hide Encode;
    hide MarksOf;
    hide Parse;
    hide ParseFrom;
    hide AllFit;
    hide MaxKey;
    hide KeysOf;
    hide CompactBytes;
    hide SparseSize;
    hide EncodeMarks;
    hide U32;
    hide U64;
    ghost var ok := Parse(data).Some?;
    ghost var rs: seq<Record> := if ok then Parse(data).value else [];
    ParseIff(data, rs);
    ParseUnfold(data);
    var stride := Stride(level);
    var marks: seq<Mark>, maxKey: Bytes, bloomKeys: seq<Bytes> := [], [], [];
    var cursor: nat, since: nat := 0, 0;
    ghost var n: nat := 0;
    BuildStart(rs, stride);
    if ok { ReadsNext(data, rs, 0); }
    while cursor < |data|
      invariant cursor <= |data|
      invariant !ok ==> ParseFrom(data, cursor) == None
      invariant ok ==> n <= |rs| && cursor == Offset(rs, n) && (cursor < |data| <==> n < |rs|)
      invariant ok ==> BuildInv(rs, stride, n, marks, since, bloomKeys, maxKey)
    {
      var entryStart := cursor;
      if ok {
        ReadsNext(data, rs, n);
        ReadsNext(data, rs, n + 1);
        BuildStep(rs, stride, n, marks, since, bloomKeys, maxKey);
      } else {
        ParseFails(data, cursor);
      }
      var r := ReadRecord(data, cursor);
      if r.None? { return Err(InvalidData); }
      var key := r.value.record.key;
      cursor := r.value.next;
      bloomKeys := bloomKeys + [key];
      var traversed := cursor - entryStart;
      if marks == [] || since >= stride {
        marks := marks + [Mark(entryStart, key)];
        since := 0;
      }
      since := since + traversed;
      maxKey := key;
      n := n + 1;
    }
    if !ok { ParseFails(data, cursor); }
    var footer := U32(|maxKey|);
    footer := footer + maxKey;
    BuildAssembles(rs, level, k, marks, since, bloomKeys, maxKey, EncodeMarks(marks), footer);
    var enc := TrySerializeMarks(marks);
    if enc.Err? { return Err(TooLong); }
    if |maxKey| >= U32_LIMIT { return Err(TooLong); }
    var bloom := Bloom.GenerateFilter(k, bloomKeys);
    if |footer| >= U64_LIMIT { return Err(TooLong); }
    if |enc.value| >= U32_LIMIT { return Err(TooLong); }
    var output := HeaderCrc();
    output := output + U64(|footer|);
    output := output + bloom;
    output := output + U32(|enc.value|);
    output := output + enc.value;
    output := output + data;
    output := output + footer;
    return Ok(output);
  }
}
