/** Exactly which files the reader opens and the compactor takes, whoever wrote them, byte by byte. */
module Opening {
  import opened Wrappers
  import opened Bytes
  import opened Records
  import opened SSTable
  import opened TableReader
  import opened Join

  // ---- the sparse index ----

  ghost predicate MarkFits(m: Mark) {
    |m.key| < U32_LIMIT && m.offset < U64_LIMIT
  }

  ghost predicate MarksFit(ms: seq<Mark>) {
    forall i | 0 <= i < |ms| :: MarkFits(ms[i])
  }

  lemma MarkSound(buf: Bytes, pos: nat)
    requires ParseMark(buf, pos).Some?
    ensures var m := ParseMark(buf, pos).value; buf[pos..m.next] == EncodeMark(m.mark) && MarkFits(m.mark)
  {
    var m := ParseMark(buf, pos).value;
    var keyEnd := pos + 4 + FromLe(buf[pos..pos + 4]);
    PrefixedSlice(buf, pos, keyEnd);
    U64Inverts(buf[keyEnd..keyEnd + 8]);
    assert buf[pos..m.next] == buf[pos..keyEnd] + buf[keyEnd..keyEnd + 8];
  }

  lemma U64Inverts(b: Bytes)
    requires |b| == 8
    ensures FromLe(b) < U64_LIMIT && U64(FromLe(b)) == b
  {
    PowWidths();
    LeInverts(b);
  }

  lemma {:induction false} MarksSound(buf: Bytes, pos: nat, acc: seq<Mark>)
    requires pos <= |buf| && ParseMarks(buf, pos, acc).Ok? && MarksFit(acc)
    ensures var ms := ParseMarks(buf, pos, acc).value;
            MarksFit(ms) && |acc| <= |ms| && ms[..|acc|] == acc && buf[pos..] == EncodeMarksFrom(ms, |acc|)
    decreases |buf| - pos
  {
    hide ParseMark;
    hide EncodeMark;
    hide MarkFits;
    if pos < |buf| {
      var m := ParseMark(buf, pos).value;
      MarkSound(buf, pos);
      MarksSound(buf, m.next, acc + [m.mark]);
      var ms := ParseMarks(buf, pos, acc).value;
      assert ms[..|acc| + 1][|acc|] == m.mark;
      assert ms[..|acc|] == ms[..|acc| + 1][..|acc|];
      assert buf[pos..] == buf[pos..m.next] + buf[m.next..];
    }
  }

  /** The index parser returns marks exactly when the bytes are their encoding. */
  lemma ParseMarksIff(buf: Bytes, ms: seq<Mark>)
    ensures ParseMarks(buf, 0, []) == Ok(ms) <==> MarksFit(ms) && buf == EncodeMarks(ms)
  {
    hide ParseMarks;
    hide EncodeMarksFrom;
    assert buf[0..] == buf && ms[..0] == [];
    if ParseMarks(buf, 0, []) == Ok(ms) { MarksSound(buf, 0, []); }
    if MarksFit(ms) && buf == EncodeMarks(ms) { ParseMarksInverts(buf, 0, ms, 0); }
  }

  // ---- the whole file ----

  /** The last `size` bytes start with the length and the bytes of the max key; an absurd size stands
      for the empty key. */
  ghost predicate FooterSays(file: Bytes, size: nat, maxKey: Bytes) {
    if size == 0 || size > 10000 then maxKey == []
    else size <= |file| && |maxKey| < U32_LIMIT && exists tail :: file[|file| - size..] == Prefixed(maxKey) + tail
  }

  /** 64 bytes of constant, 8 of footer size, 1000 of filter, 4 of index size, the index, the rest. */
  ghost predicate OpensAs(file: Bytes, enc: Bytes, marks: seq<Mark>, maxKey: Bytes) {
    && |file| >= 1076 + |enc| && |enc| < U32_LIMIT
    && file[..64] == HeaderCrc()
    && FooterSays(file, FromLe(file[64..72]), maxKey)
    && file[1072..1076] == U32(|enc|)
    && file[1076..1076 + |enc|] == enc && MarksFit(marks) && enc == EncodeMarks(marks)
  }

  lemma FooterIff(file: Bytes, maxKey: Bytes)
    requires |file| >= 72
    ensures ReadFooter(file) == Ok(maxKey) <==> FooterSays(file, FromLe(file[64..72]), maxKey)
  {
    hide FromLe;
    hide Prefixed;
    hide ReadPrefixed;
    var size := FromLe(file[64..72]);
    if 0 < size <= 10000 && size <= |file| {
      var at := |file| - size;
      if ReadFooter(file) == Ok(maxKey) {
        PrefixedSound(file, at);
        var next := ReadPrefixed(file, at).value.next;
        assert file[at..] == file[at..next] + file[next..];
        assert file[at..] == Prefixed(maxKey) + file[next..];
      }
      if FooterSays(file, size, maxKey) {
        var tail :| file[at..] == Prefixed(maxKey) + tail;
        ReadPrefixedInverts(file, at, maxKey, tail);
      }
    }
  }

  /** The reader opens a file exactly when it has this layout, and then knows its marks, where its data
      starts and its max key. */
  lemma OpenIff(file: Bytes, created: nat, r: Reader)
    ensures OpenSpec(file, created) == Ok(Some(r)) <==>
            exists enc ::
              && OpensAs(file, enc, r.metadata.sparseIndex, r.metadata.maxKey)
              && r == Reader(file, 1076 + |enc|, Metadata(created, r.metadata.sparseIndex, r.metadata.maxKey))
    ensures OpenSpec(file, created) == Ok(None) <==> |file| >= 64 && file[..64] != HeaderCrc()
  {
    hide HeaderCrc;
    hide FromLe;
    hide FooterSays;
    hide ReadFooter;
    hide ParseMarks;
    hide EncodeMarks;
    hide MarksFit;
    var (marks, maxKey) := (r.metadata.sparseIndex, r.metadata.maxKey);
    if OpenSpec(file, created) == Ok(Some(r)) {
      U32Inverts(file[1072..1076]);
      var start := 1076 + FromLe(file[1072..1076]);
      var enc := file[1076..start];
      ParseMarksIff(enc, marks);
      FooterIff(file, maxKey);
      assert OpensAs(file, enc, marks, maxKey);
    }
    if enc :| OpensAs(file, enc, marks, maxKey)
              && r == Reader(file, 1076 + |enc|, Metadata(created, marks, maxKey)) {
      ParseMarksIff(enc, marks);
      FooterIff(file, maxKey);
    }
  }

  /** The compactor takes a table file exactly when index, section and footer fill it. */
  lemma SectionIff(b: Bytes, start: nat, size: nat)
    ensures ToDataSection(SSTableFile(b)) == Ok(SectionAt(start, size)) <==>
            && |b| >= 1076 && b[..64] == HeaderCrc()
            && start == 1076 + FromLe(b[1072..1076])
            && FromLe(b[64..72]) > 0
            && start + size + FromLe(b[64..72]) == |b|
  {
    hide HeaderCrc;
    hide FromLe;
  }
}
