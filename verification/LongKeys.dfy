/** Keys the service accepts but a table cannot show: the reader takes a footer of more than 10000
    bytes for damaged and reads the max key as empty, so the table fails every range check. */
module LongKeys {
  import opened Wrappers
  import opened Bytes
  import opened Records
  import opened SSTable
  import opened TableReader
  import opened LsmTree
  import Bloom

  /** What either writer can produce, whatever the length of its keys. */
  ghost predicate Writable(t: Table) {
    && Sorted(t.records) && AllFit(t.records)
    && ValidIndex(t.index, |t.records|)
    && 2 <= t.k <= 16
    && |Footer(MaxKey(t.records))| < U64_LIMIT
    && |Encode(t.records)| < U64_LIMIT
    && |EncodeMarks(MarksOf(t.records, t.index))| < U32_LIMIT
  }

  /** A table with a max key beyond 9996 bytes opens, with an empty max key. */
  lemma OpensWithoutMax(t: Table, created: nat)
    requires Writable(t) && |MaxKey(t.records)| > 9996
    ensures OpenSpec(Layout(t), created) ==
            Ok(Some(Reader(Layout(t), DataStart(t), Metadata(created, MarksOf(t.records, t.index), []))))
  {
    hide HeaderCrc;
    hide Bloom.Block;
    hide ParseMarks;
    hide ReadFooter;
    hide Sorted;
    var marks := MarksOf(t.records, t.index);
    var (enc, data, footer) := (EncodeMarks(marks), Encode(t.records), Footer(MaxKey(t.records)));
    LayoutParts(Bloom.Block(t.k, KeysOf(t.records)), enc, data, footer);
    LongMarksFit(t);
    assert enc[0..] == enc;
    assert marks[..0] == [];
    ParseMarksInverts(enc, 0, marks, 0);
    FooterIgnored(Layout(t), MaxKey(t.records));
  }

  lemma FooterIgnored(file: Bytes, maxKey: Bytes)
    requires |file| >= BLOOM_OFFSET && file[HEADER_SIZE..BLOOM_OFFSET] == U64(|Footer(maxKey)|)
    requires 9996 < |maxKey| && |Footer(maxKey)| < U64_LIMIT
    ensures ReadFooter(file) == Ok([])
  {
    hide FromLe;
  }

  lemma LongMarksFit(t: Table)
    requires Writable(t)
    ensures forall j | 0 <= j < |t.index| ::
              var m := MarksOf(t.records, t.index)[j]; |m.key| < U32_LIMIT && m.offset < U64_LIMIT
  {
    hide EncodeRecord;
    forall j | 0 <= j < |t.index| ensures Offset(t.records, t.index[j]) < U64_LIMIT {
      OffsetSplits(t.records, t.index[j]);
    }
  }

  /** A key that a table holds passes the table's range check exactly when the table's greatest key has at
      most 9996 bytes; otherwise every key of the table is hidden. */
  lemma VisibleIff(t: Table, created: nat, r: Reader, i: nat)
    requires Writable(t) && OpenSpec(Layout(t), created) == Ok(Some(r))
    requires i < |t.records| && t.records[i].key != []
    ensures InRange(r.metadata, t.records[i].key) <==> |MaxKey(t.records)| <= 9996
  {
    hide OpenSpec;
    var (rs, key) := (t.records, t.records[i].key);
    if |MaxKey(rs)| <= 9996 {
      OpenInverts(t, created);
      RangeOf(t, created, key);
      hide InRange;
      LessTotal(key, key);
      if i > 0 {
        assert Less(rs[0].key, rs[i].key);
        LessTotal(rs[0].key, key);
      }
      if i < |rs| - 1 {
        assert Less(rs[i].key, rs[|rs| - 1].key);
        LessTotal(key, MaxKey(rs));
      }
    } else {
      OpensWithoutMax(t, created);
      assert Less([], key);
    }
  }
}
