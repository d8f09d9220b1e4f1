/** Exactly which logs a restart accepts, whoever wrote them, and the map it rebuilds. */
module Replays {
  import opened Wrappers
  import opened Bytes
  import opened Records
  import opened MemMap

  /** A log record that a restart can take: a non-empty key, and a tombstone or a decodable entry. */
  ghost predicate Replayable(r: Record) {
    Fits(r) && r.key != [] && DecodeValue(r.value).Ok?
  }

  ghost predicate AllReplayable(rs: seq<Record>) {
    forall i | 0 <= i < |rs| :: Replayable(rs[i])
  }

  /** The writes the records stand for. */
  ghost function WritesOf(rs: seq<Record>): (ws: seq<LoggedWrite>)
    requires AllReplayable(rs)
    ensures |ws| == |rs|
  {
    seq(|rs|, i requires 0 <= i < |rs| => WriteOf(rs[i]))
  }

  function WriteOf(r: Record): LoggedWrite
    requires DecodeValue(r.value).Ok?
  {
    LoggedWrite(r.key, DecodeValue(r.value).value)
  }

  ghost predicate LogOf(log: Bytes, rs: seq<Record>) {
    AllReplayable(rs) && log == Records.Encode(rs)
  }

  /** Values that decode have a byte or more. */
  lemma DecodableIsLong(b: Bytes)
    requires DecodeValue(b).Ok?
    ensures |b| > 0
  {
  }

  lemma EntryReplays(log: Bytes, at: nat, r: Record, tail: Bytes, m: Mem)
    requires Replayable(r) && at <= |log| && log[at..] == EncodeRecord(r) + tail
    ensures var next := at + |EncodeRecord(r)|;
            && next <= |log| && log[next..] == tail
            && ReplayFrom(log, at, m) == ReplayFrom(log, next, m[r.key := WriteOf(r).entry])
  {
    hide DecodeValue;
    hide ReplayFrom;
    DecodableIsLong(r.value);
    Assoc(Prefixed(r.key), Prefixed(r.value), tail);
    PeelPrefixed(log, at, r.key, Prefixed(r.value) + tail);
    PeelPrefixed(log, at + 4 + |r.key|, r.value, tail);
    ReplayEntry(log, at, r.key, r.value, WriteOf(r).entry, m, at + 8 + |r.key| + |r.value|);
  }

  lemma {:induction false} Replays(log: Bytes, at: nat, rs: seq<Record>, i: nat, m: Mem)
    requires AllReplayable(rs) && i <= |rs| && at <= |log| && log[at..] == EncodeFrom(rs, i)
    ensures ReplayFrom(log, at, m) == Replayed(Applied(WritesOf(rs), i, m), Ok(()))
    decreases |rs| - i
  {
    hide ReplayFrom;
    hide EncodeRecord;
    hide DecodeValue;
    hide Fits;
    if i < |rs| {
      EntryReplays(log, at, rs[i], EncodeFrom(rs, i + 1), m);
      assert WritesOf(rs)[i] == WriteOf(rs[i]);
      Replays(log, at + |EncodeRecord(rs[i])|, rs, i + 1, m[rs[i].key := WriteOf(rs[i]).entry]);
    } else {
      ReplayNothing(log, at, m);
    }
  }

  /** What the loop reads when it goes on is a record that a restart can take. */
  lemma EntrySound(log: Bytes, at: nat, m: Mem) returns (r: Record, next: nat)
    requires at < |log| && ReplayFrom(log, at, m).status.Ok?
    ensures at < next <= |log| && log[at..next] == EncodeRecord(r) && Replayable(r)
    ensures ReplayFrom(log, at, m) == ReplayFrom(log, next, m[r.key := WriteOf(r).entry])
  {
    hide DecodeValue;
    hide FromLe;
    hide Prefixed;
    var keyEnd := at + 4 + FromLe(log[at..at + 4]);
    next := keyEnd + 4 + FromLe(log[keyEnd..keyEnd + 4]);
    r := Record(log[at + 4..keyEnd], log[keyEnd + 4..next]);
    PrefixedSlice(log, at, keyEnd);
    PrefixedSlice(log, keyEnd, next);
    assert log[at..next] == log[at..keyEnd] + log[keyEnd..next];
  }

  lemma {:induction false} ReplaySound(log: Bytes, at: nat, m: Mem) returns (rs: seq<Record>)
    requires at <= |log| && ReplayFrom(log, at, m).status.Ok?
    ensures AllReplayable(rs) && log[at..] == Records.Encode(rs)
    decreases |log| - at
  {
    hide ReplayFrom;
    hide EncodeRecord;
    hide Records.Encode;
    hide DecodeValue;
    hide Fits;
    if at == |log| {
      NoBytes();
      return [];
    }
    var r, next := EntrySound(log, at, m);
    var rest := ReplaySound(log, next, m[r.key := WriteOf(r).entry]);
    EncodeCons(r, rest);
    assert log[at..] == log[at..next] + log[next..];
    rs := [r] + rest;
  }

  /** A restart takes a log exactly when it is the encoding of some records it can take, and then the
      map is the old one with their writes in order. */
  lemma ReplayIff(log: Bytes, m: Mem)
    ensures Replay(log, m).status.Ok? <==> exists rs :: LogOf(log, rs)
    ensures forall rs | LogOf(log, rs) :: Replay(log, m) == Replayed(Applied(WritesOf(rs), 0, m), Ok(()))
  {
    hide ReplayFrom;
    hide EncodeFrom;
    hide AllReplayable;
    hide WritesOf;
    hide Applied;
    assert log[0..] == log;
    forall rs | LogOf(log, rs) ensures Replay(log, m) == Replayed(Applied(WritesOf(rs), 0, m), Ok(())) {
      Replays(log, 0, rs, 0, m);
      LogLength(rs);
      NothingReplays(log, rs, m);
    }
    if Replay(log, m).status.Ok? {
      if log == [] { ReplayNothing(log, 0, m); }
      var rs := ReplaySound(log, 0, m);
      assert LogOf(log, rs);
    }
  }

  lemma LogLength(rs: seq<Record>)
    ensures rs != [] ==> |Records.Encode(rs)| >= 8
    ensures rs == [] ==> Records.Encode(rs) == []
  {
  }

  lemma NothingReplays(log: Bytes, rs: seq<Record>, m: Mem)
    requires LogOf(log, rs)
    ensures log == [] ==> ReplayFrom(log, 0, m) == Replayed(m, Ok(()))
  {
  }
}
