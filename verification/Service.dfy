/** The two request handlers that have logic of their own: `get` and `batch_write`. */
module Service {
  import opened Wrappers
  import opened Bytes
  import opened Codec
  import opened Records
  import opened Levels
  import opened TableReader
  import opened LsmTree
  import opened MemMap
  import opened Memtable
  import opened Lookups
  import opened Store
  import Preservation

  // ---- get ----

  /** `value == None` is both "deleted" and "not found". */
  datatype GetResponse = GetResponse(value: Option<Bytes>, metadata: map<Bytes, TypeInfo>)

  const NOTHING := GetResponse(None, map[])

  /** The metadata of an entry, cut down to the requested keys. */
  function Metadata(e: TableEntry, filter: Option<set<Bytes>>): map<Bytes, TypeInfo> {
    var all := if e.metaData.Some? then e.metaData.value else map[];
    if filter.Some? then map k | k in all && k in filter.value :: all[k] else all
  }

  /** The entry's value, and of its metadata exactly the names the filter lets through, each with the
      entry's own type information. */
  ghost predicate Carries(r: GetResponse, e: TableEntry, filter: Option<set<Bytes>>) {
    && r.value == Some(e.value)
    && (forall n :: n in r.metadata <==>
          e.metaData.Some? && n in e.metaData.value && (filter == None || n in filter.value))
    && (forall n | n in r.metadata :: r.metadata[n] == e.metaData.value[n])
  }

  /** The memtable answers with the entry; otherwise the stored bytes are returned as they are,
      a single byte counting as a tombstone. */
  ghost function GetSpec(m: Mem, levels: seq<Dir>, key: Bytes, filter: Option<set<Bytes>>): GetResponse
    requires AllValid(levels)
  {
    if key in m then
      if m[key].Some? then GetResponse(Some(m[key].value.value), Metadata(m[key].value, filter)) else NOTHING
    else
      match DiskLookup(levels, key)
      case None => NOTHING
      case Some(b) => if |b| == 1 then NOTHING else GetResponse(Some(b), map[])
  }

  method Get(mem: Memtable, tree: LsmTreeReader, key: Bytes, filter: Option<set<Bytes>>, ghost levels: seq<Dir>)
    returns (r: Result<GetResponse, ReadError>)
    ensures AllValid(levels) && AllLoaded(tree.levelArray, levels) ==>
              r == Ok(GetSpec(mem.inMemory, levels, key, filter))
    ensures key in mem.inMemory ==>
              r.Ok? && match mem.inMemory[key]
                       case Some(e) => Carries(r.value, e, filter)
                       case None => r.value.value == None && r.value.metadata == map[]
  {
    hide AllValid;
    hide AllLoaded;
    var found := mem.Get(key);
    match found
    case Ok(Some(e)) =>
      var all := if e.metaData.Some? then e.metaData.value else map[];
      if filter.Some? { all := map k | k in all && k in filter.value :: all[k]; }
      return Ok(GetResponse(Some(e.value), all));
    case Ok(None) =>
      return Ok(NOTHING);
    case Err(_) =>
      var stored := tree.Read(key, levels);
      match stored
      case Err(e) => return Err(e);
      case Ok(None) => return Ok(NOTHING);
      case Ok(Some(b)) =>
        if |b| == 1 { return Ok(NOTHING); }
        return Ok(GetResponse(Some(b), map[]));
  }

  /** The response a client means to get: the last written value and its metadata. */
  function Meant(model: Model, key: Bytes, filter: Option<set<Bytes>>): GetResponse {
    if key in model && model[key].Some?
    then GetResponse(Some(model[key].value.value), Metadata(model[key].value, filter))
    else NOTHING
  }

  /** What a client means to get, and gets for a key in memory, without `Metadata`: one response
      carries an entry under a filter. */
  lemma MeantIs(model: Model, m: Mem, levels: seq<Dir>, key: Bytes, filter: Option<set<Bytes>>)
    requires AllValid(levels)
    ensures key in model && model[key].Some? ==> Carries(Meant(model, key, filter), model[key].value, filter)
    ensures key !in model || model[key].None? ==> Meant(model, key, filter) == GetResponse(None, map[])
    ensures key in m && m[key].Some? ==> Carries(GetSpec(m, levels, key, filter), m[key].value, filter)
    ensures key in m && m[key].None? ==> GetSpec(m, levels, key, filter) == GetResponse(None, map[])
    ensures key !in m && DiskLookup(levels, key) != None && |DiskLookup(levels, key).value| != 1 ==>
              GetSpec(m, levels, key, filter) == GetResponse(DiskLookup(levels, key), map[])
    ensures forall r, s, e | Carries(r, e, filter) && Carries(s, e, filter) :: r == s
  {
    hide DiskLookup;
    hide AllValid;
    forall r, s, e | Carries(r, e, filter) && Carries(s, e, filter) ensures r == s {
      assert r.metadata == s.metadata;
    }
  }

  /** Stored bytes are exactly the encoding of what they mean. */
  lemma {:induction false} StoredIsEncoded(levels: seq<Dir>, key: Bytes)
    requires GoodLevels(levels) && AllValid(levels)
    ensures var b := DiskLookup(levels, key);
            b.Some? ==> DecodeValue(b.value).Ok? && b.value == ValueBytes(DecodeValue(b.value).value)
  {
    hide GoodRecords;
    hide LevelLookup;
    hide DecodeValue;
    hide ValueBytes;
    hide DiskLookup;
    hide ValidDir;
    if levels != [] {
      var d, rest := levels[0], levels[1..];
      StoredIsEncoded(rest, key);
      TreeCons(d, rest, key);
      assert [d] + rest == levels;
      LevelIsEncoded(d, key);
    } else {
      Preservation.NoLevels(key);
    }
  }

  lemma LevelIsEncoded(d: Dir, key: Bytes)
    requires GoodDir(d)
    ensures var b := LevelLookup(ViewOf(d), key);
            b.Some? ==> DecodeValue(b.value).Ok? && b.value == ValueBytes(DecodeValue(b.value).value)
  {
    hide DecodeValue;
    hide ValueBytes;
    hide Find;
    hide IsBin;
    hide Contents;
    hide IsTable;
    hide GoodRecords;
    var v := ViewOf(d);
    if LevelLookup(v, key).Some? {
      var c :| NewestHit(v, key, c);
      HitDecides(v, key, c);
      hide ViewOf;
      hide LevelLookup;
      var n := ViewFrom(d, c);
      var r := Record(key, Find(v[c], key).value);
      Preservation.OneGood(Contents(d[n].bytes), r);
    }
  }

  /** On a level array loaded at this moment, `get` reports the last write exactly when the key is
      still in the memtable or its last write is not a value; for a value that has been flushed it
      returns the value's stored encoding, and no metadata. `Serving.EveryGetIff` is the statement for
      the array a run has loaded. */
  lemma GetIsExactIff(db: Db, c: Config, model: Model, key: Bytes, filter: Option<set<Bytes>>)
    requires Inv(db, c, model)
    ensures var r, want := GetSpec(db.mem, db.disk.levels, key, filter), Meant(model, key, filter);
            && (r == want <==> key in db.mem || want.value == None)
            && (key !in db.mem && want.value.Some? ==>
                  r == GetResponse(Some(Codec.Encode(model[key].value)), map[])
                  && (WellFormed(model[key].value) ==> Decode(r.value.value) == Ok(model[key].value)))
  {
    hide GoodLevels;
    hide AllValid;
    hide DiskLookup;
    hide GoodMem;
    hide WalOk;
    hide SizeOk;
    hide Decode;
    hide Codec.Encode;
    assert Lookup(db.mem, db.disk.levels, key) == LastWrite(model, key);
    if key !in db.mem {
      StoredIsEncoded(db.disk.levels, key);
      if key in model && model[key].Some? {
        var e := model[key].value;
        assert |Codec.Encode(e)| >= 5 + |e.value|;
        if WellFormed(e) { RoundTrip(e); }
      }
    }
  }

  /** From any state: after a put that flushes, `get` returns the encoding of the value, not the
      value. */
  lemma FlushedGetIsWrong(db: Db, c: Config, model: Model, key: Bytes, e: TableEntry, env: Env,
                          filter: Option<set<Bytes>>)
    requires Inv(db, c, model) && WriteReady(db, c, key, Some(e), env)
    requires ShouldFlush(Inserted(db, c, key, Some(e)), c, env)
    ensures var after := AfterWrite(db, c, key, Some(e), env);
            && AllValid(after.disk.levels)
            && GetSpec(after.mem, after.disk.levels, key, filter) == GetResponse(Some(Codec.Encode(e)), map[])
            && GetSpec(after.mem, after.disk.levels, key, filter) != Meant(model[key := Some(e)], key, filter)
  {
    hide WriteReady;
    hide GetSpec;
    hide Codec.Encode;
    hide TableWritten;
    hide GoodLevels;
    hide AllValid;
    hide GoodMem;
    hide WalOk;
    hide SizeOk;
    hide Agrees;
    WriteKeeps(db, c, model, key, Some(e), env);
    GetIsExactIff(AfterWrite(db, c, key, Some(e), env), c, model[key := Some(e)], key, filter);
  }

  // ---- batch_write ----

  function PutWrites(puts: seq<(Bytes, TableEntry)>): (ws: seq<LoggedWrite>)
    ensures |ws| == |puts|
  {
    seq(|puts|, i requires 0 <= i < |puts| => LoggedWrite(puts[i].0, Some(puts[i].1)))
  }

  function DeleteWrites(keys: seq<Bytes>): (ws: seq<LoggedWrite>)
    ensures |ws| == |keys|
  {
    seq(|keys|, i requires 0 <= i < |keys| => LoggedWrite(keys[i], None))
  }

  ghost predicate AllSmall(ws: seq<LoggedWrite>) {
    forall i | 0 <= i < |ws| :: Size(ws[i].key, ws[i].entry) < HALF
  }

  /** The state after a list of writes, each with its own clock reading. */
  ghost function WriteAll(db: Db, c: Config, ws: seq<LoggedWrite>, envs: seq<Env>): (r: Db)
    requires SizeOk(db) && ValidConfig(c) && AllSmall(ws) && |ws| <= |envs|
    ensures SizeOk(r)
    decreases |ws|
  {
    if ws == [] then db
    else
      var n := |ws| - 1;
      var before := WriteAll(db, c, ws[..n], envs);
      SizeKept(before, c, ws[n].key, ws[n].entry, envs[n]);
      AfterWrite(before, c, ws[n].key, ws[n].entry, envs[n])
  }

  lemma WriteOneMore(db: Db, c: Config, ws: seq<LoggedWrite>, w: LoggedWrite, envs: seq<Env>)
    requires SizeOk(db) && ValidConfig(c) && AllSmall(ws) && Size(w.key, w.entry) < HALF && |ws| < |envs|
    ensures AllSmall(ws + [w])
    ensures WriteAll(db, c, ws + [w], envs) == AfterWrite(WriteAll(db, c, ws, envs), c, w.key, w.entry, envs[|ws|])
  {
    hide Size;
    hide AfterWrite;
    hide SizeOk;
    hide ValidConfig;
    hide WriteTrail;
    assert (ws + [w])[..|ws|] == ws;
  }

  function KeySet(keys: seq<Bytes>): (s: set<Bytes>)
    ensures forall k :: k in s <==> k in keys
  {
    set k | k in keys
  }

  ghost function KeysOfPuts(puts: seq<(Bytes, TableEntry)>, n: nat): set<Bytes>
    requires n <= |puts|
  {
    set i | 0 <= i < n :: puts[i].0
  }

  /** One more put of a batch. */
  lemma PutStep(db: Db, c: Config, puts: seq<(Bytes, TableEntry)>, i: nat, envs: seq<Env>)
    requires SizeOk(db) && ValidConfig(c) && i < |puts| <= |envs| && AllSmall(PutWrites(puts))
    requires AllSmall(PutWrites(puts[..i]))
    ensures Size(puts[i].0, Some(puts[i].1)) < HALF && AllSmall(PutWrites(puts[..i + 1]))
    ensures WriteAll(db, c, PutWrites(puts[..i + 1]), envs) ==
            AfterWrite(WriteAll(db, c, PutWrites(puts[..i]), envs), c, puts[i].0, Some(puts[i].1), envs[i])
    ensures KeysOfPuts(puts, i + 1) == KeysOfPuts(puts, i) + {puts[i].0}
  {
    hide Size;
    hide AfterWrite;
    hide WriteAll;
    hide SizeOk;
    hide WriteTrail;
    hide AllSmall;
    var w := LoggedWrite(puts[i].0, Some(puts[i].1));
    PutSize(puts, i);
    WriteOneMore(db, c, PutWrites(puts[..i]), w, envs);
    assert PutWrites(puts[..i + 1]) == PutWrites(puts[..i]) + [w];
  }

  /** One more delete of a batch. */
  lemma DeleteStep(db: Db, c: Config, ws: seq<LoggedWrite>, deletes: seq<Bytes>, order: seq<Bytes>, k: Bytes,
                   envs: seq<Env>)
    requires SizeOk(db) && ValidConfig(c) && AllSmall(DeleteWrites(deletes)) && k in deletes
    requires AllSmall(ws + DeleteWrites(order)) && |ws| + |order| < |envs|
    ensures Size(k, None) < HALF && AllSmall(ws + DeleteWrites(order + [k]))
    ensures WriteAll(db, c, ws + DeleteWrites(order + [k]), envs) ==
            AfterWrite(WriteAll(db, c, ws + DeleteWrites(order), envs), c, k, None, envs[|ws| + |order|])
  {
    hide Size;
    hide AfterWrite;
    hide WriteAll;
    hide SizeOk;
    hide WriteTrail;
    hide AllSmall;
    DeleteSize(deletes, k);
    WriteOneMore(db, c, ws + DeleteWrites(order), LoggedWrite(k, None), envs);
    assert ws + DeleteWrites(order + [k]) == ws + DeleteWrites(order) + [LoggedWrite(k, None)];
  }

  /** Puts in order, then the deletes that no put overrode, in an arbitrary order; any of the writes
      may flush. */
  method BatchWrite(mem: Memtable, puts: seq<(Bytes, TableEntry)>, deletes: seq<Bytes>, envs: seq<Env>)
    returns (r: Result<(), MemtableError>, ghost order: seq<Bytes>)
    requires mem.Valid() && |puts| + |deletes| <= |envs|
    requires AllSmall(PutWrites(puts)) && AllSmall(DeleteWrites(deletes))
    modifies mem, mem.disk
    ensures r == Ok(()) && mem.Valid()
    ensures forall k :: k in order <==> k in deletes && k !in KeysOfPuts(puts, |puts|)
    ensures forall i, j | 0 <= i < j < |order| :: order[i] != order[j]
    ensures |order| <= |deletes| && AllSmall(PutWrites(puts) + DeleteWrites(order))
    ensures mem.State() == WriteAll(old(mem.State()), mem.config, PutWrites(puts) + DeleteWrites(order), envs)
  {
    hide Size;
    hide AfterWrite;
    hide WriteAll;
    hide WriteTrail;
    hide AllSmall;
    hide SizeOk;
    hide KeysOfPuts;
    hide WroteWithin;
    hide KeySet;
    hide ValidConfig;
    hide Inserted;
    hide Total;
    ghost var start := mem.State();
    var deleteKeys := KeySet(deletes);
    FewKeys(deletes);
    NoWrites(start, mem.config, puts, envs);
    var i := 0;
    while i < |puts|
      invariant 0 <= i <= |puts| && mem.Valid()
      invariant deleteKeys == KeySet(deletes) - KeysOfPuts(puts, i)
      invariant |deleteKeys| <= |deletes|
      invariant AllSmall(PutWrites(puts[..i])) && mem.State() == WriteAll(start, mem.config, PutWrites(puts[..i]), envs)
    {
      PutStep(start, mem.config, puts, i, envs);
      var done := mem.Put(puts[i].0, puts[i].1, envs[i]);
      deleteKeys := deleteKeys - {puts[i].0};
      i := i + 1;
    }
    assert puts[..i] == puts;
    ghost var ws := PutWrites(puts);
    ghost var all := deleteKeys;
    order := [];
    assert ws + DeleteWrites(order) == ws;
    var n := |puts|;
    while deleteKeys != {}
      invariant mem.Valid() && n == |puts| + |order| && |order| + |deleteKeys| <= |deletes|
      invariant deleteKeys <= all && forall k :: k in order <==> k in all && k !in deleteKeys
      invariant forall i, j | 0 <= i < j < |order| :: order[i] != order[j]
      invariant AllSmall(ws + DeleteWrites(order))
      invariant mem.State() == WriteAll(start, mem.config, ws + DeleteWrites(order), envs)
      decreases deleteKeys
    {
      var k :| k in deleteKeys;
      DeleteStep(start, mem.config, ws, deletes, order, k, envs);
      var done := mem.Delete(k, envs[n]);
      deleteKeys := deleteKeys - {k};
      order := order + [k];
      n := n + 1;
    }
    r := Ok(());
  }

  lemma NoWrites(db: Db, c: Config, puts: seq<(Bytes, TableEntry)>, envs: seq<Env>)
    requires SizeOk(db) && ValidConfig(c)
    ensures AllSmall(PutWrites(puts[..0])) && WriteAll(db, c, PutWrites(puts[..0]), envs) == db
    ensures KeysOfPuts(puts, 0) == {}
  {
    assert PutWrites(puts[..0]) == [];
  }

  lemma PutSize(puts: seq<(Bytes, TableEntry)>, i: nat)
    requires AllSmall(PutWrites(puts)) && i < |puts|
    ensures Size(puts[i].0, Some(puts[i].1)) < HALF
  {
    assert PutWrites(puts)[i] == LoggedWrite(puts[i].0, Some(puts[i].1));
  }

  lemma DeleteSize(deletes: seq<Bytes>, k: Bytes)
    requires AllSmall(DeleteWrites(deletes)) && k in deletes
    ensures Size(k, None) < HALF
  {
    var i :| 0 <= i < |deletes| && deletes[i] == k;
    assert DeleteWrites(deletes)[i] == LoggedWrite(k, None);
  }

  lemma {:induction false} FewKeys(keys: seq<Bytes>)
    ensures |KeySet(keys)| <= |keys|
  {
    if keys != [] {
      var n := |keys| - 1;
      FewKeys(keys[..n]);
      assert keys == keys[..n] + [keys[n]];
      assert KeySet(keys) == KeySet(keys[..n]) + {keys[n]};
    }
  }

  // ---- what a batch means ----

  /** Every write of the batch meets the conditions of a write. */
  ghost predicate BatchReady(db: Db, c: Config, ws: seq<LoggedWrite>, envs: seq<Env>)
    requires SizeOk(db) && ValidConfig(c) && AllSmall(ws) && |ws| <= |envs|
    decreases |ws|
  {
    ws == [] ||
    var n := |ws| - 1;
    && BatchReady(db, c, ws[..n], envs)
    && WriteReady(WriteAll(db, c, ws[..n], envs), c, ws[n].key, ws[n].entry, envs[n])
  }

  lemma BatchUnfold(db: Db, c: Config, ws: seq<LoggedWrite>, envs: seq<Env>)
    requires SizeOk(db) && ValidConfig(c) && AllSmall(ws) && 0 < |ws| <= |envs| && BatchReady(db, c, ws, envs)
    ensures var n := |ws| - 1;
            && AllSmall(ws[..n]) && BatchReady(db, c, ws[..n], envs)
            && WriteReady(WriteAll(db, c, ws[..n], envs), c, ws[n].key, ws[n].entry, envs[n])
            && WriteAll(db, c, ws, envs) ==
                 AfterWrite(WriteAll(db, c, ws[..n], envs), c, ws[n].key, ws[n].entry, envs[n])
  {
    hide Size;
    hide AfterWrite;
    hide WriteReady;
    hide SizeOk;
    hide WriteTrail;
    hide ValidConfig;
  }

  lemma {:induction false} BatchKeeps(db: Db, c: Config, model: Model, ws: seq<LoggedWrite>, envs: seq<Env>)
    requires Inv(db, c, model) && AllSmall(ws) && |ws| <= |envs| && BatchReady(db, c, ws, envs)
    ensures Inv(WriteAll(db, c, ws, envs), c, Applied(ws, 0, model))
    decreases |ws|
  {
    hide Inv;
    hide AllSmall;
    hide BatchReady;
    hide AfterWrite;
    hide WriteReady;
    hide SizeOk;
    InvParts(db, c, model);
    if ws != [] {
      hide WriteAll;
      hide Applied;
      var n := |ws| - 1;
      BatchUnfold(db, c, ws, envs);
      BatchKeeps(db, c, model, ws[..n], envs);
      WriteKeeps(WriteAll(db, c, ws[..n], envs), c, Applied(ws[..n], 0, model), ws[n].key, ws[n].entry, envs[n]);
      AppliedSnoc(ws[..n], ws[n], 0, model);
      assert ws == ws[..n] + [ws[n]];
    }
  }

  lemma InvParts(db: Db, c: Config, model: Model)
    requires Inv(db, c, model)
    ensures SizeOk(db) && ValidConfig(c)
  {
  }

  /** The last put of a key in the batch. */
  function LastPut(puts: seq<(Bytes, TableEntry)>, key: Bytes): Option<TableEntry> {
    if puts == [] then None
    else if puts[|puts| - 1].0 == key then Some(puts[|puts| - 1].1)
    else LastPut(puts[..|puts| - 1], key)
  }

  /** What the batch promises: puts win over deletes, the last put of a key wins over earlier ones. */
  function BatchOutcome(model: Model, puts: seq<(Bytes, TableEntry)>, deletes: seq<Bytes>, key: Bytes)
    : Option<Option<TableEntry>>
  {
    if LastPut(puts, key).Some? then Some(LastPut(puts, key))
    else if key in deletes then Some(None)
    else LastWrite(model, key)
  }

  lemma {:induction false} AfterPuts(puts: seq<(Bytes, TableEntry)>, model: Model, key: Bytes)
    ensures LastWrite(Applied(PutWrites(puts), 0, model), key) ==
            if LastPut(puts, key).Some? then Some(LastPut(puts, key)) else LastWrite(model, key)
    ensures LastPut(puts, key).Some? <==> key in KeysOfPuts(puts, |puts|)
    decreases |puts|
  {
    if puts != [] {
      var n := |puts| - 1;
      var init := puts[..n];
      AfterPuts(init, model, key);
      AppliedSnoc(PutWrites(init), LoggedWrite(puts[n].0, Some(puts[n].1)), 0, model);
      assert PutWrites(puts) == PutWrites(init) + [LoggedWrite(puts[n].0, Some(puts[n].1))];
      assert KeysOfPuts(puts, |puts|) == KeysOfPuts(init, n) + {puts[n].0};
    }
  }

  lemma {:induction false} AfterDeletes(ws: seq<LoggedWrite>, order: seq<Bytes>, model: Model, key: Bytes)
    ensures LastWrite(Applied(ws + DeleteWrites(order), 0, model), key) ==
            if key in order then Some(None) else LastWrite(Applied(ws, 0, model), key)
    decreases |order|
  {
    if order != [] {
      var n := |order| - 1;
      var init := order[..n];
      AfterDeletes(ws, init, model, key);
      AppliedSnoc(ws + DeleteWrites(init), LoggedWrite(order[n], None), 0, model);
      assert ws + DeleteWrites(order) == ws + DeleteWrites(init) + [LoggedWrite(order[n], None)];
      assert order == init + [order[n]];
    } else {
      assert ws + DeleteWrites(order) == ws;
    }
  }

  /** Whatever order the delete set is walked in and whichever writes flush, the lookups after a
      batch are the same: last puts, then tombstones for the other deleted keys, nothing else. */
  lemma BatchIsOrderFree(db: Db, c: Config, model: Model, puts: seq<(Bytes, TableEntry)>, deletes: seq<Bytes>,
                         order: seq<Bytes>, envs: seq<Env>, key: Bytes)
    requires Inv(db, c, model)
    requires forall k :: k in order <==> k in deletes && k !in KeysOfPuts(puts, |puts|)
    requires var ws := PutWrites(puts) + DeleteWrites(order);
             AllSmall(ws) && |ws| <= |envs| && BatchReady(db, c, ws, envs)
    ensures var after := WriteAll(db, c, PutWrites(puts) + DeleteWrites(order), envs);
            && AllValid(after.disk.levels)
            && Lookup(after.mem, after.disk.levels, key) == BatchOutcome(model, puts, deletes, key)
  {
    hide WriteAll;
    hide BatchReady;
    hide Lookup;
    hide GoodLevels;
    hide AllValid;
    hide LastWrite;
    var ws := PutWrites(puts) + DeleteWrites(order);
    BatchKeeps(db, c, model, ws, envs);
    AfterPuts(puts, model, key);
    AfterDeletes(PutWrites(puts), order, model, key);
  }
}
