# Verified model of the LSM store

A Dafny 4.11 model of a small log-structured key/value store and proofs about it. `dafny verify
dfyconfig.toml` checks everything.

The store keeps recent writes in a sorted map (the memtable) backed by an append-only log, flushes
the map into immutable sorted tables on level 1, and compacts a level's tables into one table of the
next level. The central promise is that all of this looks like one plain map in which the last write
to a key wins. The model follows the bytes: the entry codec, the log, the table file with its Bloom
block, sparse index, data section and footer, both programs that write tables, both that read them,
and the file names and renames of a compaction.

How the modules build on each other:

- `Bytes`, `Utf8`, `Codec`, `Records`: little-endian integers, key order, text, entry and record formats.
- `Bloom`, `Hashing`, `SSTable`, `TableReader`: the table file; the filter works in place on an array.
- `Decoding`, `Replays`, `Opening`: exactly which bytes each reader accepts, whoever wrote them.
- `Levels`, `LsmTree`: directories as levels, the level array, and `Read` with its skipping.
- `Merging`, `Join`, `Build`, `Names`, `Lifecycle`, `Units`, `Trails`, `Compaction`, `AllUnits`,
  `Promotion`, `Coordinator`: what a merge computes, the byte-level loops, which files exist after each
  merge and when they were created, that every directory in between is safe, and what a pass over
  several units leaves. A ghost `trail` of a unit holds the directory after every file operation.
- `MemMap`, `Memtable`, `Storage`: the memtable class, its counter, its log and its flush. A ghost
  `trail` holds the disk after every durable step; crashes happen between two of its elements.
- `Lookups`, `Preservation`, `Inversions`, `Losses`, `Overwrites`, `Crashes`, `Store`, `Runs`: lookups
  across the whole store, whole-level compaction by one unit and by several, levels that lose tables,
  output names that repeat, crashes inside a compaction, the invariant, and runs with crashes,
  compactions and reloads.
- `Service`, `Serving`, `Witnesses`, `LoneFiles`, `LongKeys`: the two request handlers with logic of
  their own, reads through a level array that a flush does not refresh, runs on which the store falls
  short, and keys that no table can show.

Methods are the store's own loops. Each is proved equal to a function of its inputs or of the state
before, and the theorems are about those functions. The entry decoder, the replay loop, the index
parser, the table opener, the level loader, the Bloom probe, the merge of two files and the table
rebuild are proved equal on every input, malformed bytes included. The level directories and the
record lists are handed to methods as ghost arguments where a promise needs them ("if the level holds
these tables, then ...").

## Where code and comments differ

The model follows the code.

- The value a client gets for a flushed key is the stored encoding of the entry, not the value, and
  its metadata is lost (`service.rs:222-237`). `Service.GetIsExactIff` gives the exact condition
  under which `get` is right on a freshly loaded level array, `Serving.EveryGetIff` the one for the
  array a run has loaded; `Witnesses.EncodedRun` and `Witnesses.StaleDelete` are runs on which it is
  wrong. Lookups in the other theorems are compared after decoding.
- `is_tombstone` (`compaction.rs:826-828`) also requires a one-byte key, so compaction drops the
  tombstones of one-byte keys and keeps all others; and it drops them before keys are compared, so a
  deleted one-byte key can come back (`Preservation.PreservedIff`, `Witnesses.DeletedKeyReturns`).
- Compaction outputs get the same name in every run that takes equally many passes, so a second run
  can overwrite the first one's table. `Overwrites.OverwriteKeepsIff` says which lookups survive,
  `Witnesses.OverwrittenKeyLost` is a run on which one does not; the theorems about whole runs
  require a free name.
- The units of a level run from the newest to the oldest, so the output of an older unit is the newer
  file; and a single oldest file that no unit takes stays on the level, above the newer values that
  moved down. A key in several of these groups is then answered by the oldest of them
  (`Inversions.SeveralLookups`, `Inversions.SeveralIff`, `LoneFiles.LoneFileWins`); the theorems about
  whole runs are about levels that are one unit.
- Keys of up to 2^32 - 1 bytes are accepted (`service.rs:39-49`), but a table whose greatest key is
  longer than 9996 bytes shows none of its keys (`disk.rs:352-354`, `LongKeys.VisibleIff`). The
  theorems about runs are about keys of at most 9996 bytes.
- The level array is not reloaded after a flush. `Serving.EveryReadIff` says, for every run, which
  reads are right nevertheless; `Witnesses.StaleRun` is a run with a wrong one. `Service.Get` is
  proved for whatever levels the array was loaded from.
- A restart loads `.bin` files only and resumes no compaction, so a crash inside one can lose keys
  whose records are still on the disk; `Crashes.UnitCrashIff` says which.
- A comment in `mem.rs:239-244` speaks of a u32 tombstone constant that a value could collide with.
  The code writes one byte, 255, and no encoded value is shorter than five bytes, so none can.

## What the theorems assume

Each is something the code needs of its callers or surroundings and is written out as a `requires`:
keys are non-empty and at most 9996 bytes (`GoodWrite`: replay rejects an empty key, and the reader
gives up on a larger footer; `Replays.ReplayIff` and `LongKeys.VisibleIff` are the exact
conditions); lengths fit their u32 fields; metadata keys are UTF-8; an entry, and a
log replayed at a restart, is below 2^31 bytes, as is the configured memory limit; a new table's
file name is unused and its creation time is later than that of every table in its level
(`FreeSlot`); the size of a sparse index fits its u32 (`Lookups.WriteIndexFits` shows that this
follows for a flush when entries are below 2^30 bytes).

## Model

| member | source | states |
|---|---|---|
| `Runs.EveryRunSeen` | switft-merge/src/memtable/mem.rs:449-510 | over every run from an empty store of writes (with the flushes they trigger by size or by timer), crashes with restart, and every whole-level compaction that brings no deleted key back, a client finds for every key, through memtable, levels in order and tables newest first, its last write in a plain map |
| `Runs.EveryRunAgrees` | switft-merge/src/memtable/mem.rs:449-510 | the same with tombstones told apart from keys never written, when the compactions meet no tombstone of a one-byte key |
| `Runs.EveryRunReplays` | switft-merge/src/memtable/mem.rs:732-816 | over every run with the log on, replaying the log succeeds and yields exactly the memtable |
| `Runs.EveryRunCounts` | switft-merge/src/memtable/mem.rs:431-510 | over every run the counter is at least the encoded size of the live records, and equal to it if and only if no replay since the last flush met two writes of one key |
| `Runs.RunKeeps` | switft-merge/src/memtable/mem.rs:449-510 | every run keeps the whole invariant: counter bound, well-formed tables, the log replays to exactly the memtable, lookups agree with the plain map |
| `Runs.SeenStep` | switft-merge/src/memtable/mem.rs:449-510 | every operation of a run keeps the invariant for a map that a client cannot tell from the plain one |
| `Store.WriteKeeps` | switft-merge/src/memtable/mem.rs:449-510 | one put or delete, with or without the flush it triggers, keeps that invariant for the updated plain map |
| `Store.CrashKeeps` | switft-merge/src/memtable/mem.rs:385-402 | a crash after any number of durable steps of a write (log append, table file, log cleared), then a restart: replay succeeds and lookups are those just before the write if nothing was durable, just after it otherwise, including the window where the table exists and the log is not cleared |
| `Store.SmallWriteReady` | switft-merge/src/memtable/mem.rs:449-510 | the theorems about runs take every write of at most 2^30 bytes, at any time, whose table would be the newest of level 1 under a free name |
| `Witnesses.CrashAnywhere` | switft-merge/src/memtable/mem.rs:385-402 | the first write of an empty store, when it flushes, can crash before its log append and after each of its three durable steps |
| `Runs.CompactKeeps` | switft-merge/src/lsm_tree/compaction.rs:133-211 | a whole-level compaction that meets no one-byte-key tombstone keeps the invariant |
| `Runs.CompactForgets` | switft-merge/src/lsm_tree/compaction.rs:133-211 | a whole-level compaction that brings nothing back keeps it for the map without the tombstones it dropped for good, which a client cannot tell from the full map |
| `Store.InsertLog` | switft-merge/src/memtable/mem.rs:449-478 | appending the record and inserting the entry keep "replay of the log is the memtable" |
| `Service.Get` | switft-merge/src/service.rs:159-247 | for a key in memory the answer is the entry's value, and a name is in the answered metadata if and only if the entry has it and the filter is absent or names it, with the entry's own type information; with the level array loaded any other key is answered by the tree lookup, one stored byte meaning deleted |
| `Service.MeantIs` | switft-merge/src/service.rs:196-212 | the same for the answer a client means to get and for the specified one: exactly one response carries an entry under a filter, and a stored answer carries no metadata |
| `Service.GetIsExactIff` | switft-merge/src/service.rs:159-247 | on a level array loaded at that moment, in every reachable state: the answer is the last write with its metadata if and only if the key is still in the memtable or its last write is not a value; a flushed value comes back as its stored encoding without metadata, and decoding that gives the value |
| `Serving.EveryGetIff` | switft-merge/src/service.rs:159-247 | in every run, on the level array the run has loaded: a key not in memory is answered by the encoding of what the tables held at the load; the answer is the last write with its metadata if and only if the key is in memory, or the tables held nothing visible and the last write is not a value, or that encoding happens to be what was last written, without metadata |
| `Witnesses.StaleDelete` | switft-merge/src/service.rs:222-237 | a run (put, flush, reload, delete, flush) after which get still returns the encoding of the deleted value |
| `Service.FlushedGetIsWrong` | switft-merge/src/service.rs:222-237 | from any state, after a put that flushes, get answers with the encoding of the value and no metadata, which is not what was put |
| `Witnesses.EncodedRun` | switft-merge/src/service.rs:222-237 | a run from an empty store that ends in such a state |
| `Serving.EveryReadIff` | switft-merge/src/lsm_tree/disk.rs:220-225 | the level array is loaded at a start, at a restart and by a reload, not by a flush or a merge: in every run a read through memtable and loaded levels shows the last write if and only if the key is in memory, or no memtable flushed since the load held it, or the last write is what the tables showed at the load |
| `Witnesses.StaleRun` | switft-merge/src/lsm_tree/disk.rs:220-225 | a run, one put that flushes, whose read misses the key |
| `Service.BatchWrite` | switft-merge/src/service.rs:324-376 | the batch is its puts in order, then exactly one delete for each deleted key that no put names, in some order, each a full write that may flush |
| `Service.BatchIsOrderFree` | switft-merge/src/service.rs:336-376 | for every order of the delete set and any flushes on the way: put keys hold their last put, the other deleted keys are tombstones, all other keys are unchanged |
| `Memtable.Memtable.Put` | switft-merge/src/memtable/mem.rs:449-478 | the new state and the sequence of disk states it passes through are those of a write of the value; by the configured limits: if the inserted size reaches ram_max_size or the clock has passed the deadline, memory and log are empty afterwards and the table of the updated map is on level 1, otherwise the entry is added and the levels are as they were; the counter ends below ram_max_size |
| `Memtable.Memtable.Delete` | switft-merge/src/memtable/mem.rs:480-510 | the same for a tombstone, limits included |
| `Memtable.Memtable.Insert` | switft-merge/src/memtable/mem.rs:453-476 | log append before the counter and the map change; nothing else changes |
| `Memtable.Memtable.Account` | switft-merge/src/memtable/mem.rs:461-474 | the u32 counter moves by the difference of the old and the new encoded size without leaving its range |
| `Memtable.Memtable.ExistingEntrySize` | switft-merge/src/memtable/mem.rs:431-447 | the encoded size of the stored entry, or none |
| `Memtable.Memtable.ManageFlush` | switft-merge/src/memtable/mem.rs:820-835 | empties memory and log when the counter has reached ram_max_size or the clock has passed the deadline, and changes nothing otherwise |
| `Memtable.WritesWithin` | switft-merge/src/memtable/mem.rs:820-835 | what every write does, in terms of ram_max_size and the deadline alone: table of the updated map, empty memory and log, counter 0 and a new deadline, or the entry added, the log extended and nothing else changed; the counter always ends below ram_max_size |
| `Memtable.Memtable.Flush` | switft-merge/src/memtable/mem.rs:578-729 | an empty memtable is refused without effect; otherwise table file first, log cleared second, then memory, counter and deadline reset |
| `Memtable.Memtable.RebuildMemtable` | switft-merge/src/memtable/mem.rs:732-816 | the cursor loop equals replay for every log, well-formed or not: same map, same error, same counter |
| `Memtable.Memtable.Start` | switft-merge/src/memtable/mem.rs:385-402 | a restart gives the replayed log, or its error, on an unchanged disk |
| `Memtable.ConfigLimits` | switft-merge/src/memtable/mem.rs:926-936 | a valid configuration has from one KiB to two GiB and from ten to 10080 seconds, limits included |
| `Memtable.BuildFlush` | switft-merge/src/memtable/mem.rs:605-695 | the bytes built in one pass, with the footer size spliced in at byte 64 afterwards, are the table layout of the sorted memtable |
| `Memtable.SizeKept` | switft-merge/src/memtable/mem.rs:449-510 | with an entry below 2^31 bytes the counter neither underflows nor overflows, its distance to the encoded size of the live records is kept by a write and zero after a flush, and it is not zero when a flush divides by it |
| `MemMap.ToWalEntry` | switft-merge/src/memtable/mem.rs:245-270 | writes exactly the record encoding of an entry or a tombstone |
| `MemMap.ValueRoundTrip` | switft-merge/src/memtable/mem.rs:803-812 | value bytes read back as written; one byte if and only if a tombstone, so no value is taken for one |
| `MemMap.GoodWriteIff` | switft-merge/src/memtable/mem.rs:223-270 | the writes they take are exactly those with a key of 1 to 9996 bytes, value bytes shorter than 2^32 and text for metadata keys |
| `MemMap.RecordsOfIs` | switft-merge/src/memtable/mem.rs:627-662 | the records a flush writes are strictly sorted and look up exactly as the map does |
| `MemMap.TotalIsEncoded` | switft-merge/src/memtable/mem.rs:605-662 | the sum of the encoded sizes of the live records is the length of the data section a flush writes |
| `MemMap.TotalUpdate` | switft-merge/src/memtable/mem.rs:431-510 | replacing one entry changes the total encoded size by exactly the difference of the two sizes |
| `MemMap.ReplayIs` | switft-merge/src/memtable/mem.rs:732-816 | replaying the log of any writes gives the map those writes build |
| `MemMap.ReplayPrefix` | switft-merge/src/memtable/mem.rs:732-816 | a log cut after n entries replays to the state after n writes |
| `Replays.ReplayIff` | switft-merge/src/memtable/mem.rs:732-816 | whoever wrote the log: a restart takes it if and only if it is the encoding of records with non-empty keys and values that are tombstones or decode, and then the map is the old one with their writes in order |
| `MemMap.LogCovers` | switft-merge/src/memtable/mem.rs:814-815 | the log is at least as long as the live records, and exactly as long if and only if no key was written twice |
| `Codec.Serialize` | switft-merge/src/memtable/mem.rs:114-137 | the append loop over the sorted metadata writes the specified encoding |
| `Codec.Deserialize` | switft-merge/src/memtable/mem.rs:140-231 | the cursor loop equals the specified decoder on every byte string, errors included; Decoding.DecodeIff says which byte strings that decoder accepts |
| `Codec.Encode` | switft-merge/src/memtable/mem.rs:114-137 | every encoding is at least five bytes longer than the value |
| `Codec.RoundTrip` | switft-merge/src/memtable/mem.rs:114-231 | decoding an encoded entry gives it back, for empty values, absent against empty metadata and any number of pairs |
| `Codec.RoundTripIff` | switft-merge/src/memtable/mem.rs:114-231 | with lengths that fit, an entry survives the trip if and only if every metadata key is text; any other is written and then refused |
| `Utf8.AcceptsText` | switft-merge/src/memtable/mem.rs:223-223 | a metadata key is accepted if and only if it is the UTF-8 encoding of some Unicode scalar values, 0 to 0xD7FF and 0xE000 to 0x10FFFF in one to four bytes |
| `Decoding.DecodeIff` | switft-merge/src/memtable/mem.rs:140-231 | whoever wrote the bytes: they decode to this entry if and only if they are its length-prefixed value, a flag, and for a zero flag anything, else pairs of text key, raw bytes and type byte to the end, the last pair of a key counting |
| `Decoding.TagNumbers` | switft-merge/src/memtable/mem.rs:34-62 | the type numbers 0 to 9; every other byte is read as unspecified |
| `Bytes.LeSplits` | switft-merge/src/memtable/mem.rs:245-270 | integers are little-endian: the first byte is the least significant |
| `Bytes.U32Bytes` | switft-merge/src/memtable/mem.rs:245-270 | the four bytes of a u32, in numbers |
| `Bytes.LessIsLexicographic` | switft-merge/src/lsm_tree/disk.rs:473-480 | a key is less than another if and only if it is smaller at the first byte where they differ, or is a proper prefix |
| `Records.ReadInverts` | switft-merge/src/lsm_tree/compaction.rs:531-559 | a cursor at an encoded record reads that record and stops at its end |
| `Records.EncodeInjective` | switft-merge/src/memtable/mem.rs:245-270 | two sections with the same bytes hold the same records |
| `Records.ParseIff` | switft-merge/src/lsm_tree/compaction.rs:620-672 | a section parses to these records if and only if they are writable and the bytes are their encoding |
| `SSTable.LayoutParts` | switft-merge/src/memtable/mem.rs:605-695 | every part of a table file is at its fixed or computed place |
| `SSTable.FlushBlocksAgree` | switft-merge/src/memtable/mem.rs:627-662 | flush index: first mark is record 0, marks strictly increase, the running block counter is the bytes since the last mark |
| `SSTable.CompactBlocksAgree` | switft-merge/src/lsm_tree/compaction.rs:618-672 | the same for the compaction index |
| `SSTable.FlushBlocksBounded` | switft-merge/src/memtable/mem.rs:651-655 | every flush block is at most the target size or a single record, and with the next record it would exceed the target |
| `SSTable.CompactBlocksBounded` | switft-merge/src/lsm_tree/compaction.rs:665-670 | every compaction block but the last reaches the stride, and each block without its last record is below it |
| `Lookups.FlushedBlocksFull` | switft-merge/src/memtable/mem.rs:616-616 | a flushed table starts a new block only when one more record would take it beyond four pages |
| `Lookups.CompactedBlocksFull` | switft-merge/src/lsm_tree/compaction.rs:613-613 | a compacted table starts a new block only after 64 KiB times its level |
| `SSTable.MarksTake` | switft-merge/src/memtable/mem.rs:677-684 | the serialized index takes at most 4/3 of the data section |
| `Lookups.WriteIndexFits` | switft-merge/src/memtable/mem.rs:687-688 | with entries below 2^30 bytes the index length a flush writes never overflows its u32 |
| `Build.SerializeMarks` | switft-merge/src/memtable/mem.rs:678-684 | writes the encoding of the marks |
| `Build.TrySerializeMarks` | switft-merge/src/lsm_tree/compaction.rs:674-685 | the same, or an error exactly when a key length does not fit |
| `Build.BuildFromDataSection` | switft-merge/src/lsm_tree/compaction.rs:604-728 | on every byte string: an error if it does not parse, an error if the index does not fit its length field, else the table layout around it with the compaction index |
| `Bloom.HashKey` | switft-merge/src/lsm_tree/disk.rs:610-620 | the byte loop computes the seeded 64-bit FNV-1a hash with wrap-around; the three rows below pin its values |
| `Hashing.HashOfA` | switft-merge/src/lsm_tree/disk.rs:610-620 | the published FNV-1a value of "a" |
| `Hashing.OneByteDecides` | switft-merge/src/lsm_tree/disk.rs:610-620 | two keys that differ in one byte, wherever it is, hash differently under every seed |
| `Hashing.SeedDecides` | switft-merge/src/lsm_tree/disk.rs:610-620 | one key hashes differently under different seeds, so the two hashes of a key are never equal |
| `Bloom.Probe` | switft-merge/src/lsm_tree/disk.rs:557-565 | every probe index is below 7968 |
| `Bloom.XorIs` | switft-merge/src/lsm_tree/disk.rs:610-619 | the exclusive or of the hash step: a bit of the result is set when the two bits differ |
| `Bloom.OrBitIs` | switft-merge/src/lsm_tree/disk.rs:622-629 | setting a bit of a byte sets that bit and no other |
| `Bloom.SetBit` | switft-merge/src/lsm_tree/disk.rs:622-629 | in place: the array becomes the bitmap with that one bit set |
| `Bloom.WithBitIs` | switft-merge/src/lsm_tree/disk.rs:622-638 | a bit reads as set after SetBit if and only if it is that bit or was set before |
| `Bloom.AddKeyBits` | switft-merge/src/lsm_tree/disk.rs:557-567 | in place: exactly the probes of the key are added |
| `Bloom.FilledIs` | switft-merge/src/lsm_tree/disk.rs:541-567 | adding keys one by one sets exactly the bits that some key probes |
| `Bloom.GenerateFilter` | switft-merge/src/lsm_tree/disk.rs:516-555 | the block written is the k header and the one bitmap in which exactly the bits some key probes are set |
| `Bloom.ProbablyExist` | switft-merge/src/lsm_tree/disk.rs:570-596 | the probe loop equals the reader predicate on every block, malformed ones included |
| `Bloom.AnswerIs` | switft-merge/src/lsm_tree/disk.rs:541-596 | a generated block says "maybe" if and only if every probed bit belongs to some inserted key |
| `Bloom.NoFalseNegatives` | switft-merge/src/lsm_tree/disk.rs:541-596 | every inserted key is answered "maybe", for every k from 2 to 16 and every key list |
| `Hashing.RulesOut` | switft-merge/src/lsm_tree/disk.rs:541-596 | a block generated for "a" alone answers "maybe" for "a" and "no" for "b" |
| `Hashing.SampleBlock` | switft-merge/src/lsm_tree/disk.rs:516-567 | that block byte by byte: a little-endian probe count, then bit 7660 in byte 957 of the bitmap and bit 7211 in byte 901, counted from the lowest bit, and zeros |
| `Hashing.CountDecides` | switft-merge/src/lsm_tree/disk.rs:570-596 | with no bit set a block rules every key out if and only if its probe count is from 2 to 30 |
| `TableReader.ParseSparseIndex` | switft-merge/src/lsm_tree/disk.rs:404-445 | the loop equals the index parser on every buffer |
| `Opening.ParseMarksIff` | switft-merge/src/lsm_tree/disk.rs:404-445 | whoever wrote the buffer: it parses to these marks if and only if it is their encoding |
| `TableReader.Open` | switft-merge/src/lsm_tree/disk.rs:323-463 | the reader opened from a file equals the specified one, or its error, or none for a foreign header |
| `Opening.OpenIff` | switft-merge/src/lsm_tree/disk.rs:323-463 | whoever wrote the file: it opens if and only if it is the 64-byte constant, 8 bytes of footer size, 1000 of filter, 4 of index size, an index that parses, and a footer with a readable max key (empty for a size of 0 or above 10000); the data then starts at 1076 plus the index size; a foreign constant is skipped |
| `Opening.SectionIff` | switft-merge/src/lsm_tree/compaction.rs:739-811 | the compactor takes a table file if and only if index, section and a non-empty footer fill it exactly |
| `TableReader.OpenInverts` | switft-merge/src/lsm_tree/disk.rs:343-463 | on a table of either writer the reader recovers CRC, Bloom block, every (offset, key) mark, the data section start and the max key exactly |
| `TableReader.BinarySearch` | switft-merge/src/lsm_tree/disk.rs:473-480 | on sorted marks the index is that of the last mark not above the key |
| `TableReader.Search` | switft-merge/src/lsm_tree/disk.rs:466-509 | answer, first and last file position equal the search specification |
| `TableReader.ScanFileIs` | switft-merge/src/lsm_tree/disk.rs:484-508 | a scan from record i answers as a scan of the records does and stops right after the record it stopped for; it fails only for a key above all records |
| `TableReader.SearchCorrect` | switft-merge/src/lsm_tree/disk.rs:466-509 | for every table of either writer and every key: absent, without reading, below the first key; between first and max key exactly what a scan of all records finds, reading from the last mark not above the key no further than that block and one record, never a footer byte; an error above the max key |
| `TableReader.FlushSearchReads` | switft-merge/src/memtable/mem.rs:651-655 | the bytes a search reads in a flushed table: at most the target block size, or the single record of the block, and one record |
| `Lookups.FlushedTableReads` | switft-merge/src/memtable/mem.rs:616-616 | for the tables a flush writes the target is four pages |
| `TableReader.CompactSearchReads` | switft-merge/src/lsm_tree/compaction.rs:665-670 | the bytes a search reads in a compacted table: less than the stride and two records |
| `Lookups.CompactedTableReads` | switft-merge/src/lsm_tree/compaction.rs:613-613 | for the tables compaction writes the stride is 64 KiB times the level |
| `Levels.MissIff` | switft-merge/src/lsm_tree/disk.rs:195-217 | a level misses a key if and only if no table of it holds the key |
| `Levels.AddNewest` | switft-merge/src/lsm_tree/disk.rs:192-213 | a table newer than the whole level is consulted first |
| `LsmTree.LoadLevel` | switft-merge/src/lsm_tree/disk.rs:245-287 | on any directory: an error exactly when some table file cannot be opened; else every opened file is in the map under its metadata, files with a foreign header are skipped, and nothing else is in it; on a directory of tables all are loaded |
| `LsmTree.Worth` | switft-merge/src/lsm_tree/disk.rs:167-187 | range check, then Bloom block at its fixed place; a short file is an error |
| `LsmTree.SkippedMisses` | switft-merge/src/lsm_tree/disk.rs:167-187 | a table skipped by range or by Bloom filter does not hold the key |
| `LsmTree.SkippedIff` | switft-merge/src/lsm_tree/disk.rs:167-187 | a table is skipped if and only if the key is outside its range or some probe of it hits a bit that no key of the table owns |
| `LongKeys.VisibleIff` | switft-merge/src/lsm_tree/disk.rs:343-365 | for a table of either writer with keys of any length, each of its keys passes the range check of the opened table if and only if the greatest has at most 9996 bytes: the reader takes a longer footer for damaged and the max key for empty |
| `LsmTree.ReadLevel` | switft-merge/src/lsm_tree/disk.rs:161-213 | on a loaded level the answer is that of the newest table holding the key, or none |
| `LsmTree.LsmTreeReader.Reload` | switft-merge/src/lsm_tree/disk.rs:220-291 | on any directories: fails exactly when some table file cannot be opened, keeping the old array; else every level holds exactly the opened readers, files with a foreign header left out, so reads go by the tables that are known |
| `LsmTree.LsmTreeReader.Read` | switft-merge/src/lsm_tree/disk.rs:156-218 | the answer is the first table in (level, newest-first) order that holds the key, and missing only when none does: skipping changes nothing |
| `Lookups.TopTable` | switft-merge/src/lsm_tree/disk.rs:161-217 | a newest table on top answers for its keys, the old tree for the rest |
| `Lookups.FlushKeepsLookups` | switft-merge/src/memtable/mem.rs:578-729 | writing the memtable out as a table changes no lookup, whether or not the memtable is still there |
| `Merging.StripFind` | switft-merge/src/lsm_tree/compaction.rs:560-578 | dropping tombstones of one-byte keys removes exactly those lookups |
| `Merging.MergeSorted` | switft-merge/src/lsm_tree/compaction.rs:452-527 | the merge of strictly sorted sections is strictly sorted |
| `Merging.MergeFind` | switft-merge/src/lsm_tree/compaction.rs:452-527 | the merge looks up as left overriding right |
| `Merging.JoinIs` | switft-merge/src/lsm_tree/compaction.rs:434-530 | a merged section is strictly sorted, stripped, no longer than its inputs together, and looks up as stripped-left over stripped-right |
| `Merging.MergeAssociative` | switft-merge/src/lsm_tree/compaction.rs:361-408 | the merge is associative, record for record |
| `Merging.TournamentIsOverlay` | switft-merge/src/lsm_tree/compaction.rs:361-408 | pairwise rounds with odd carry, over any n >= 2 sorted lists, give record for record the newest-wins fold of the stripped lists |
| `Merging.OverlayFind` | switft-merge/src/lsm_tree/compaction.rs:361-408 | that fold looks up as the newest list holding the key after stripping |
| `Merging.TournamentCost` | switft-merge/src/lsm_tree/compaction.rs:361-408 | n files take exactly ceil(log2 n) passes and n - 1 merges |
| `Join.SectionFound` | switft-merge/src/lsm_tree/compaction.rs:739-811 | the compactor finds exactly the data section of a table or a raw section |
| `Join.ContentsOf` | switft-merge/src/lsm_tree/disk.rs:343-463 | the bytes of a table determine its records |
| `Join.ReadNextNonTombstone` | switft-merge/src/lsm_tree/compaction.rs:560-578 | on any file: the cursor lands right after the next surviving record, or at the end, or fails where the records cannot be read |
| `Join.WriteEntry` | switft-merge/src/lsm_tree/compaction.rs:580-603 | appends the record encoding, or fails exactly when a length does not fit |
| `Join.JoinTables` | switft-merge/src/lsm_tree/compaction.rs:434-530 | on any two files the two-cursor loop ends with exactly the encoded merge of the records, or with the error of the header or records that cannot be read, having written whole records only |
| `Join.JoinsRecords` | switft-merge/src/lsm_tree/compaction.rs:434-530 | on two files of either writer, or of an earlier merge, that is the encoding of the merge of their records |
| `Names.OutNamesDiffer` | switft-merge/src/lsm_tree/compaction.rs:371-371 | no two outputs have one name, of one unit or of two |
| `Names.NewExtension` | switft-merge/src/lsm_tree/compaction.rs:197-199 | draining and promoting a file changes its extension and nothing else of its name |
| `Overwrites.NameRepeatsIff` | switft-merge/src/lsm_tree/compaction.rs:371-371 | two compactions leave tables of one name if and only if they take equally many passes |
| `Lifecycle.Step` | switft-merge/src/lsm_tree/compaction.rs:368-396 | after one merge every live file still holds its records, the output has overwritten no file still to be read, consumed and drained files are accounted for, and no foreign file has changed |
| `Lifecycle.StepBorn` | switft-merge/src/lsm_tree/compaction.rs:379-380 | every intermediate was created at the clock reading of its unit, unless the unit found a file of that name, whose birth it keeps |
| `Lifecycle.Finish` | switft-merge/src/lsm_tree/compaction.rs:409-432 | rebuild and removal leave one output; inputs, drained files and intermediates are gone, every other file is as before |
| `Units.UnitStep` | switft-merge/src/lsm_tree/compaction.rs:368-396 | the same for the unit with its lists of outputs and files still to do, each holding the right records |
| `Trails.MergeStepsSafe` | switft-merge/src/lsm_tree/compaction.rs:379-395 | in each of the four directories of a merge (output created, written, left source drained, right source drained) every input is untouched under its own name or an intermediate holds the encoded merge of a slice of the inputs that contains it, and no foreign file has changed |
| `Trails.TrailEnds` | switft-merge/src/lsm_tree/compaction.rs:422-431 | the same in every directory while the output is rebuilt and the consumed files are deleted one by one |
| `Crashes.UnitCrashLookup` | switft-merge/src/lsm_tree/disk.rs:245-287 | in any directory on the trail of a unit the tables are inputs and foreign tables, unchanged: a key looks up as before unless the input that answered it has been drained, and then as what is left of the level and below |
| `Crashes.UnitCrashIff` | switft-merge/src/memtable/mem.rs:385-402 | crash in any directory on the trail of a unit, then restart: the memtable comes back from the log, and a key looks up to its last write if and only if it is in the memtable, or the input that answered it was not drained, or what is left means the same; for every drained input an unread file holds the merge with its records |
| `Compaction.CompactionUnit.MergePair` | switft-merge/src/lsm_tree/compaction.rs:368-396 | the directories it passes through, in order: output created, written, left source drained, right source drained; if the merge fails, the records written until then are in the output and nothing is drained |
| `Compaction.CompactionUnit.RunPass` | switft-merge/src/lsm_tree/compaction.rs:364-407 | one pass turns the list into the round of neighbours with the odd file carried, keeping the discipline and a safe trail |
| `Compaction.CompactionUnit.RemoveConsumed` | switft-merge/src/lsm_tree/compaction.rs:423-431 | exactly the consumed files are removed, each in a directory of its own on the trail |
| `Compaction.CompactionUnit.FinishUnit` | switft-merge/src/lsm_tree/compaction.rs:410-432 | the output is rebuilt in place, then the consumed files are removed one by one |
| `Compaction.CompactionUnit.Compact` | switft-merge/src/lsm_tree/compaction.rs:347-433 | a unit of n >= 2 tables ends, in ceil(log2 n) passes, with one new file: the table of the newest-wins overlay; all its inputs and intermediates are gone, nothing else changed; the new file was born at the unit's clock reading unless its name was taken, and then keeps that birth; the trail is a path of single file operations from the first directory to the last, and each directory on it is safe: an input is drained only while a file with its merge stands for it |
| `Coordinator.Partition` | switft-merge/src/lsm_tree/compaction.rs:148-170 | units are consecutive slices of the newest-first list, of 2 to target_chunks files, only the last one short, leaving out at most the single oldest file |
| `Promotion.OnePromoted` | switft-merge/src/lsm_tree/compaction.rs:133-211 | a level of at most target_chunks files is one unit: it loses its tables, the next level gains exactly the overlay table under the promoted name, born when the unit ran unless a file of the output name was there already, no other level changes |
| `AllUnits.NextReady` | switft-merge/src/lsm_tree/compaction.rs:172-187 | a unit finds its files as they were before the earlier units ran |
| `AllUnits.UnitDone` | switft-merge/src/lsm_tree/compaction.rs:172-187 | after one more unit the level is what no unit has touched, and the outputs so far |
| `Coordinator.CompactionCoordinator.SizeTierCompaction` | switft-merge/src/lsm_tree/compaction.rs:133-211 | for any number of units, none included: the level keeps what no unit touched, the next level gains the overlay table of every unit under its promoted name, with its birth time, in order, no other level changes. When one unit takes the whole level and its output is the newest of the next level under a free name, for every key: the lookup is unchanged unless a one-byte key's newest entry there is a tombstone, and what a client sees is unchanged if and only if no deleted key comes back. When several units do, for every key the newest group that holds it answered before and the oldest that still does answers after |
| `Preservation.LevelIsList` | switft-merge/src/lsm_tree/disk.rs:189-213 | a level looks up as its newest-first list of tables |
| `Preservation.CompactionLookups` | switft-merge/src/lsm_tree/compaction.rs:133-211 | the lookups of every key before and after a whole-level compaction, in terms of upper levels, the level and lower levels |
| `Preservation.CompactionPreserves` | switft-merge/src/lsm_tree/compaction.rs:133-211 | the lookup of every key is unchanged unless it has one byte and its newest entry in the level is a tombstone |
| `Preservation.PreservedIff` | switft-merge/src/lsm_tree/compaction.rs:826-828 | what a client sees of a key is unchanged if and only if the compaction does not drop a one-byte key's tombstone above an older value that nothing hides |
| `Inversions.SeveralLookups` | switft-merge/src/lsm_tree/compaction.rs:148-211 | a level that needs several units, or leaves its oldest file alone: outputs are created from the newest unit to the oldest and the lone file stays above them, so for every key the newest group that holds it answers before, the oldest one that still does after, and the levels above and below as ever |
| `Inversions.SeveralIff` | switft-merge/src/lsm_tree/compaction.rs:148-211 | of a key without a dropped tombstone the lookup is unchanged if and only if a level above answers it or the newest and the oldest group that hold it give the same bytes |
| `LoneFiles.LoneFileWins` | switft-merge/src/lsm_tree/compaction.rs:162-170 | a run from an empty store (one key put three times, each flushed) after which a compaction by units of two turns its lookup from the last value into the first |
| `Witnesses.DeletedKeyReturns` | switft-merge/src/lsm_tree/compaction.rs:826-828 | a run from an empty store (put a one-byte key, flush, delete it, flush) after which a compaction turns the lookup of the key from deleted into its old value |
| `Overwrites.TwoOutputs` | switft-merge/src/lsm_tree/compaction.rs:371-371 | a second compaction of a level starts while the output of an earlier one is in the next level, whatever happened in between: both outputs stand there afterwards if and only if the two took differently many passes; otherwise the second has replaced the first |
| `Overwrites.OverwriteKeepsIff` | switft-merge/src/lsm_tree/compaction.rs:197-211 | when the output may overwrite a table of the next level, for every key: the exact condition under which a client sees the same (upper level; dropped tombstone with nothing visible in its place; another entry in the level; overwritten table not the answer, or what remains shows the same), and under which the lookup itself is the same |
| `Witnesses.OverwrittenKeyLost` | switft-merge/src/lsm_tree/compaction.rs:371-371 | a run from an empty store in which a second compaction overwrites the output of the first and a written key is gone |

## Left out

- Request parsing and validation, type mapping to the wire format, logging, metrics, health check,
  shutdown, configuration parsing and the memtable-only range query: plumbing.
- Locks, threads and background tasks: an operation is one step, a run is any sequence of them.
- Clocks, UUIDs and the probe count: parameters (`Env`); the floating-point formula for the probe
  count is replaced by any value from 2 to 16, and false-positive rates are not claimed.
- File-system errors, partial writes, fsync and open handles: each write, create, rename or removal
  is one atomic step that succeeds. A crash inside a table write is not modelled.
- `level.filter` and the level summary: no reader uses them.
- The CRC header is a constant, as in the code, not a checksum.
- The counters of tables and levels searched, which are only reported.
- The monitor that decides when to compact and lists the directory: a compaction may happen at any
  time, on names given newest first. One clock reading serves all files one unit creates.
- Toggling the log at run time; crash safety is about stores with the log on.
- Compactions by several units inside a run: the lookups after one are given exactly, but a run has only
  compactions of a level that is one unit.
- Runs that go on after a crash inside a compaction: the files it leaves behind are not followed.
- A read through a stale level array uses the files as they were loaded: open handles outlive a
  rename or removal. The reload after a compaction is a step of its own, at any later time.
- TableReader caches: a reader is a value with its metadata, not an object with fields filled in by
  successive calls; aliasing of open files is not captured.
- Table file names ending in `.bin` or `.tmp` are recognised by their suffix, and the renames replace
  the suffix; names that hold the suffix twice do not occur and are not treated.
- Panics: the unchecked slice of the replay loop is the error `SlicePanic`, a metadata key that is
  not UTF-8 is the error `KeyNotUtf8`.
- Memtable.Memtable.Write: put and delete share one method because their bodies differ only in the entry.
- Compaction.CompactionUnit.Compact: nothing is promised for a unit of one file, which the partition never makes.
- Coordinator.CompactionCoordinator.SizeTierCompaction: promises nothing when a unit fails, which takes a malformed table or an index too long for its field.
- Compaction.CompactionUnit.MergePair: promises nothing about its files when the names collide, which a unit's names never do.
- TableReader.Search: promises nothing on an index that is not sorted; neither writer makes one.
- Runs.CompactKeeps: only for compactions that meet no tombstone of a one-byte key, because of the defect described above; `Runs.CompactForgets` covers every compaction that brings no deleted key back.
