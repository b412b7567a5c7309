# NovaLSM: a verified model of its core

NovaLSM is an LSM-tree key-value store that is split in two. The compute side (LTC) keeps
memtables, a lookup index, a range index and subranges; storage servers (StoC) hold SSTables and
log replicas. This project models the parts whose guarantees only hold across several functions,
and proves those guarantees for every input or every run.

`dafny verify dfyconfig.toml` checks the whole project.

## How the model is organised

- **Protocols** are state machines whose steps are the critical sections of the code. A theorem
  about a `trace` holds for every finite run and every interleaving: `ReadPath` (lookup-index reads
  against Puts, flushes and compactions), `SkipListReaders` (searches without a lock),
  `LogReplication` (log records written by one-sided writes that may be torn), `RangeIndex`
  (reference counts), `Partition` (memtable slots), `SlabAllocator` (items handed out and given
  back).
- **Objects updated in place** are classes with the code's fields; loops stay loops. Each method is
  proved against a function on values, and the theorems are about that function.
- **Partners.** The log writer has the log reader; the record encoder has the recovery loop; the
  hash table, the skip list and the slab allocator are compared with a map, a sorted list and a set
  of intervals; compaction is compared with "the newest entry of every user key", and its files with
  the only way to cut them that has a reason for every cut.

| file | what it covers |
|---|---|
| `Installs`, `ReadPath`, `StaleRuns`, `AtomicMemTable` | reads through the lookup index while data moves underneath |
| `Compaction`, `CompactionCuts`, `CompactedInstalls` | which entries a compaction keeps, where it cuts files, what its install promises readers |
| `Coding`, `LogRecords`, `LogReplication` | log record format, replication to several servers, recovery |
| `BlockLog` | the block-fragmented log: writer and reader |
| `RangeIndex`, `RangeIndexManager` | versioned range index and the references it holds |
| `Subranges`, `SubrangeBoundary`, `SubrangeSearch`, `SubrangeReorg`, `TinyRanges`, `TinyRangeShares` | the tiling of the key space, the asserts on it and its reorganisation |
| `Partition` | writers, memtable slots and flush installs of one partition |
| `SkipList`, `SkipListReaders` | skip list and memtable, and searches during an insert |
| `SlabAllocator`, `ChainedHashTable` | memory manager and hash table |
| `Options` | optional values |

## What the code does not promise

Each of these is stated with the condition that decides it.

- A search of several level-0 files overwrites the value at every hit and ignores sequence numbers,
  so the file with the lowest number wins. Below level 0 the first hit wins with `use_ordered_flush`;
  by default every hit overwrites the one before, so the deepest level wins. In both modes a single
  push that takes all of level 0 and overlaps nothing in level 1, and a single level-0 merge, can turn
  a read that was fresh before it into one that is older than a Put completed before the read began
  (`StaleRuns.StalePushRun`, `StaleRuns.StaleMergeRun`). `Installs.MergeKeepsReadsIff` and
  `Installs.PushKeepsReadsIff` say exactly which installs are safe in this respect. The asserts of the
  read path hold in every run of `ReadPath`, with file numbers drawn and installed in any order;
  freshness holds in every run whose merges and pushes are safe. Disciplines that can be checked on
  files alone are enough for that (`ReadPath.DisciplinedMergeIsSafe`,
  `ReadPath.DisciplinedPushIsSafe`).
- Moving keys down a level can change a read in the default mode; it never makes one older
  (`Installs.LowerDeepestIff`).
- A compaction whose smallest snapshot is 2^56 - 1 or more drops everything
  (`Compaction.CompactionKeepsReadsIff`).
- Flushing with pruning never prunes the empty user key (`Compaction.FlushAgreesIff`).
- The log record decoder reads the end marker without checking that a byte is left. Wherever a log
  is cut and however much zero padding follows, `LogRecords.OverrunLength` is the one buffer length
  at which this reads past the end (`LogRecords.RecoversWhole`); behind complete records it is 20
  bytes of padding.
- Tiny ranges are cut with 32-bit bounds. They tile [lower, upper) for all rates if and only if upper
  is below 2^32, or is 2^32 and lower is at most 1 (`TinyRanges.TinyRangesTileIff`).
- Creating duplicates of a hot key fails an assert if and only if its duplicates are all the subranges
  there are and the new ones do not fit (`SubrangeReorg.CreateDuplicates`,
  `SubrangeReorg.HotKeyEverywhere`).
- A point is considered for duplicates from 1.5 fair shares on, but gets them only from 2 on
  (`SubrangeReorg.DuplicatesShareFairly`).
- A search that extends a full set of subranges at a duplicate breaks the tiling and fails the
  asserts; otherwise the tiling is kept (`SubrangeSearch.SubRangeManager.SearchSubranges`,
  `SubrangeSearch.DuplicatesAtTheEndFail`).
- The asserts on the boundaries keep 64-bit bounds in an `int`. Whether a good tiling passes them is
  decided by the bounds of its ranges, all but the last, truncated to 32 bits; below 2^31 they pass,
  and there are good tilings at 2^31 that fail (`SubrangeBoundary.TilingHoldsIff`,
  `SubrangeBoundary.LargeTilingFails`).
- A slab keeps its item size, its number of items and its bytes left in 32-bit arithmetic. All
  classes get their full items if and only if slabs are below 4 GiB (`SlabAllocator.ItemsFitIff`).
  Above that, items in use stay apart in every run if and only if the slab size passes three tests,
  for the classes of 4800, 9600 and 38400 MiB (`SlabAllocator.AlwaysApartIff`); with slabs of
  5632 MiB two items of 4800 MiB are 704 MiB apart (`SlabAllocator.LargeSlabItemsOverlap`). An
  allocation divides by zero in some run if and only if the slab size is a multiple of 4 GiB or is
  300 GiB or more (`SlabAllocator.NeverCrashesIff`). A slab of 4 GiB or more serves as one whole item
  only if its size is a multiple of what it exceeds the last multiple of 4 GiB by
  (`SlabAllocator.WholeSlabCapacity`).
- Sampling a subrange anew loses some of its inserts, whenever it has any: the last range and the keys
  at the cuts get none (`TinyRanges.MinorSampling`).

## Model

| member | source | states |
|---|---|---|
| Installs.GetFromFiles | db/version_set.cc:373-427 | the search ends in an I/O error exactly when a listed file is missing; otherwise the entry found is the one of the lowest-numbered file that holds the key, and "not found" means no listed file holds it |
| Installs.SearchBelow | db/version_set.cc:347-371 | the loop over the lower levels returns the first hit with ordered flush and the deepest hit without |
| Installs.GetFromVersion | db/db_impl.cc:2188-2203 | the read of one version returns what the level-0 files of the memtable hold, else what the lower levels answer in the search mode of the store, in all three outcomes |
| Installs.FlushKeepsReads | db/db_impl.cc:1462-1475 | a flush install with any unused file number keeps file and memtable records linked both ways, and every read through a flushed memtable at least as new as what that memtable held |
| Installs.MergeKeepsReadsIff | db/db_impl.cc:186-207 | a level-0 merge with any unused file numbers keeps all reads fresh, in either search mode, if and only if for every memtable carried by an input the lowest-numbered file that answers, among those left behind and the outputs, is new enough |
| Installs.CarefulMergeKeepsReads | db/db_impl.cc:186-207 | inputs that leave no losing file behind, outputs that yield to the files left behind and inputs not older than the lower levels always keep reads fresh |
| Installs.PushKeepsReadsIff | db/db_impl.cc:208-219 | a push into level 1 keeps all reads fresh, and with ordered flush the levels ordered, if and only if every memtable still finds a new enough entry in the search mode of the store and, with ordered flush, no deeper level is newer than what level 1 newly gets |
| Installs.CarefulPushKeepsReads | db/db_impl.cc:208-219 | a discipline on files alone, one for each search mode, is enough for pushes, trivial moves included |
| Installs.LowerDeepestIff | db/db_impl.cc:2016-2036 | where the deepest level wins, moving keys down changes a read exactly when a newer entry overtakes the one that won, and never makes it older |
| Installs.LowerKeepsReads | db/db_impl.cc:2016-2036 | moving keys from one lower level to the next keeps all reads fresh in both modes; with ordered flush it changes none, by default only those that get newer |
| ReadPath.NextInv | db/db_impl.cc:1982-1993 | every step of writers, installs and readers, with file numbers installed in any order, keeps the invariant: each installed version at least as new as the last one that touched a memtable has all its level-0 files and, if all merges and pushes are safe, answers its keys freshly |
| ReadPath.ReadersFilesExist | db/db_impl.cc:2166-2192 | in every run, whatever the compactions take as input, a reader that has left the retry loop holds only file numbers that its version has, so the I/O-error assert holds |
| ReadPath.InstallAssertsHold | db/memtable.cc:266-287 | in every run, the asserts of SetFlushed and UpdateL0Files hold for every memtable an install still has to touch |
| ReadPath.ReadsAreFresh | db/db_impl.cc:2129-2210 | in either search mode and in every run whose merges and pushes meet the exact condition when they begin, a finished read is not older than any Put of its key that had completed when the read began, and it does find the key |
| ReadPath.ReadsAgreeWithMap | db/db_impl.cc:2129-2210 | in every run, a key never put is not found; in every such run and either search mode, a read without a newer Put of its key returns exactly what a plain map would |
| ReadPath.DisciplinedMergeIsSafe | db/db_impl.cc:186-207 | at every moment of such a run, a merge that keeps to the discipline on files alone meets the exact condition |
| ReadPath.DisciplinedPushIsSafe | db/db_impl.cc:208-219 | at every moment of such a run, a push that keeps to the discipline on files alone meets the exact condition |
| StaleRuns.StalePushRun | db/db_impl.cc:208-219 | in either search mode, some run reaches a state where a read of the key returns the last completed Put, entry 2, and where a push begins that is not safe, takes all of level 0 and overlaps nothing in level 1; with that install alone the next read returns entry 1 |
| StaleRuns.StaleMergeRun | db/db_impl.cc:186-207 | in either search mode, some run reaches a state where a read of the key returns the last completed Put, entry 2, and where a level-0 merge begins that is not safe; with that install alone the next read returns entry 1 |
| AtomicMemTables.AtomicMemTable.constructor | db/memtable.cc:251-264 | a record that takes over a new memtable starts mutable, unflushed, without files and with one reference |
| AtomicMemTables.AtomicMemTable.SetFlushed | db/memtable.cc:266-287 | the record changes as the read path's flush edit and the counting protocol's flush step say; the memtable is freed exactly when its own reference was the last |
| AtomicMemTables.AtomicMemTable.UpdateL0Files | db/memtable.cc:359-371 | afterwards a file is recorded exactly when it was recorded or added and is not removed, and the last version never decreases |
| AtomicMemTables.AtomicMemTable.RefMemTable | db/memtable.cc:306-317 | pins the memtable exactly when it still exists |
| AtomicMemTables.AtomicMemTable.Unref | db/memtable.cc:373-385 | gives back references; the memtable stays exactly while some are left |
| AtomicMemTables.LookupIndex.Lookup | db/lookup_index.cpp:21-25 | returns what the index of the read path holds for the hash |
| AtomicMemTables.LookupIndex.Insert | db/lookup_index.cpp:27-32 | updates the slot of the hash and no other |
| AtomicMemTables.LookupIndex.CAS | db/lookup_index.cpp:34-41 | updates the slot only if it holds the expected id |
| Compaction.NewestIsGreatest | db/dbformat.cc:382-400 | in internal key order, the first visible entry of a user key is the one with the greatest sequence number; none is found only if none is visible |
| Compaction.CompactionKeepsReadsIff | db/compaction.cpp:363-395 | every key reads the same before and after at every snapshot from the smallest one on, if and only if the smallest snapshot is below 2^56 - 1, duplicates are kept, or the input is empty |
| Compaction.CompactionState.TooMuchOverlap | db/compaction.cpp:163-185 | the in-place grandparent counter does one step of the overlap specification |
| Compaction.CompactionState.ShouldStopBefore | db/compaction.h:172-203 | the in-place cursor over subranges and grandparents does one step of the cutting specification |
| Compaction.CompactionState.CompactTables | db/compaction.cpp:349-441 | the loop produces exactly the output files of the specification, which CompactionCuts.CutsDetermineFiles characterises, and never offers the table builder an entry out of order |
| Compaction.FilesHoldKept | db/compaction.cpp:349-441 | the output files one after the other are the kept entries in order; the recorded bounds of each file are its first and last entry |
| Compaction.FilesRespectSubranges | db/compaction.h:172-203 | no output file holds keys of two different subranges, even when the key that moves the cursor is dropped |
| Compaction.FilesOverlapFew | db/compaction.cpp:163-185 | no output file overlaps more than max(1, min(5, n/4)) of the n grandparents, although the counter carries over between files and advances on dropped keys |
| Compaction.FilesDisjoint | db/compaction.cpp:349-441 | when the snapshot covers the input, output files have disjoint ascending user-key ranges |
| CompactionCuts.FilesAreWellCut | db/compaction.cpp:349-441 | no file is big enough without its last entries, however many, and none goes on past an entry of another subrange or past a full count of grandparents; a file followed by another is big enough, or such an entry was read in between |
| CompactionCuts.CutsDetermineFiles | db/compaction.cpp:349-441 | the output is the only way to distribute the kept entries over files in order that ends each file where, and only where, there is a reason |
| Compaction.OutputIsNewest | db/compaction.cpp:363-395 | when the snapshot covers the input, an entry is kept exactly when it is the newest of its user key |
| Compaction.KeptIffVisible | db/compaction.cpp:363-395 | an entry is dropped exactly when a newer one of its user key is visible to every snapshot |
| Compaction.BuildTable | db/builder.cc:104-131 | the pruning loop builds a table with exact bounds out of the entries its specification keeps; no table for an empty input |
| Compaction.FlushAgreesIff | db/builder.cc:111-131 | pruning on flush and compaction keep the same entries if and only if the empty user key does not occur twice |
| CompactedInstalls.JobOutputsAreMergeOutputs | db/compaction.cpp:349-441 | a compaction job whose snapshot covers its input writes the newest entry of every user key of the input files into exactly one output: what a level-0 merge install relies on |
| CompactedInstalls.JobOutputsAreAbsorbed | db/compaction.cpp:349-441 | a job over level-0 files and every level-1 file they overlap leaves level 1 as a push install relies on |
| LogRecords.DecodeLogRecord | common/nova_common.h:665-688 | the decoder agrees with its specification on every buffer, the read past the end included |
| LogRecords.DecodesPrefix | common/nova_common.h:650-688 | decoding any buffer that starts with an encoded record gives back that record and its size |
| LogRecords.DecodesIff | common/nova_common.h:650-688 | any bytes decode to a record if and only if they begin with its encoding |
| LogRecords.OverrunsIff | common/nova_common.h:665-688 | on any bytes, the decoder reads past the end if and only if they end where the two length fields put the end marker |
| LogRecords.TornRecordStops | common/nova_common.h:665-688 | a record cut at any byte and followed by any number of zeros is never decoded, and the decoder reads past the end if and only if the buffer ends where it looks for the end marker |
| LogRecords.ZerosStop | common/nova_common.h:677-679 | zero padding stops the decoder, which reads past the end if and only if exactly 20 bytes are left |
| LogRecords.RecoverLog | log/log_recovery.cpp:72-76 | the recovery loop ends on every buffer and agrees with its specification |
| LogRecords.RecoversFront | log/log_recovery.cpp:66-77 | any bytes recover as the records encoded at their front, and no record begins behind these |
| LogRecords.RecoversWhole | log/log_recovery.cpp:66-77 | any prefix of a sequence of encoded records, followed by zeros, recovers as exactly the records that are complete in it, and reads past the end if and only if the buffer has one particular length |
| LogRecords.WholeIsMaximal | log/log_recovery.cpp:66-77 | the records counted as complete are the longest prefix whose bytes all lie within the given length |
| LogRecords.OverrunBehindWhole | log/log_recovery.cpp:66-77 | that length is the bytes of the complete records plus what the length fields that arrived of the next record say, or plus 20 if there is none |
| LogReplication.NextInv | log/logc_log_writer.cc:24-180 | every step of the writer, of the wire and of the servers keeps the invariant |
| LogReplication.AckMatchesRequest | log/logc_log_writer.cc:74-84 | in every run, an acknowledged write is the one its request waits for |
| LogReplication.WritesNeverOverlap | log/logc_log_writer.cc:86-147 | at every moment of every run, over all writes ever posted to a server, acknowledged ones included: the write of request j starts where the requests before it end, lies inside the buffer and shares no byte with another |
| LogReplication.ReplicasAgree | log/logc_log_writer.cc:86-147 | in every run, each server holds a prefix of one and the same log followed by zeros, and all of it when nothing is on the wire |
| LogReplication.RecoveryFindsPrefix | log/log_recovery.cpp:66-77 | recovery from any server at any moment of any run returns a prefix of the accepted records, and exactly the landed requests when no write is torn; it reads past the end if and only if the buffer has the length at which the landed bytes overrun |
| LogReplication.CompletedIsRecoverable | log/logc_log_writer.cc:149-180 | once a request is reported complete, every server recovers it together with all earlier ones |
| LogReplication.LogWriter.AddRecord | log/logc_log_writer.cc:86-147 | refuses exactly when some buffer is still being allocated, and then changes nothing; fails its assert exactly when the records do not fit into some buffer; otherwise does one send step for every server |
| LogReplication.LogWriter.AckAllocLogBuf | log/logc_log_writer.cc:47-72 | sends the first records to the new buffer and touches no other server |
| LogReplication.AckWriteSuccess | log/logc_log_writer.cc:74-84 | succeeds exactly for the awaited write id and changes that status only |
| LogReplication.CheckCompletion | log/logc_log_writer.cc:149-180 | complete exactly when every server has acknowledged |
| BlockLog.Writer.AddRecord | db/log_writer.cc:50-97 | appends the fragments of the record, padding included, at any block offset |
| BlockLog.EmitSize | db/log_writer.cc:50-97 | a record takes as few fragments as the blocks allow and adds only their headers and one trailer |
| BlockLog.Reader.ReadPhysicalRecord | db/log_reader.cc:196-281 | on any file: the rest of a block too short for a header, or a fragment cut off by the end of the file, is the end; a length beyond the block is damage with one report; a blank record is damage without one; with checksums on, a whole fragment whose checksum differs is damage with one report; all of these drop the rest of the block, and anything else is the fragment's type and payload |
| BlockLog.Reader.NextRecord | db/log_reader.cc:56-180 | assembles fragments as its specification says; on any file, a record returned consists of intact fragments between the old and the new position |
| BlockLog.Reader.ReadToEnd | db/log_reader.cc:56-180 | terminates on every file and agrees with its specification; the records returned lie in the file in order, all made of intact fragments |
| BlockLog.MaskRoundTrip | util/crc32c.h:31-40 | unmasking a masked checksum gives the checksum back |
| BlockLog.ReadsRecord | db/log_reader.cc:56-180 | wherever a record lies in a file cut at any byte, the reader returns it if it is complete and otherwise meets the end of the file |
| BlockLog.TruncatedLogReadsBack | db/log_reader.cc:56-180 | a log cut at any byte reads back as exactly the records that are complete in it, with no corruption reported |
| BlockLog.LogReadsBack | db/log_writer.cc:50-125 | reading what was written returns exactly the records, empty and many-block ones included |
| BlockLog.OnlyIntactRecords | db/log_reader.cc:196-281 | whatever a file holds, every record read from it is one full fragment, or a first, middle and last ones, that lie in it in order with their own length, type and, if verified, checksum |
| BlockLog.DamageCostsOneBlock | db/log_reader.cc:217-265 | records, a fragment damaged in any way, anything up to the end of its block, perhaps the rest of a record begun there, and more records: all the other records are read back, and the reports are counted exactly |
| BlockLog.DamageEndsRecord | db/log_reader.cc:156-163 | damage inside a record gives up that record with one report, and the reader goes on |
| BlockLog.OrphanIsSkipped | db/log_reader.cc:126-148 | a middle or last fragment without a first one is reported once and skipped |
| BlockLog.UnfinishedIsReported | db/log_reader.cc:91-124 | a new record inside another gives that one up, with a report unless it is empty so far |
| BlockLog.UnknownIsReported | db/log_reader.cc:165-176 | a fragment of an unknown type is reported once and gives up the record |
| BlockLog.LogAppend | db/log_writer.cc:27-30 | a writer that reopens a log continues it as if it had written all of it |
| RangeIndex.NextInv | db/range_index.cpp:199-322 | every step of versions, scans, flushes and point reads keeps the invariant |
| RangeIndex.RefsAreExact | db/range_index.cpp:276-322 | in every run, a memtable's reference count is 1 if unflushed, plus the (listed version, range) pairs naming it, plus pending unrefs, plus readers; it is freed exactly at 0 |
| RangeIndex.ScansSeeLiveMemtables | db/range_index.cpp:199-220 | in every run, a version that a scan holds is listed and every memtable it names exists |
| RangeIndex.UnrefsNeverFail | db/memtable.cc:373-385 | in every run, the memtable of an outstanding unref exists and has at least that many references |
| RangeIndex.CurrentIsNeverDeleted | db/range_index.cpp:258-274 | in every run, the current version is listed and not deleted, so taking a reference on it never fails |
| RangeIndexManager.BinarySearch | include/leveldb/subrange.h:74-92 | finds a range that contains the key, or there is none |
| RangeIndexManager.AddNewMemtable | db/range_index.cpp:333-362 | a new memtable is added to exactly the ranges that overlap its subrange, or to all ranges if it has none; the assert fails exactly when no range contains the lower end of the subrange |
| RangeIndexManager.ReplaceMemtables | db/range_index.cpp:324-392 | the loop over the edit, in any order, replaces each listed memtable by its file |
| RangeIndexManager.ReplaceL0 | db/range_index.cpp:324-392 | with new replacement numbers, exactly the replaced files go and exactly their replacements come |
| RangeIndexManager.EditLeavesSuccessors | db/range_index.cpp:324-392 | every table a range listed is still listed, removed on purpose or represented by a successor; nothing else appears |
| RangeIndexManager.NextNamesOld | db/range_index.cpp:324-392 | a new version names no memtable that the current one does not name, except for the new one |
| RangeIndexManager.UnlistingKeepsNames | db/range_index.cpp:276-302 | unlisting versions hands over exactly the references they held |
| RangeIndexManager.UnlistingIsRun | db/range_index.cpp:276-302 | from any state, what the loop leaves listed and unreferenced is reached by steps of the counting protocol, one for each deleted version |
| RangeIndexManager.RefTables | db/range_index.cpp:304-322 | takes one reference per range that names a memtable; the assert fails exactly when a named memtable is unknown |
| RangeIndexManager.Manager.TryRef | db/range_index.cpp:199-210 | takes a reference on a version unless it is deleted |
| RangeIndexManager.Manager.TryCurrent | db/range_index.cpp:258-274 | one turn of the retry loop: it leaves with a reference exactly when the current version is not deleted and its LSM version can be referenced, and otherwise changes nothing |
| RangeIndexManager.Manager.UnRef | db/range_index.cpp:212-220 | gives back one reference and marks the version deleted at 0 |
| RangeIndexManager.Manager.AppendNewVersion | db/range_index.cpp:304-392 | in the new version a range lists a memtable if and only if it did, or the memtable is new and its subrange overlaps the range, and the edit, where it applies, neither removes nor replaces it; it lists a level-0 file if and only if the file is, or replaces, one it listed or one that replaces a listed memtable; the version is listed, the old one loses a reference and every memtable named gains one per range; with an unflushed new memtable this is a step of the counting protocol |
| RangeIndexManager.Manager.DeleteObsoleteVersions | db/range_index.cpp:276-302 | a version stays if and only if it is not deleted, and the unrefs of all others are counted per memtable |
| Subranges.BinarySearch | db/subrange.cpp:379-411 | in a tiling, finds the key exactly when it is covered, in a subrange that contains it |
| Subranges.SearchWithDuplicates | db/subrange.cpp:413-453 | finds the key exactly when it is covered; of duplicates it takes the one that the random number draws |
| Subranges.SplitSub | db/subrange_manager.cpp:116-165 | exactly one subrange is replaced by two, cut at the key with half of the inserts each if it has one tiny range and behind the first half of them otherwise; keeps the tiling and all inserts and returns the half that contains the key |
| SubrangeBoundary.AssertSubrangeBoundary | db/subrange.cpp:315-377 | the two loops, with bounds truncated to `int`, pass exactly when their specification holds |
| SubrangeBoundary.TilingHoldsIff | db/subrange.cpp:343-376 | a tiling passes the asserts if and only if the bounds of all its ranges but the last survive the truncation |
| SubrangeBoundary.SmallTilingHolds | db/subrange.cpp:315-377 | every tiling of keys below 2^31 passes |
| SubrangeBoundary.LargeTilingFails | db/subrange.cpp:343-376 | two adjacent subranges at 2^31 tile their keys and fail |
| SubrangeSearch.ExtendFirst | db/subrange_manager.cpp:167-203 | extends the first subrange, or every member of its group, down to the key |
| SubrangeSearch.ExtendLast | db/subrange_manager.cpp:167-203 | extends the last subrange, or every member of its group, up to the key |
| SubrangeSearch.Expand | db/subrange_manager.cpp:102-265 | the new set is the old one with the covered subrange split, unchanged at its lower bound, with one new subrange or a widened lone point for an uncovered key, or extended at an end when full; it tiles the old keys and the new one, without losing inserts, unless a full set ends in a duplicate at that side; then it tiles nothing and fails the asserts |
| SubrangeSearch.SubRangeManager.SearchSubranges | db/subrange_manager.cpp:83-279 | nothing changes for a covered key when the set is full or reorganisation is off; otherwise the new set is the one of Expand; it tiles the keys if and only if no full set is extended at a duplicate; the result says whether the asserts hold; if so the subrange returned contains the key, the tiling grows exactly to the key and loses no inserts, else nothing changes |
| SubrangeSearch.DuplicatesAtTheEndFail | db/subrange_manager.cpp:167-203 | two partitions holding two duplicates of key 7: searching key 9 widens both and fails the asserts |
| SubrangeReorg.MoveShare | db/subrange_manager.cpp:444-480 | each duplicate of the key gets an even share of the one that goes |
| SubrangeReorg.DestroyDuplicate | db/subrange_manager.cpp:592-602 | keeps the tiling and all inserts; the group has one member fewer and is no group when one is left; other groups stay |
| SubrangeReorg.DestroyDuplicates | db/subrange_manager.cpp:591-618 | destroys exactly a duplicate that is forced out or below half a fair share, that one and no other, and otherwise changes nothing; keeps tiling, inserts and their signs |
| SubrangeReorg.PushTinyRanges | db/subrange_manager.cpp:769-874 | ends with the tiny ranges that the ratios decide on each side, stopping before less than a fair share is left; keeps the tiling, all inserts and all duplicate groups; without the fair-share stop the subrange disappears |
| SubrangeReorg.PushBalances | db/subrange_manager.cpp:801-865 | the drawn first choice apart, a push leaves neither neighbour more than one tiny range above the other |
| SubrangeReorg.PushLeavesFair | db/subrange_manager.cpp:830-845 | a push that stops in time moves at most one tiny range or leaves at least a fair share |
| SubrangeReorg.FindLeast | db/subrange_manager.cpp:709-726 | finds the first of the lowest ratios below 1 outside the duplicates of the key, if there is one |
| SubrangeReorg.ChooseNeighbour | db/subrange_manager.cpp:732-746 | the neighbour with the lower ratio, the right one of two equal ones |
| SubrangeReorg.TrimOnce | db/subrange_manager.cpp:709-758 | one pass fails its assert exactly when all subranges are duplicates of the key; otherwise the least subrange goes: destroyed if it is a duplicate, or its lower neighbour destroyed if that is one, or pushed to its neighbours; exactly one subrange is removed, and tiling and inserts are kept |
| SubrangeReorg.CreateDuplicates | db/subrange_manager.cpp:620-767 | fails the assert of its trimming if and only if the duplicates do not fit and were all the subranges; otherwise the point gets its duplicates and passes of the trimming loop leave exactly the number of partitions; keeps tiling and inserts |
| SubrangeReorg.DuplicatesShareFairly | db/subrange_manager.cpp:625-633 | a point gets duplicates if and only if it has twice a fair share, although it is looked at from one and a half on; then each has at least a fair share and less than one and a half |
| SubrangeReorg.CandidateIff | db/subrange_manager.cpp:709-726 | while trimming, a candidate exists if and only if some subrange is not a duplicate of the key |
| SubrangeReorg.HotKeyEverywhere | db/subrange_manager.cpp:709-726 | two partitions, both for key 7, one with all ten inserts: one more duplicate is due and the assert fails |
| SubrangeReorg.RunConserves | db/subrange_manager.cpp:591-874 | over every sequence of pushes, destroyed and inserted duplicates: the keys covered, the groups of duplicates and the inserts are conserved, and no count becomes negative |
| TinyRanges.ConstructRanges | db/subrange_manager.cpp:482-589 | the loop, share recomputation and recorded rates included, agrees with its specification and divides by no zero |
| TinyRanges.TinyRangesTileIff | db/subrange_manager.cpp:482-589 | whatever the rates and the 32-bit number of ranges, non-empty ranges tile exactly [lower, upper) and are at most as many as requested, if and only if upper is below 2^32, or is 2^32 and lower is at most 1 |
| TinyRangeShares.RangesGetTheirShare | db/subrange_manager.cpp:482-589 | each range but the last takes keys while they fit its share of the rate that is left, ends before the first key that does not, and has the rate of its keys recorded; hot keys at the beginning get ranges of their own with nothing recorded |
| TinyRanges.GatheredLoses | db/subrange_manager.cpp:535-578 | whatever the positive rates, the rates recorded for the ranges add up to less than the total |
| TinyRanges.CheckFairness | db/subrange_manager.cpp:877-892 | more than 30 percent of the tiny ranges lie outside 80 to 120 percent of an even share |
| TinyRanges.MinorSampling | db/subrange_manager.cpp:877-975 | cuts the subrange anew exactly when enough tiny ranges are unfair and enough keys were seen; each new range gets its share of the old inserts by the rate recorded for it; keeps the tiling; the inserts of the subrange survive if and only if it is not sampled or has none |
| Partition.NextInv | db/db_impl.cc:2537-2717 | every step of writers and flush installs keeps the invariant |
| Partition.SlotAssertsHold | db/db_impl.cc:2601-2611 | in every run, an active memtable has a free and empty slot waiting for it |
| Partition.WritesGoToTheActiveMemtable | db/db_impl.cc:2672-2683 | in every run, a memtable with a reserved write not yet added is the active one and is not immutable |
| Partition.MemtablesFillUp | db/db_impl.cc:2587-2675 | in every run, the size of a memtable is the sum of the bytes written to it, it was not full before its last write, and an immutable one is full |
| Partition.ReleaseAssertsHold | db/db_impl.cc:1487-1514 | in every run, the asserts of a flush install hold for every scheduled task and the slot still holds its memtable |
| Partition.ScheduledExactlyOnce | db/db_impl.cc:2697-2715 | in every run, an occupied slot is scheduled for flushing exactly once, also by a writer that gave up the mutex in between; only with ordered flushes may a slot have been refused instead (db/db_impl.cc:1389-1391) |
| Partition.MemTablePartition.TryWrite | db/db_impl.cc:2557-2675 | an active memtable with room takes the write and its bytes; a full one with reserved writes blocks; a full one without is made immutable in the first free slot, and a new one takes the write if a slot is left; without an active memtable one is created or the writer blocks; nothing else changes |
| Partition.MemTablePartition.FinishIn | db/db_impl.cc:2682-2683 | ends one reservation of the memtable, as the finishing step of a writer says, and changes nothing else |
| Partition.MemTablePartition.ReleaseSlots | db/db_impl.cc:1487-1514 | the flushed slots are emptied and queued behind the free ones in order |
| SkipList.SkipList.FindGreaterOrEqual | db/skiplist.h:300-321 | the predecessor on every level is the last entry before the key; the node returned is the first one not before it |
| SkipList.SkipList.FindLessThan | db/skiplist.h:323-342 | the last entry before the key, or the head |
| SkipList.SkipList.Insert | db/skiplist.h:378-411 | keeps every level strictly sorted, exactly the nodes that are tall enough and counted exactly, and puts the entry, with the height drawn for it, into the contents at its place |
| SkipList.SkipList.Has | db/skiplist.h:413-421 | true exactly when an entry with the key is in the list |
| SkipList.SkipList.SampleLevel | db/skiplist.h:206-228 | the level a sampling iterator walks is the highest one with more entries than the sample |
| SkipListReaders.NextInv | db/skiplist.h:378-411 | every load and store of an insert and of the searches that run meanwhile keeps the invariant and loses no node |
| SkipListReaders.AlwaysSearchable | db/skiplist.h:378-411 | in every run, after every store of an insert, the raised height included, the pointers of every level link an ascending list that is a part of the level below |
| SkipListReaders.SearchFindsSplit | db/skiplist.h:300-342 | in every run, a search that finishes has the last node before its key and the first one not before it, in the list as it is at that moment |
| SkipListReaders.NothingIsMissed | db/skiplist.h:300-321 | in every run, a search finds the entry with its key if that was in the list when the search began |
| SkipListReaders.NeverStuck | db/skiplist.h:300-411 | in every run, an unfinished search or insert can go on: no pointer leads out of the arena |
| SkipList.SeekFinds | db/memtable.cc:214-249 | seeking the lookup key of a snapshot lands on the entry with the greatest visible sequence number of the user key, or there is none |
| SkipList.MemTable.Add | db/memtable.cc:189-212 | adds exactly the entry |
| SkipList.MemTable.Get | db/memtable.cc:214-249 | found, deleted or missing, as the plain collection of added entries says for the snapshot |
| SlabAllocator.LastClassIsSlab | common/nova_mem_manager.cpp:61-83 | the last size class holds a whole slab, so the class search ends |
| SlabAllocator.ItemsFitIff | common/nova_mem_manager.cpp:18-23 | Init keeps the size of every class and yields all items that fit if and only if slabs are below 4 GiB |
| SlabAllocator.WholeSlabCapacity | common/nova_mem_manager.cpp:18-34 | from 4 GiB on, the class of whole slabs gets one item out of a slab if the slab size is a multiple of its remainder modulo 2^32, and else none |
| SlabAllocator.NextInv | common/nova_mem_manager.cpp:110-161 | every allocation and every return of an item keeps each carved item either in use or on one free list |
| SlabAllocator.AlwaysApartIff | common/nova_mem_manager.cpp:18-59 | over every run of allocations and returns, items in use are disjoint, with all bytes of their class and inside the partition, if and only if no class of 2^32 bytes or more gets two items out of a slab; in terms of the slab size alone, three inequalities |
| SlabAllocator.LargeSlabItemsOverlap | common/nova_mem_manager.cpp:18-34 | with slabs of 5632 MiB, the first two allocations of class 22, items of 4800 MiB, succeed and are 704 MiB apart |
| SlabAllocator.NeverCrashesIff | common/nova_mem_manager.cpp:18-23 | over every run, Init divides by no zero if and only if the slab size is no multiple of 4 GiB and below 300 GiB |
| SlabAllocator.LiveItemsApart | common/nova_mem_manager.cpp:14-59 | with slabs of a safe size, any two live items occupy disjoint byte ranges inside the partition |
| SlabAllocator.AllocOrder | common/nova_mem_manager.cpp:110-154 | freed items are handed out first, oldest first; then the last slab of the class is carved; then a new slab is taken; there is no memory only when all of these fail |
| SlabAllocator.PartitionedMemManager.constructor | common/nova_mem_manager.cpp:61-96 | sets up the whole slabs of the buffer with nothing allocated |
| SlabAllocator.PartitionedMemManager.SlabClassId | common/nova_mem_manager.cpp:98-108 | the smallest class that is large enough |
| SlabAllocator.PartitionedMemManager.ItemAlloc | common/nova_mem_manager.cpp:110-154 | does the allocation of the specification: an item that was not live, or none because no item was freed and no slab is left or slabs hold none of the class, or the division by zero |
| SlabAllocator.PartitionedMemManager.FreeItem | common/nova_mem_manager.cpp:156-161 | queues exactly that item for reuse |
| ChainedHashTable.OneEntryPerHash | common/nova_chained_hashtable.h:225-348 | two entries with the same hash are the same entry: the table is a map |
| ChainedHashTable.Walk | common/nova_chained_hashtable.h:105-148 | walking a chain ends because chains are disjoint and acyclic; it finds the hash if it is there, else an empty slot if there is one, and the entry with the least time |
| ChainedHashTable.HashTable.Find | common/nova_chained_hashtable.h:93-151 | map lookup; with a time update only the entry's time changes |
| ChainedHashTable.HashTable.Delete | common/nova_chained_hashtable.h:153-199 | map remove |
| ChainedHashTable.HashTable.AddBucket | common/nova_chained_hashtable.h:296-321 | hands out an unused indirect bucket to one chain and changes no contents |
| ChainedHashTable.HashTable.Put | common/nova_chained_hashtable.h:225-348 | map update, except that with no room left an evicting Put loses exactly one entry, of least time in the chain, and a non-evicting one changes nothing and fails; a new bucket, an eviction or a failure needs a chain without an empty slot and the last two a table without an unused bucket |

## Left out

- Installs.CarefulPushKeepsReads: one direction only; the exact condition is PushKeepsReadsIff.
- Installs.CarefulMergeKeepsReads: one direction only; the exact condition is MergeKeepsReadsIff.
- ReadPath.NextInv: one Put per key runs at a time, and deletions are not modelled.
- ReadPath.ReadsAreFresh: keys are distinct modulo the index size, and merges and pushes are safe when they begin; without the latter it is false (StaleRuns.StalePushRun).
- Installs.LowerKeepsReads: a level is a map, so how its files are picked is not modelled.
- LogReplication.WritesNeverOverlap: one log file with one writer and a fixed set of servers; buffers start zeroed, the first request fits and no buffer is at address 0. The server code does not visibly zero the buffers (`novalsm/rdma_server.cpp`), so recovery depends on it.
- BlockLog.Reader.ReadToEnd: the reader starts at offset 0; skipping to an initial offset and resynchronising are not modelled, and CRC is any step function on bytes.
- BlockLog.Reader.ReadPhysicalRecord: no fragment lies before the initial offset, and reading the file never fails.
- BlockLog.Reader.NextRecord: no resynchronisation, since reading starts at offset 0.
- RangeIndex.CurrentIsNeverDeleted: the references on the LSM version of an index are not modelled; when one cannot be taken current() tries again (RangeIndexManager.Manager.TryCurrent).
- RangeIndex.NextInv: appending a version is one step, while the code takes the memtable references one mutex at a time under the mutex of the manager.
- RangeIndexManager.Manager.constructor: requires that the memtables of the first version are known, since an unknown one is a fatal assert.
- SubrangeReorg.CreateDuplicates: ratios are exact reals.
- SubrangeBoundary.AssertSubrangeBoundary: a tiny range has no number of duplicates and no inclusive flags of its own, so the asserts on these are not modelled.
- SubrangeSearch.SubRangeManager.SearchSubranges: runs alone; the range lock and readers of an older set are not modelled.
- TinyRanges.ConstructRanges: hot keys while constructing subranges are not modelled, because the exact count asserted there does not hold for arbitrary rates.
- TinyRanges.MinorSampling: the rates read from the memtables are a parameter, and ratios are exact reals.
- Partition.MemTablePartition.TryWrite: memtable merging, `FlushMemTables` and `ReorganizeSubranges`, which rotate the active memtable without checking pending writes, are not steps of `Partition`.
- Partition.ScheduledExactlyOnce: with ordered flushes any task may be refused; which ones `IsSafeToFlush` refuses is not modelled.
- ChainedHashTable.HashTable.Put: entries are matched by hash alone and buckets have at least two slots; data entries, reference counts and checksums are not modelled.
- SlabAllocator.PartitionedMemManager.constructor: slabs are at least 1 MiB and below 2^63 bytes, so that doubling a class size does not wrap in 64 bits.
- SlabAllocator.PartitionedMemManager.FreeItem: requires that the item is in use; the code does not check it.
- SkipList.SkipList.Insert: runs alone; searches during an insert are in SkipListReaders. `FindLast` is not modelled.
- SkipListReaders.NextInv: loads and stores take effect at once and in order, except that a search may start from an older height.
- Flush ordering by generations (`db/flush_order.cpp`), version edit encoding (`db/version_edit.cc`) and database iterators (`db/db_iter.cc`).
- Picking compactions, memtable pools and stealing, migration between servers, replica repair and statistics.
- RDMA, sockets, files, clocks and configuration: times, random draws and file sizes are parameters.
