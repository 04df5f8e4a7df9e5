# Verified models of LevelDB and nanopb

The application in this repository carries two libraries under `WeatherApp/Pods`. LevelDB is a log-structured merge
store: writes go through a queue into a log and a memtable, memtables become sorted table files, levels of files are
compacted into each other, and readers at a snapshot must not notice. nanopb encodes and decodes protocol buffer
messages from descriptors, with a counting pass that has to agree with the writing pass. This project models both in
Dafny and proves what they are for.

How the LevelDB model is stacked:

- `DbFormat` says what a read means: of a set of entries, the newest one of a user key at or below a snapshot.
  `Versions`, `Inputs`, `SetupInputs`, `CompactionWork`, `CompactionLoop`, `Builder` and `VersionSteps` are the read
  path, the choice of files, the drop rules, the manifest's edits and what each edit keeps; `OutputCuts` is where a
  compaction ends its output files. `Store` and `StoreRuns` make a step system of them (write, rotate, flush, move,
  compact, take and release a snapshot) and prove what holds over every run; `Readers` says it in terms of the
  operations written and the snapshots taken and released, without the store's own state. `DbImpl` is the class whose
  methods take exactly those steps. `Manifest` is recovery over a run, `Guard` and `Resurrection` are about the one
  compaction rule that does not always hold.
- `WriterQueue` is the group commit as interleaved steps of many callers; `SkipList` interleaves one insertion with a
  search, one pointer at a time.
- `DbIter`, `Merger` and `TwoLevel` are the iterators, with their direction switches.
- `Coding`, `LogRecords`, `LogFormat`, `Log`, `BlockFormat`, `Block`, `Comparator`, `TableFormat`, `TableIndex`,
  `TableSize`, `Table`, `TableLookup`, `TableBuild`, `Bloom`, `FilterBlock`, `EditCodec`, `WriteBatch`, `MemTable`,
  `Strides`, `Crc32c` and `Schemes` are the byte level. `CrcErrors` says which stored checksums pass, `LogDamage` what
  the log reader makes of bytes that nobody wrote, `Recovery` what a crash leaves of the writes, and `FormatExamples`
  spells the formats out on small values. `Ranks` carries keys as bytes over to the ordered user keys of the upper
  half. `HandleTable`, `CacheState` and `Cache` are one shard of the cache.

How the nanopb model is stacked: `Proto` has descriptors and values, `ProtoWire` the encoding and decoding of whole
messages as functions, `ProtoScalars` and `ProtoRoundTrip` what decoding makes of what was encoded, `ProtoMerge` what
it makes of a message that arrives in pieces or on top of another one, `WireMeaning` which numbers go over the wire and
`WireBytes` what is taken from bytes that nobody wrote. `PbCommon`, `PbEncode`, `PbStream`, `SeenBits` and `PbDecode`
are the iterator, the streams and the encoder and decoder as imperative code proved equal to those functions, and
`PbMessages` puts the two ends together.

`dafny verify dfyconfig.toml`, with Dafny 4.11, checks the whole project. Proofs are written out: every lemma turns
automatic induction off.

## Findings

Three properties that the code's documentation suggests do not hold in general. In each case the model follows the
code, a lemma gives an input, and another gives the exact condition.

- Compaction can bring a deleted key back. A deletion marker is dropped when no deeper level than the output level has
  its user key (`db/db_impl.cc:949-963`), but the output level itself may hold an older entry of that user key in a
  file that is not an input, because `AddBoundaryInputs` is only applied to the input level
  (`db/version_set.cc:1403-1462`). `Resurrection.DeletedKeyComesBack` is a whole run from the empty store after which a
  deleted key reads as its old value. `StoreRuns.CompactReads` is the exact condition for one compaction,
  `StoreRuns.EveryRunReadsItsHistory` for a run, and `Guard.ClosedParentsGuard` a sufficient one about files: no file
  of the output level that is left out continues a user key of one that takes part.
- Decoding a version edit does not reset all of it. `VersionEdit::Clear` keeps the compaction pointers
  (`db/version_edit.cc:26-39`), so an edit that is decoded into twice accumulates them. `EditCodec.DecodeEncoded` says
  what comes out, `EditCodec.DecodeInvertsIff` that it is the edit that went in exactly if there were none before.
- A text that fills its array can be sent but not read. `pb_enc_string` accepts a text without a terminator in its
  array, and `pb_dec_string` wants room for one. `ProtoRoundTrip.FullTextIsLost` is a message,
  `ProtoRoundTrip.RoundTripIff` the exact condition.

## Model

| member | source | states |
|---|---|---|
| `Versions.FindFile` | WeatherApp/Pods/leveldb-library/db/version_set.cc:88-106 | binary search: all files before the result end before the key, all from it on do not |
| `Versions.Get` | WeatherApp/Pods/leveldb-library/db/version_set.cc:326-421 | searching level 0 newest first and one file per deeper level, stopping at the first answer, gives the newest entry of the user key at or below the snapshot among the entries of all files |
| `Versions.SearchLevel` | WeatherApp/Pods/leveldb-library/db/version_set.cc:345-415 | one level: an answer found here is the newest of the whole version, no answer means the level holds nothing the snapshot sees |
| `Versions.TableGetNewest` | WeatherApp/Pods/leveldb-library/db/version_set.cc:263-276 | the entry at the lookup key's seek position, if its user key matches, is the newest visible one of the file |
| `Inputs.SomeFileOverlapsRange` | WeatherApp/Pods/leveldb-library/db/version_set.cc:122-157 | true exactly if some file overlaps the range, by scan or by binary search |
| `Inputs.GetOverlappingInputs` | WeatherApp/Pods/leveldb-library/db/version_set.cc:519-559 | exactly the overlapping files, in order; in level 0 for the least range closed under the files it touches, however often the scan restarts |
| `Inputs.PickLevelForMemTableOutput` | WeatherApp/Pods/leveldb-library/db/version_set.cc:491-516 | level 0 if a file there overlaps; otherwise the deepest level, at most two, to which the table may go down step by step, each time past no overlapping file and over no more than the limit of the level beyond |
| `Inputs.FindLargestKey` | WeatherApp/Pods/leveldb-library/db/version_set.cc:1326-1340 | the largest key of the files |
| `Inputs.FindSmallestBoundaryFile` | WeatherApp/Pods/leveldb-library/db/version_set.cc:1344-1362 | the boundary file with the smallest key, none exactly if there is no boundary file |
| `Inputs.AddBoundaryInputs` | WeatherApp/Pods/leveldb-library/db/version_set.cc:1378-1401 | the files added are exactly the chain in which each is the smallest boundary file of those before it, until there is none; it terminates, adds no file twice and keeps a contiguous run contiguous |
| `SetupInputs.PickFrom` | WeatherApp/Pods/leveldb-library/db/version_set.cc:1270-1322 | a choice with the given file in it, in level 0 with every file it touches directly or through others, that closing with boundary files makes safe |
| `SetupInputs.CompactRange` | WeatherApp/Pods/leveldb-library/db/version_set.cc:1464-1495 | empty exactly if no file of the level overlaps; otherwise in level 0 the overlapping files of the least closed range, deeper the shortest front of the overlapping files that reaches the size limit, and safe to compact |
| `SetupInputs.RangeIsTaken` | WeatherApp/Pods/leveldb-library/db/version_set.cc:1464-1495 | in level 0 no file that the range touches is left out; deeper, the choice is a non-empty front of them |
| `SetupInputs.SetupOtherInputs` | WeatherApp/Pods/leveldb-library/db/version_set.cc:1403-1462 | from the picked files to the inputs: closed with boundary files, exactly the overlapping parents, grown exactly when that is allowed; a valid choice, with the grandparents exactly those that overlap it and the largest key as the compaction pointer |
| `SetupInputs.TryExpand` | WeatherApp/Pods/leveldb-library/db/version_set.cc:1413-1447 | the level's inputs grow exactly if there are parents, more files fit between them, the sizes stay below the limit and the parents stay the same; the result is a valid choice |
| `CompactionWork.HiddenByPrevious` | WeatherApp/Pods/leveldb-library/db/db_impl.cc:946-948 | comparing with the previous entry of the same user key is enough for rule (A) |
| `CompactionWork.HiddenIffNotNewest` | WeatherApp/Pods/leveldb-library/db/db_impl.cc:946-948 | rule (A) drops exactly the entries at or below the smallest snapshot that are not the newest there |
| `CompactionWork.NewestAfter` | WeatherApp/Pods/leveldb-library/db/db_impl.cc:929-963 | how each reader's newest entry changes: only a dropped marker disappears |
| `CompactionWork.CompactionExact` | WeatherApp/Pods/leveldb-library/db/db_impl.cc:929-963 | for all inputs, outside entries and snapshots from the smallest on: all reads are unchanged if and only if no dropped marker was hiding an older entry outside the inputs |
| `CompactionWork.ExposedIsSeen` | WeatherApp/Pods/leveldb-library/db/db_impl.cc:949-963 | where the condition fails, the read at the smallest snapshot changes |
| `CompactionLoop.Compaction.IsBaseLevelForKey` | WeatherApp/Pods/leveldb-library/db/version_set.cc:1533-1552 | asked for ascending user keys, the cursors that only move forward answer as a fresh search of all deeper levels would |
| `CompactionLoop.Compaction.ShouldStopBefore` | WeatherApp/Pods/leveldb-library/db/version_set.cc:1554-1576 | asked for ascending keys, says to stop exactly if the files of the level beyond that end between the last stop, or the first key asked for, and this key are larger than the limit in all |
| `OutputCuts.FewPassed` | WeatherApp/Pods/leveldb-library/db/version_set.cc:1554-1576 | what the stops are for: between the first and the last entry of an output file, no more of the level beyond ends than the limit allows |
| `CompactionLoop.ShouldDrop` | WeatherApp/Pods/leveldb-library/db/db_impl.cc:929-963 | the loop's decision from its running state is the drop rule on the whole sorted input |
| `CompactionLoop.DoCompactionWork` | WeatherApp/Pods/leveldb-library/db/db_impl.cc:878-1036 | outputs are sorted, disjoint, correctly bounded and numbered, hold exactly the surviving entries in order, and end exactly where the file size or the level beyond the parents says |
| `CompactionLoop.OutputsSorted` | WeatherApp/Pods/leveldb-library/db/db_impl.cc:811-858 | files whose concatenated entries are sorted form a sorted level |
| `Builder.VersionBuilder.Apply` | WeatherApp/Pods/leveldb-library/db/version_set.cc:650-693 | each level's pending state after an edit, deletions before additions |
| `Builder.VersionBuilder.SaveTo` | WeatherApp/Pods/leveldb-library/db/version_set.cc:695-754 | merging base and added files by binary search and dropping deleted ones gives the specified version |
| `Builder.ManifestReplay` | WeatherApp/Pods/leveldb-library/db/version_set.cc:886-1011 | for edits with fresh file numbers, one builder over all edits gives the version that applying them one by one gave |
| `Builder.InstallMember` | WeatherApp/Pods/leveldb-library/db/version_set.cc:801-884 | which files a level holds after an edit |
| `Manifest.ManifestOfRun` | WeatherApp/Pods/leveldb-library/db/version_set.cc:886-1011 | for every run of the store, replaying its edits into one builder over the empty version gives the current version, with sorted, disjoint levels, correct file bounds and no file number twice |
| `Manifest.Recover` | WeatherApp/Pods/leveldb-library/db/version_set.cc:922-969 | the recovery loop is that replay |
| `VersionSteps.FlushKeepsOrder` | WeatherApp/Pods/leveldb-library/db/db_impl.cc:491-533 | installing a flushed table keeps every level ordered and newer data above older data |
| `VersionSteps.MoveKeepsOrder` | WeatherApp/Pods/leveldb-library/db/db_impl.cc:718-733 | so does moving a file down |
| `VersionSteps.CompactionKeepsOrder` | WeatherApp/Pods/leveldb-library/db/db_impl.cc:860-876 | so does replacing the inputs by the outputs one level down |
| `Store.FlushEntries` | WeatherApp/Pods/leveldb-library/db/db_impl.cc:535-566 | a flush adds exactly the memtable's entries to the version |
| `Store.MoveEntries` | WeatherApp/Pods/leveldb-library/db/db_impl.cc:718-733 | a move leaves the stored entries as they were |
| `Store.CompactionEntries` | WeatherApp/Pods/leveldb-library/db/db_impl.cc:860-876 | a compaction replaces the inputs' entries by the outputs' and touches no other |
| `StoreRuns.RunOk` | WeatherApp/Pods/leveldb-library/db/db_impl.cc:878-1036 | the store's invariant (levels, bounds, numbers, unique sequence numbers, layers in order of age) holds after every run |
| `StoreRuns.CompactReads` | WeatherApp/Pods/leveldb-library/db/db_impl.cc:878-1036 | in any state, a compaction changes no answer at the smallest snapshot or later if and only if it is guarded |
| `StoreRuns.StepFaithful` | WeatherApp/Pods/leveldb-library/db/db_impl.cc:1185-1256 | every other step, and a guarded compaction, keeps the answers equal to what the history of writes says |
| `StoreRuns.EveryRunReadsItsHistory` | WeatherApp/Pods/leveldb-library/db/db_impl.cc:878-1036 | for every run of enabled steps: at every moment and every readable snapshot each key reads as the full history of writes says, if and only if every compaction of the run was guarded |
| `StoreRuns.SnapshotsAreStable` | WeatherApp/Pods/leveldb-library/db/db_impl.cc:1166-1174 | a snapshot keeps its answers for as long as it is held, through all later guarded steps |
| `Readers.HistoryIsNumbered` | WeatherApp/Pods/leveldb-library/db/db_impl.cc:1185-1256 | in every run, the history is the list of all operations written, numbered from one without gaps, and the last number is their count |
| `Readers.ReadsAreLastWrites` | WeatherApp/Pods/leveldb-library/db/db_impl.cc:1100-1145 | in every run with guarded compactions, a read at any readable number gives what the last operation on the key among that many first ones wrote |
| `Readers.StepHolds` | WeatherApp/Pods/leveldb-library/db/snapshot.h:57-86 | as multisets: a take adds the last sequence number to what is held, a release gives up the one it names, and no other step changes it |
| `Readers.HeldSnapshot` | WeatherApp/Pods/leveldb-library/db/snapshot.h:57-86 | a snapshot that a step of the run took and no later step released is in the list, where following the steps says it is |
| `Readers.HeldSnapshotIsStable` | WeatherApp/Pods/leveldb-library/db/db_impl.cc:1166-1174 | from the step that takes it until its own release, and through all guarded steps between, a snapshot answers every read in the same way: with the last operation on the key by then |
| `StoreRuns.FlushIsOk` | WeatherApp/Pods/leveldb-library/db/db_impl.cc:491-533 | the frozen memtable is newer than every file, so a flush may be installed |
| `Guard.ExposedBetweenParents` | WeatherApp/Pods/leveldb-library/db/version_set.cc:1403-1462 | if a compaction exposes an old entry, a parent left out continues that user key after a parent that takes part |
| `Guard.ClosedParentsGuard` | WeatherApp/Pods/leveldb-library/db/version_set.cc:1403-1462 | without such parents every compaction is guarded and invisible to readers |
| `Resurrection.DeletedKeyComesBack` | WeatherApp/Pods/leveldb-library/db/db_impl.cc:949-963 | a run from the empty store and one more compaction that the code performs, after which a deleted key reads as its old value |
| `DbImpl.DBImpl.Get` | WeatherApp/Pods/leveldb-library/db/db_impl.cc:1100-1145 | memtable, frozen memtable, version: the value is the newest visible one over all three |
| `DbImpl.LayeredRead` | WeatherApp/Pods/leveldb-library/db/db_impl.cc:1119-1137 | the first layer that answers holds the newest entry of all |
| `DbImpl.DBImpl.Write` | WeatherApp/Pods/leveldb-library/db/db_impl.cc:1185-1256 | the new state is the write step: consecutive sequence numbers, then publication |
| `DbImpl.DBImpl.Rotate` | WeatherApp/Pods/leveldb-library/db/db_impl.cc:1345-1366 | the memtable switch is the rotate step |
| `DbImpl.DBImpl.CompactMemTable` | WeatherApp/Pods/leveldb-library/db/db_impl.cc:535-566 | an enabled flush step, at exactly the level that the version picks for the table's range |
| `DbImpl.DBImpl.BackgroundCompaction` | WeatherApp/Pods/leveldb-library/db/db_impl.cc:688-766 | a frozen memtable is flushed first; otherwise nothing happens exactly if nothing was asked for or the request is manual and no file of its level overlaps its range; otherwise the step is at the level of the request and takes the inputs that the request leads to, moving a file exactly if the move is trivial |
| `DbImpl.CompactFiles` | WeatherApp/Pods/leveldb-library/db/db_impl.cc:878-1036 | merging the chosen files and dropping entries gives exactly what a compaction step installs |
| `DbImpl.DBImpl.LogAndApply` | WeatherApp/Pods/leveldb-library/db/version_set.cc:801-884 | the version after an edit is the edit installed |
| `DbImpl.DBImpl.TakeSnapshot` | WeatherApp/Pods/leveldb-library/db/db_impl.cc:1166-1169 | the snapshot is the last published sequence number, added behind those held |
| `DbImpl.DBImpl.ReleaseSnapshot` | WeatherApp/Pods/leveldb-library/db/db_impl.cc:1171-1174 | exactly the one released leaves the snapshots held, however many of them are equal |
| `WriterQueue.BuildBatchGroup` | WeatherApp/Pods/leveldb-library/db/db_impl.cc:1260-1306 | the group is the longest front of the queue that the size limit and the sync rule allow, and the batch its operations in order |
| `WriterQueue.ReadersSeeWholeGroups` | WeatherApp/Pods/leveldb-library/db/db_impl.cc:1185-1256 | in every interleaving, a reader at the published sequence number sees all of the answered groups and nothing of the one in flight |
| `WriterQueue.AnsweredInOrder` | WeatherApp/Pods/leveldb-library/db/db_impl.cc:1185-1256 | calls are answered in the order they arrived |
| `WriterQueue.EveryOperationOnce` | WeatherApp/Pods/leveldb-library/db/db_impl.cc:1185-1256 | while nothing fails, the memtable holds each answered operation once, in queue order, numbered without gaps up to the published number |
| `WriterQueue.AnsweredOkIsLogged` | WeatherApp/Pods/leveldb-library/db/db_impl.cc:1205-1247 | a group answered OK has one log record with all its operations under its numbers, synced if one of its writers asked for it |
| `WriterQueue.FailedSyncIsFinal` | WeatherApp/Pods/leveldb-library/db/db_impl.cc:1216-1232 | after a log sync that failed, every later group is refused |
| `DbIter.DBIter.Next` | WeatherApp/Pods/leveldb-library/db/db_iter.cc:141-198 | to the least live user key after the current one, with its value; every key between reads as absent |
| `DbIter.DBIter.Prev` | WeatherApp/Pods/leveldb-library/db/db_iter.cc:200-267 | to the greatest live user key before the current one, from either direction |
| `DbIter.DBIter.Seek` | WeatherApp/Pods/leveldb-library/db/db_iter.cc:269-281 | to the first live user key at or after the target |
| `DbIter.DBIter.SeekToFirst` | WeatherApp/Pods/leveldb-library/db/db_iter.cc:283-292 | to the first live user key |
| `DbIter.DBIter.SeekToLast` | WeatherApp/Pods/leveldb-library/db/db_iter.cc:294-299 | to the last live user key |
| `DbIter.DBIter.FindNextUserEntry` | WeatherApp/Pods/leveldb-library/db/db_iter.cc:168-198 | passes over exactly the invisible, deleted and skipped entries |
| `DbIter.DBIter.FindPrevUserEntry` | WeatherApp/Pods/leveldb-library/db/db_iter.cc:227-267 | stops at the last live entry at or before its start |
| `Merger.MergingIterator.Seek` | WeatherApp/Pods/leveldb-library/table/merger.cc:47-53 | the position that a seek in the sorted union of all children has |
| `Merger.MergingIterator.SeekToFirst` | WeatherApp/Pods/leveldb-library/table/merger.cc:31-37 | the first entry of the sorted union |
| `Merger.MergingIterator.SeekToLast` | WeatherApp/Pods/leveldb-library/table/merger.cc:39-45 | the last entry of the sorted union |
| `Merger.MergingIterator.Next` | WeatherApp/Pods/leveldb-library/table/merger.cc:55-79 | one position on in the sorted union, also after moving backwards |
| `Merger.MergingIterator.Prev` | WeatherApp/Pods/leveldb-library/table/merger.cc:81-108 | one position back in the sorted union, also after moving forwards |
| `Merger.MergingIterator.FindSmallest` | WeatherApp/Pods/leveldb-library/table/merger.cc:148-161 | a valid child with the smallest key, none exactly if no child is valid |
| `Merger.MergingIterator.FindLargest` | WeatherApp/Pods/leveldb-library/table/merger.cc:163-176 | a valid child with the largest key |
| `TwoLevel.TwoLevelIterator.Seek` | WeatherApp/Pods/leveldb-library/table/two_level_iterator.cc:82-87 | the position that a seek among the entries of all blocks has, past empty blocks |
| `TwoLevel.TwoLevelIterator.Next` | WeatherApp/Pods/leveldb-library/table/two_level_iterator.cc:103-107 | one position on among the entries of all blocks |
| `TwoLevel.TwoLevelIterator.Prev` | WeatherApp/Pods/leveldb-library/table/two_level_iterator.cc:109-113 | one position back among the entries of all blocks |
| `TwoLevel.TwoLevelIterator.SeekToLast` | WeatherApp/Pods/leveldb-library/table/two_level_iterator.cc:96-101 | the last entry of the last block that has one |
| `TwoLevel.TwoLevelIterator.CurrentEntry` | WeatherApp/Pods/leveldb-library/table/two_level_iterator.cc:29-40 | the entry under the iterator is the one at its position among the entries of all blocks |
| `TwoLevel.SeekFlat` | WeatherApp/Pods/leveldb-library/table/two_level_iterator.cc:82-87 | seeking in the block that the index leads to is seeking among all entries |
| `SkipList.List.FindGreaterOrEqual` | WeatherApp/Pods/leveldb-library/db/skiplist.h:261-281 | the first node at or after the key, and its predecessor on every level |
| `SkipList.List.FindLessThan` | WeatherApp/Pods/leveldb-library/db/skiplist.h:284-302 | the last node before the key |
| `SkipList.List.FindLast` | WeatherApp/Pods/leveldb-library/db/skiplist.h:305-322 | the last node |
| `SkipList.List.Insert` | WeatherApp/Pods/leveldb-library/db/skiplist.h:337-369 | the set of keys grows by the new one and every level stays a linked, sorted part of the one below |
| `SkipList.List.Contains` | WeatherApp/Pods/leveldb-library/db/skiplist.h:371-378 | true exactly if the key is in the list |
| `SkipList.List.SearchDuringInsert` | WeatherApp/Pods/leveldb-library/db/skiplist.h:337-369 | for every schedule of single pointer reads and stores, a search beside an insertion finds what it would find just before or just after it |
| `SkipList.Iterator.Prev` | WeatherApp/Pods/leveldb-library/db/skiplist.h:212-221 | the node before the current one |
| `SkipList.Iterator.Seek` | WeatherApp/Pods/leveldb-library/db/skiplist.h:223-226 | the first node at or after the target |
| `MemTable.MakeLookupKey` | WeatherApp/Pods/leveldb-library/db/dbformat.cc:121-141 | the memtable key and, inside it, the internal key of a lookup |
| `MemTable.MemTable.Add` | WeatherApp/Pods/leveldb-library/db/memtable.cc:75-98 | the encoded entry decodes to its key and value and takes its place in the sorted list |
| `MemTable.MemTable.Get` | WeatherApp/Pods/leveldb-library/db/memtable.cc:100-134 | the value, the deletion or nothing, as the newest entry that the snapshot sees says |
| `MemTable.InsertInto` | WeatherApp/Pods/leveldb-library/db/write_batch.cc:116-137 | after a batch, each key reads at the batch's last number as the last of its records says, else as before, and earlier snapshots read as before |
| `WriteBatch.WriteBatch.Put` | WeatherApp/Pods/leveldb-library/db/write_batch.cc:98-103 | one record more, with the count patched and the sequence number untouched |
| `WriteBatch.WriteBatch.Delete` | WeatherApp/Pods/leveldb-library/db/write_batch.cc:105-109 | one record more, with the count patched and the sequence number untouched |
| `WriteBatch.WriteBatch.Append` | WeatherApp/Pods/leveldb-library/db/write_batch.cc:144-148 | the other batch's records behind this one's |
| `WriteBatch.WriteBatch.SetSequence` | WeatherApp/Pods/leveldb-library/db/write_batch.cc:90-96 | the sequence number is read back and the records stay |
| `WriteBatch.WriteBatch.Iterate` | WeatherApp/Pods/leveldb-library/db/write_batch.cc:42-80 | the records put in, in order; failure exactly on a bad record or a wrong count |
| `WriteBatch.DecodesAll` | WeatherApp/Pods/leveldb-library/db/write_batch.cc:42-80 | any list of records is read back from its bytes |
| `FormatExamples.BatchRecords` | WeatherApp/Pods/leveldb-library/db/write_batch.cc:98-109 | the bytes of both kinds of record |
| `Coding.EncodeVarint32` | WeatherApp/Pods/leveldb-library/util/coding.cc:47-73 | the five-way branch writes the base-128 form |
| `Coding.EncodeVarint64` | WeatherApp/Pods/leveldb-library/util/coding.cc:81-90 | the loop writes the base-128 form |
| `Coding.VarintLength` | WeatherApp/Pods/leveldb-library/util/coding.cc:103-110 | the number of bytes that the form takes |
| `Coding.EncodeFixed32` | WeatherApp/Pods/leveldb-library/util/coding.cc:9-18 | the portable branch writes the four bytes, lowest first |
| `Coding.GetVarint32Ptr` | WeatherApp/Pods/leveldb-library/util/coding.cc:112-128 | at most five groups, cut to 32 bits, on any input |
| `Coding.GetVarint64Ptr` | WeatherApp/Pods/leveldb-library/util/coding.cc:142-157 | at most ten groups, cut to 64 bits, on any input |
| `Coding.Varint32RoundTrip` | WeatherApp/Pods/leveldb-library/util/coding.cc:112-128 | every 32-bit number is read back, whatever follows |
| `Coding.Varint64RoundTrip` | WeatherApp/Pods/leveldb-library/util/coding.cc:142-157 | every 64-bit number is read back, whatever follows |
| `Coding.CutVarintIsBad` | WeatherApp/Pods/leveldb-library/util/coding.cc:142-157 | a number that is cut short is not read as another one |
| `Coding.LengthPrefixedRoundTrip` | WeatherApp/Pods/leveldb-library/util/coding.cc:181-190 | a string with its length in front is read back, whatever follows |
| `WireMeaning.VarintDigit` | WeatherApp/Pods/leveldb-library/util/coding.cc:81-90 | the base-128 form holds the number's base-128 digits from the lowest, each byte but the last with its high bit set |
| `WireMeaning.VarintShortest` | WeatherApp/Pods/leveldb-library/util/coding.cc:103-110 | and takes no more bytes than it must |
| `WireMeaning.FixedDigit` | WeatherApp/Pods/leveldb-library/util/coding.cc:9-45 | the fixed form holds the number's base-256 digits from the lowest |
| `Log.LogWriter.AddRecord` | WeatherApp/Pods/leveldb-library/db/log_writer.cc:34-80 | the file grows by exactly the record's fragments, with trailers where a block has no room for a header |
| `Log.LogReader.ReadPhysicalRecord` | WeatherApp/Pods/leveldb-library/db/log_reader.cc:189-271 | the next physical record of the file, on any bytes, with what was reported as lost; LogDamage says of that record, apart from the scan, where it is stored and that it checks |
| `Log.LogReader.ReadRecord` | WeatherApp/Pods/leveldb-library/db/log_reader.cc:56-174 | the next whole record, on any bytes, with what was reported as lost |
| `LogDamage.FoundIsStored` | WeatherApp/Pods/leveldb-library/db/log_reader.cc:189-271 | on any bytes and with any check: a physical record that is found lies whole in its block, right before the new position, and its stored sum checks for its type and payload |
| `LogDamage.BadSumIsReported` | WeatherApp/Pods/leveldb-library/db/log_reader.cc:243-257 | a record whose sum does not check is not returned; the rest of its block is skipped and reported |
| `LogDamage.BadLengthIsReported` | WeatherApp/Pods/leveldb-library/db/log_reader.cc:222-233 | a length that does not fit what was read is reported, or is the end if the file ends there |
| `LogDamage.AlteredByteIsReported` | WeatherApp/Pods/leveldb-library/db/log_reader.cc:243-257 | one altered payload byte is enough: the record is not returned and the rest of its block is reported |
| `LogDamage.ReadLogIsStored` | WeatherApp/Pods/leveldb-library/db/log_reader.cc:56-174 | on any bytes: every record returned is the payloads of a complete chain of stored fragments, first to last, that all check, and the records come in the order of their chains |
| `LogDamage.NothingIsLostSilently` | WeatherApp/Pods/leveldb-library/db/log_reader.cc:56-174 | on any bytes: the sizes of what is returned and of what is reported add up to all that the physical reads account for, but for a chain that the end of the file cuts off |
| `LogFormat.EveryPrefixReadsBack` | WeatherApp/Pods/leveldb-library/db/log_reader.cc:56-174 | for every list of records and every byte prefix of their log: exactly the records that lie wholly in the prefix are read, and no loss is reported |
| `LogFormat.LogRoundTrip` | WeatherApp/Pods/leveldb-library/db/log_reader.cc:56-174 | a whole log is read back whole |
| `LogFormat.ParsesCut` | WeatherApp/Pods/leveldb-library/db/log_reader.cc:222-233 | a physical record cut off by the end of the file reads as the end |
| `Log.CrashAndRecover` | WeatherApp/Pods/leveldb-library/db/log_writer.cc:34-80 | written by the writer, cut anywhere and read by the reader, a log gives its whole records |
| `Recovery.ReplayLog` | WeatherApp/Pods/leveldb-library/db/db_impl.cc:371-489 | batches replayed from their log records: the memtable answers every read as the last record on the key says, and the last sequence number is that of the last batch |
| `Recovery.CommitAndRecover` | WeatherApp/Pods/leveldb-library/db/db_impl.cc:371-489 | batches written to the log, the log cut at any byte and replayed: the memtable answers every read as exactly the batches say whose log records lie whole in what is left |
| `FormatExamples.LogRecord` | WeatherApp/Pods/leveldb-library/db/log_writer.cc:82-108 | the bytes of one log record |
| `Block.BlockBuilder.Add` | WeatherApp/Pods/leveldb-library/table/block_builder.cc:72-106 | the block's entries grow by the pair, with a restart point exactly at each full interval |
| `Block.BlockBuilder.Finish` | WeatherApp/Pods/leveldb-library/table/block_builder.cc:62-70 | the finished bytes are those of the entries and their restart array |
| `BlockFormat.SharesMost` | WeatherApp/Pods/leveldb-library/table/block_builder.cc:78-89 | between restart points an entry leaves out the longest prefix that it shares with the key before it |
| `FormatExamples.BlockEntry` | WeatherApp/Pods/leveldb-library/table/block_builder.cc:92-99 | the bytes of one entry |
| `BlockFormat.DecodesEntry` | WeatherApp/Pods/leveldb-library/table/block.cc:54-74 | an entry is decoded as it was written, on the fast path and on the slow one |
| `Block.BlockIterator.Seek` | WeatherApp/Pods/leveldb-library/table/block.cc:163-201 | binary search over restart points and a scan: the first entry not before the target |
| `Block.BlockIterator.Next` | WeatherApp/Pods/leveldb-library/table/block.cc:137-140 | the entry after the current one, its key rebuilt from the shared part |
| `Block.BlockIterator.Prev` | WeatherApp/Pods/leveldb-library/table/block.cc:142-161 | the entry before the current one |
| `Block.BlockIterator.SeekToLast` | WeatherApp/Pods/leveldb-library/table/block.cc:208-213 | the last entry |
| `Block.BlockIterator.ParseNextKey` | WeatherApp/Pods/leveldb-library/table/block.cc:224-251 | on any bytes ends inside the block; on a written block gives the next entry |
| `Block.OpensFinished` | WeatherApp/Pods/leveldb-library/table/block.cc:24-39 | a finished block opens at its own restart array |
| `Block.BuildAndRead` | WeatherApp/Pods/leveldb-library/table/block_builder.cc:72-106 | any pairs, built into a block and read from the front, come back in order |
| `Comparator.FindShortestSeparator` | WeatherApp/Pods/leveldb-library/util/comparator.cc:29-50 | the start with its first differing byte raised by one and the rest cut off, if that is below the limit's, and otherwise the start; always the start or a string strictly between and no longer |
| `Comparator.FindShortSuccessor` | WeatherApp/Pods/leveldb-library/util/comparator.cc:52-64 | the key with its first byte that is not 0xff raised by one and the rest cut off; always the key or a later and no longer string |
| `Comparator.FindShortestInternalSeparator` | WeatherApp/Pods/leveldb-library/db/dbformat.cc:69-86 | a boundary that no key of the second user key onwards is before |
| `Comparator.FindShortInternalSuccessor` | WeatherApp/Pods/leveldb-library/db/dbformat.cc:88-101 | a key not before the last one |
| `Comparator.ParsedBack` | WeatherApp/Pods/leveldb-library/db/dbformat.h:165-176 | an internal key is parsed back into user key, sequence number and type |
| `FormatExamples.InternalKey` | WeatherApp/Pods/leveldb-library/db/dbformat.cc:14-23 | the bytes of one internal key |
| `TableFormat.StoresReads` | WeatherApp/Pods/leveldb-library/table/format.cc:64-140 | a stored block passes its checksum and is read back |
| `TableFormat.FooterRoundTrip` | WeatherApp/Pods/leveldb-library/table/format.cc:31-62 | both handles of a footer are read back |
| `FormatExamples.Magic` | WeatherApp/Pods/leveldb-library/table/format.cc:31-40 | the last eight bytes of every table |
| `TableFormat.ReadsIffStored` | WeatherApp/Pods/leveldb-library/table/format.cc:64-140 | with a check that accepts only the right sum: a block is read exactly if the file holds it with its type and checksum behind it |
| `TableFormat.ReadsOnlyChecked` | WeatherApp/Pods/leveldb-library/table/format.cc:64-140 | on any bytes: a block is read exactly if it and its trailer lie in the file, it is not compressed and its stored sum checks |
| `Schemes.TableSchemesAreSound` | WeatherApp/Pods/leveldb-library/table/table_builder.cc:177-194 | the checksum stored behind a block passes the check of a reader, whether or not it verifies |
| `Table.TableBuilder.Add` | WeatherApp/Pods/leveldb-library/table/table_builder.cc:94-123 | the table's entries grow by the pair, the waiting index entry is written under a separator, and the block is cut exactly when it reaches the block size |
| `Table.TableBuilder.Finish` | WeatherApp/Pods/leveldb-library/table/table_builder.cc:198-253 | the file holds every entry in order, the filter block, a metaindex and an index that lead to them, and a footer |
| `TableIndex.LookupIsScan` | WeatherApp/Pods/leveldb-library/table/table.cc:216-244 | looking in the one block that the index leads to reports what scanning all entries would |
| `TableIndex.ReportedIsNewest` | WeatherApp/Pods/leveldb-library/db/version_set.cc:263-276 | on stored bytes: what a seek to the lookup key reports is the entry of the user key with the greatest sequence number that the snapshot sees, none exactly if it sees none |
| `TableLookup.Open` | WeatherApp/Pods/leveldb-library/table/table.cc:38-134 | the index and, if wanted, the filter block that the builder wrote |
| `TableLookup.InternalGet` | WeatherApp/Pods/leveldb-library/table/table.cc:216-244 | with a filter that has no false negatives, the lookup reports what a scan of all entries would |
| `TableBuild.FilteredTableBuilder.Add` | WeatherApp/Pods/leveldb-library/table/table_builder.cc:94-139 | the user key of every entry goes to the filter of its block's offset |
| `TableBuild.FilteredTableBuilder.Finish` | WeatherApp/Pods/leveldb-library/table/table_builder.cc:198-253 | the filter block written into the file has no false negatives, and a bounded size |
| `TableBuild.SmallIsReadable` | WeatherApp/Pods/leveldb-library/table/table_builder.cc:198-253 | entries below a gigabyte give a file in which every length and offset fits its field |
| `TableBuild.BuildTable` | WeatherApp/Pods/leveldb-library/table/table_builder.cc:94-253 | for any sorted pairs, block size and restart interval: a whole table of exactly those pairs, readable if they are below the bound |
| `TableBuild.BuildAndSeek` | WeatherApp/Pods/leveldb-library/table/table.cc:38-244 | built, opened and looked up, with or without filters on either side, a table reports what a scan of the pairs would |
| `TableBuild.BuildAndGet` | WeatherApp/Pods/leveldb-library/table/table.cc:38-244 | a read at a snapshot finds the newest entry of the user key that the snapshot sees, for all sorted pairs below the bound |
| `Bloom.BloomFilterPolicy.CreateFilter` | WeatherApp/Pods/leveldb-library/util/bloom.cc:28-54 | exactly the probe bits of the keys are set, so every key matches; and the filter's length |
| `Bloom.BloomFilterPolicy.KeyMayMatch` | WeatherApp/Pods/leveldb-library/util/bloom.cc:56-80 | true exactly if all probe bits are set, or the encoding is a newer one |
| `Bloom.MatchesIff` | WeatherApp/Pods/leveldb-library/util/bloom.cc:28-80 | a filter made of some keys says yes exactly to a key whose every probe is a probe of one of them |
| `FilterBlock.FilterBlockBuilder.Finish` | WeatherApp/Pods/leveldb-library/table/filter_block.cc:35-75 | every key added may match at the offset of its block |
| `FilterBlock.KeyMayMatch` | WeatherApp/Pods/leveldb-library/table/filter_block.cc:90-105 | on any bytes, the filter of the offset decides, and anything unreadable may match |
| `FilterBlock.FinishedIff` | WeatherApp/Pods/leveldb-library/table/filter_block.cc:35-105 | a finished block answers for an offset exactly as the filter of its 2 KB group does, and yes behind the last one |
| `Ranks.RankOrder` | WeatherApp/Pods/leveldb-library/util/comparator.cc:25-27 | every finite set of keys has ranks that order it as its bytes do |
| `Ranks.StoredOrder` | WeatherApp/Pods/leveldb-library/db/dbformat.cc:51-67 | the comparator on stored keys is the order on user key ranks and trailers |
| `Ranks.RankedSorted` | WeatherApp/Pods/leveldb-library/db/dbformat.cc:51-67 | a table sorted by its stored keys is sorted by rank |
| `Ranks.NewestByRank` | WeatherApp/Pods/leveldb-library/db/dbformat.cc:51-67 | the newest entry found in a table's bytes is the newest entry of the table by rank |
| `EditCodec.VersionEdit.EncodeTo` | WeatherApp/Pods/leveldb-library/db/version_edit.cc:41-85 | the bytes of every field that is set, in order |
| `EditCodec.VersionEdit.DecodeFrom` | WeatherApp/Pods/leveldb-library/db/version_edit.cc:107-205 | succeeds exactly on a list of whole known fields, and stores all of them |
| `EditCodec.DecodeEncoded` | WeatherApp/Pods/leveldb-library/db/version_edit.cc:107-205 | decoding gives back the edit, behind the compaction pointers that were there before |
| `EditCodec.DecodeInvertsIff` | WeatherApp/Pods/leveldb-library/db/version_edit.cc:26-39 | so decoding inverts encoding if and only if there were none |
| `EditCodec.WriteAndRead` | WeatherApp/Pods/leveldb-library/db/version_edit.cc:41-205 | written out and read by a fresh edit, an edit is the same |
| `FormatExamples.EditFields` | WeatherApp/Pods/leveldb-library/db/version_edit.cc:41-85 | the bytes of two fields |
| `Crc32c.Extend` | WeatherApp/Pods/leveldb-library/util/crc32c.cc:276-377 | the byte table, the four strides and the folding of words together give the bit-by-bit CRC, for any data at any address |
| `Crc32c.ExtendedConcat` | WeatherApp/Pods/leveldb-library/util/crc32c.h:14-21 | checksums of pieces compose |
| `Crc32c.UnmaskMask` | WeatherApp/Pods/leveldb-library/util/crc32c.h:26-38 | unmasking undoes masking for every word |
| `Crc32c.ChecksumMatches` | WeatherApp/Pods/leveldb-library/db/log_writer.cc:82-108 | the stored checksum of any record passes the reader's check |
| `CrcErrors.DigitsCrc` | WeatherApp/Pods/leveldb-library/util/crc32c.cc:276-377 | the checksum of the digits one to nine is 0xE3069283 |
| `CrcErrors.LogCheckIff` | WeatherApp/Pods/leveldb-library/db/log_reader.cc:243-257 | the log reader's check accepts a stored sum if and only if it is the sum of the type and the payload |
| `CrcErrors.TableCheckIff` | WeatherApp/Pods/leveldb-library/table/format.cc:85-95 | and so does the check of a table block |
| `CrcErrors.OneByteChanges` | WeatherApp/Pods/leveldb-library/util/crc32c.h:14-20 | strings that differ in one byte have different checksums |
| `CrcErrors.AlteredPayloadFails` | WeatherApp/Pods/leveldb-library/db/log_reader.cc:243-257 | a log record with one payload byte altered does not pass under its stored sum |
| `CrcErrors.AlteredBlockFails` | WeatherApp/Pods/leveldb-library/table/format.cc:85-95 | nor does a table block |
| `Strides.Update` | WeatherApp/Pods/leveldb-library/util/crc32c.cc:276-377 | for any machine with the laws of a linear shift register, the strided loop equals the byte-by-byte one |
| `HandleTable.HandleTable.Insert` | WeatherApp/Pods/leveldb-library/util/cache.cc:78-92 | the slots grow by the new one, minus the one with its key, which is returned |
| `HandleTable.HandleTable.Remove` | WeatherApp/Pods/leveldb-library/util/cache.cc:94-102 | exactly the slot of the key is gone and returned |
| `HandleTable.HandleTable.Resize` | WeatherApp/Pods/leveldb-library/util/cache.cc:122-146 | every slot is kept, in its new bucket |
| `Cache.LRUCache.Lookup` | WeatherApp/Pods/leveldb-library/util/cache.cc:252-259 | a cached entry gains one reference and leaves the unused list; nothing changes on a miss |
| `Cache.LRUCache.Release` | WeatherApp/Pods/leveldb-library/util/cache.cc:261-264 | one reference fewer: to the end of the unused list, or deleted once, with the last one |
| `Cache.LRUCache.Insert` | WeatherApp/Pods/leveldb-library/util/cache.cc:266-303 | the new entry replaces the cached one of its key, and eviction leaves room or nothing unused |
| `Cache.LRUCache.Erase` | WeatherApp/Pods/leveldb-library/util/cache.cc:318-321 | a cached key leaves the cache, held entries stay alive, and other keys are untouched |
| `Cache.LRUCache.Prune` | WeatherApp/Pods/leveldb-library/util/cache.cc:323-333 | exactly the unused entries go |
| `CacheState.EvictedOldest` | WeatherApp/Pods/leveldb-library/util/cache.cc:293-301 | the victims are the longest unused entries, no more than needed, each deleted once |
| `CacheState.ReferencedOk` | WeatherApp/Pods/leveldb-library/util/cache.cc:217-223 | a reference keeps the invariant: list, charge and reference count of every entry agree |
| `CacheState.ErasedOk` | WeatherApp/Pods/leveldb-library/util/cache.cc:307-316 | so does erasing |
| `Cache.HeldStays` | WeatherApp/Pods/leveldb-library/util/cache.cc:293-301 | eviction never touches an entry that a client holds |
| `PbCommon.FieldIter.Next` | WeatherApp/Pods/nanopb/pb_common.c:29-85 | the next field, or the first again with the answer no |
| `PbCommon.FieldIter.Find` | WeatherApp/Pods/nanopb/pb_common.c:87-104 | the field of a number, from wherever the search begins, all the way round |
| `PbEncode.OStream.Write` | WeatherApp/Pods/nanopb/pb_encode.c:103-124 | writes if there is room, counts if the stream only counts, and changes nothing on failure |
| `PbEncode.PushJoin` | WeatherApp/Pods/nanopb/pb_encode.c:103-124 | writing in pieces succeeds exactly if the whole fits |
| `PbEncode.EncodeVarint` | WeatherApp/Pods/nanopb/pb_encode.c:608-628 | the base-128 form |
| `PbEncode.EncodeSVarint` | WeatherApp/Pods/nanopb/pb_encode.c:630-639 | the folded form of every 64-bit signed number; WireMeaning.ZigZagBits and WireMeaning.ZigZagStands say which number that is |
| `WireMeaning.ZigZagBits` | WeatherApp/Pods/nanopb/pb_encode.c:630-639 | the number sent is the 64-bit word shifted left by one, complemented if the number is negative |
| `WireMeaning.ZigZagStands` | WeatherApp/Pods/nanopb/pb_encode.c:630-639 | it is even exactly for numbers from zero on, and its half is the number, or one less than its negation |
| `WireMeaning.ScalarOnWire` | WeatherApp/Pods/nanopb/pb_encode.c:769-850 | every number goes out as the base-128 or the fixed form of what stands for it: itself, its two's complement in 64 bits, or its magnitude with the sign in the lowest bit |
| `WireMeaning.WireIsScalar` | WeatherApp/Pods/nanopb/pb_decode.c:1280-1440 | whoever wrote it, what stands for a number is read as that number |
| `WireMeaning.UnsignedRange` | WeatherApp/Pods/nanopb/pb_decode.c:1382-1404 | on any 64-bit word: an unsigned field takes it exactly if the field can hold it |
| `WireMeaning.SignedRange` | WeatherApp/Pods/nanopb/pb_decode.c:1345-1380 | on any 64-bit word: a signed field takes the number that its low 32 bits, or all 64 for a wide field, stand for, exactly if the field can hold it |
| `WireMeaning.FoldedRange` | WeatherApp/Pods/nanopb/pb_decode.c:1406-1428 | on any 64-bit word: a folded field takes half of it, or the complement of the half if it is odd, exactly if the field can hold it |
| `WireMeaning.TagOnWire` | WeatherApp/Pods/nanopb/pb_encode.c:669-707 | a tag is the base-128 form of the field number above three bits of wire type |
| `WireMeaning.Examples` | WeatherApp/Pods/nanopb/pb_encode.c:608-639 | worked examples: 150 in field 1 is 08 96 01, and 3600 folded is 7200 |
| `PbEncode.EncodePackedArray` | WeatherApp/Pods/nanopb/pb_encode.c:147-200 | the length in front of a packed array is the length of what follows, for fixed and varying widths |
| `PbEncode.CheckProto3Default` | WeatherApp/Pods/nanopb/pb_encode.c:240-337 | true exactly on a field whose value is its default, at any depth |
| `ProtoRoundTrip.LeftOutIff` | WeatherApp/Pods/nanopb/pb_encode.c:240-337 | a field is left out exactly if it has its default at every depth and its rule lets it be left out at every depth |
| `PbEncode.EncodeSubmessage` | WeatherApp/Pods/nanopb/pb_encode.c:717-765 | the counting pass and the writing pass agree on every submessage, so the size in front is right |
| `PbEncode.EncodeMessage` | WeatherApp/Pods/nanopb/pb_encode.c:528-550 | the bytes of the whole message, field by field, or failure |
| `PbEncode.GetEncodedSize` | WeatherApp/Pods/nanopb/pb_encode.c:567-576 | the size reported is the size written |
| `PbEncode.EncodeToBuffer` | WeatherApp/Pods/nanopb/pb_encode.c:86-124 | the message if it fits the buffer, and otherwise nothing |
| `PbStream.IStream.DecodeVarint32` | WeatherApp/Pods/nanopb/pb_decode.c:187-252 | on any bytes: five groups, padding and sign extension behind them, and the end of the stream |
| `ProtoScalars.NegativeReadsBack` | WeatherApp/Pods/nanopb/pb_decode.c:213-242 | a negative number sign-extended to 64 bits is read as its 32-bit two's complement |
| `PbStream.IStream.DecodeVarint` | WeatherApp/Pods/nanopb/pb_decode.c:255-276 | ten groups, cut to 64 bits, on any bytes |
| `WireBytes.GroupDigit` | WeatherApp/Pods/nanopb/pb_decode.c:255-276 | the groups read are the number's base-128 digits, lowest first |
| `WireBytes.WideNumber` | WeatherApp/Pods/nanopb/pb_decode.c:255-276 | on any bytes: the number ends at the first byte without a high bit, is cut to 64 bits, and more than ten groups are refused |
| `WireBytes.NarrowNumber` | WeatherApp/Pods/nanopb/pb_decode.c:187-247 | on any bytes: up to five groups are taken exactly if nothing is above the thirty-second bit |
| `WireBytes.PaddedNumber` | WeatherApp/Pods/nanopb/pb_decode.c:213-242 | on any bytes: with six to 37 groups the first five count, and it is taken exactly if each further one is empty or the sign of a 64-bit number |
| `WireBytes.EndlessIsBad` | WeatherApp/Pods/nanopb/pb_decode.c:187-276 | bytes that all announce another one are no number |
| `PbStream.IStream.Skip` | WeatherApp/Pods/nanopb/pb_decode.c:278-331 | passes over exactly one value of the wire type, or fails |
| `WireBytes.SkipIff` | WeatherApp/Pods/nanopb/pb_decode.c:278-331 | on any bytes and for each wire type: what is left after skipping is what follows one whole value, and skipping fails exactly if there is none |
| `PbStream.IStream.DecodeTag` | WeatherApp/Pods/nanopb/pb_decode.c:298-319 | number and wire type; a zero ends the message |
| `WireBytes.ZeroTagEnds` | WeatherApp/Pods/nanopb/pb_decode.c:298-319 | a zero behind a message ends it, whatever follows |
| `PbStream.IStream.MakeStringSubstream` | WeatherApp/Pods/nanopb/pb_decode.c:372-385 | the substream holds the run that the length announces, and this stream what follows |
| `PbStream.IStream.CloseStringSubstream` | WeatherApp/Pods/nanopb/pb_decode.c:387-400 | goes on behind the run, whatever the substream has left |
| `PbDecode.DecodeField` | WeatherApp/Pods/nanopb/pb_decode.c:406-483 | one field by its rule: replaced, appended, unpacked or put into its union; ProtoMerge says, apart from this function, what that does to a struct |
| `WireBytes.WireTypeIsIgnored` | WeatherApp/Pods/nanopb/pb_decode.c:406-483 | the wire type of a tag decides only whether an array of numbers takes a packed run or an element |
| `PbDecode.SetMessageToDefaults` | WeatherApp/Pods/nanopb/pb_decode.c:845-928 | every field has its default, at any depth |
| `PbDecode.Mark` | WeatherApp/Pods/nanopb/pb_decode.c:1021-1026 | one bit of the map of required fields is set and no other |
| `PbDecode.RequiredPresent` | WeatherApp/Pods/nanopb/pb_decode.c:1039-1079 | true exactly if the first 64 required fields were all met |
| `PbDecode.DecodeFields` | WeatherApp/Pods/nanopb/pb_decode.c:934-1030 | fields in any order, unknown ones passed over, the last one winning, up to the end or a zero tag |
| `WireBytes.CutMessageFails` | WeatherApp/Pods/nanopb/pb_decode.c:934-1030 | a message that ends in the middle of a field is refused, whatever came before that field |
| `ProtoMerge.ChunksOnto` | WeatherApp/Pods/nanopb/pb_decode.c:406-464 | an array of numbers that arrives as any mix of packed runs and single elements: all of them are appended, in order, to what was there, exactly if there is room |
| `ProtoMerge.ChunksDecode` | WeatherApp/Pods/nanopb/pb_decode.c:406-464 | and a message of one such array decodes to exactly the elements sent, or fails for lack of room |
| `ProtoMerge.MessageOnto` | WeatherApp/Pods/nanopb/pb_decode.c:934-1082 | any message written with one descriptor and decoded with another into any struct: fields left out or unknown stay, singular ones are replaced, submessages are merged in turn, arrays are appended to, union members oust each other; failure exactly if a text is unterminated, an array overflows or a checked required field is missing |
| `ProtoMerge.ConcatenationMerges` | WeatherApp/Pods/nanopb/pb_decode.c:934-1096 | two messages written one behind the other decode as the first with the second merged into it |
| `ProtoMerge.UnionHoldsOne` | WeatherApp/Pods/nanopb/pb_decode.c:466-480 | storing a union's member leaves it the only one there, and other fields alone |
| `PbDecode.DecodeBuffer` | WeatherApp/Pods/nanopb/pb_decode.c:1084-1096 | the decoder's result on any bytes is the decoding function's |
| `ProtoScalars.SkipScalar` | WeatherApp/Pods/nanopb/pb_decode.c:321-331 | a reader that does not know a field passes over exactly what was written for it |
| `ProtoRoundTrip.MessageBack` | WeatherApp/Pods/nanopb/pb_decode.c:934-1096 | what any reader makes of any message written with another descriptor: success exactly if the texts it takes in are terminated and the required fields it checks are the writer's, and then the writer's value in each shared field and the default in the others |
| `ProtoRoundTrip.RoundTripIff` | WeatherApp/Pods/nanopb/pb_decode.c:1487-1523 | with the same descriptor, the message comes back if and only if every text in it is terminated |
| `ProtoRoundTrip.FullTextIsLost` | WeatherApp/Pods/nanopb/pb_encode.c:873-897 | a text that fills its array is written and cannot be read |
| `PbMessages.Send` | WeatherApp/Pods/nanopb/pb_encode.c:528-550 | encoder, buffer and decoder together do what MessageBack says, for any two descriptors that agree on their shared fields |
| `PbMessages.SendBack` | WeatherApp/Pods/nanopb/pb_decode.c:1084-1096 | and with one descriptor what RoundTripIff says |

## Left out

- User keys in the upper half are integers, the ranks of the keys in the comparator's order. `Ranks` proves that ranks
  exist for the bytewise comparator and order stored keys the same way; other comparators are not modelled.
- Background work is one atomic step each: the choice of files, the merge and the installation. A memtable flush in the
  middle of a compaction (`db/db_impl.cc:906-920`) is not modelled, nor is releasing the mutex in the middle.
- Which file `PickCompaction` starts from (compaction scores, compaction pointers, seek counts) is a parameter.
- Input and output errors, and with them recovery from a half-written manifest, `RepairDB`, obsolete file deletion and
  the lock file. In `WriterQueue` a log append or sync may fail; elsewhere files are byte strings that can be read.
- Snappy compression, statistics, `ApproximateSizes`, `CompactRange` of the database, and properties.
- `LogReader` with an initial offset above zero, and what it resynchronises to.
- The cache's sixteen shards and its destructor. Its two circular lists are sequences of handles, its bucket chains
  sequences, and a handle stands for a pointer, so pointer aliasing inside a chain is not modelled.
- The literal CRC tables: the model computes each table entry from the polynomial.
- Keeping table blocks in the cache between reads; whether a read verifies checksums is a parameter.
- The Bloom filter's hash function is a parameter; the theorems hold for every hash.
- Block entries whose lengths add up beyond 32 bits: `DecodeEntry` adds them without wrap-around.
- Version edits, batches and tables whose strings are 4 GB or longer; their lengths would be cut to 32 bits.
- The skip list's nodes hold integers; the memtable's list of encoded entries is a sequence whose search is specified by
  the position that the skip list finds. The memory arena is not modelled. Pointers are read and stored in program order,
  so what acquire and release order on other machines is not modelled.
- nanopb: callbacks, extensions, pointer fields and `malloc`, fixed-count arrays, user-given default values, delimited
  and null-terminated framing, read and write callbacks of streams, and error message texts. Descriptors are finite
  trees, so a message type that contains itself is not modelled.
- nanopb sizes are unbounded where the C code has `size_t`; buffers are below 4 GB. `uint_fast8_t` is taken as one byte.
- A descriptor without fields that meets a tag: the code's end marker has tag zero, and the model has no such entry.
- The Swift application.
- MemTable.MemTable.Add: keys and values below 4 GB, and the list must not hold the key yet, as the skip list demands.
- FilterBlock.FilterBlockBuilder.Finish: says nothing about matches when the block is 4 GB or longer, because its offsets
  would not fit their fields.
- TableBuild.BuildAndGet: promises nothing for entries of a gigabyte or more, which is the largest table the store's
  options allow (`db/db_impl.cc:104`).
- Block.BuildAndRead: promises nothing for a block of 4 GB or more, whose offsets would not fit their fields.
- StoreRuns.SnapshotsAreStable: only through guarded compactions, since an unguarded one changes an answer.
- DbImpl.DBImpl.BackgroundCompaction: where a manual compaction goes on after a part of its range is not modelled.
- LogDamage.FoundIsStored: a stored type byte of 5 or 6 that checks is taken for the end or for a bad record, because the
  reader uses these values for its own outcomes (`db/log_reader.h:63-72`); the model does as the code does.
- Recovery.CommitAndRecover: the recovery of batches stops short of a flush in the middle of a long log and of reusing
  the last log (`db/db_impl.cc:441-479`).
