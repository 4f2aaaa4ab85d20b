# A verified model of the storage core: LevelDB and nanopb

The application keeps its data through two vendored libraries, and this project models what is hard in them: the
log-structured store of LevelDB (`CardPang/Pods/leveldb-library`) and the protocol buffer codec of nanopb
(`CardPang/Pods/nanopb`). `dafny verify dfyconfig.toml` checks everything.

**The store.** An entry is a user key, a sequence number, a kind and a value; a file is a sorted run of entries; a
version is seven lists of files. `Versions` is the read path, `InputSelection`, `CompactionSetup`, `Compactions`,
`VersionEdits`, `CompactionInstall`, `CompactionReads` and `Background` are the compaction engine from choosing inputs
to installing outputs, `Store` and `StoreRuns` put writes, memtable switches, flushes, trivial moves, merges and
snapshots into one state machine. The main theorem is `StoreRuns.RunReadsLikeHistory`: in every state of every safe
run, a read at a live snapshot sees the newest visible entry of everything ever written. `MergingIterators` and
`DbIterators` prove the two iterators equal to plain cursors.

Three things turned out false of the code, and the exact conditions are proved:

- A compaction preserves all reads if and only if no dropped deletion marker leaves an older value behind
  (`CompactionReads.CompactionPreservesReadsIff`). The code calls AddBoundaryInputs on the level but not on level+1, so
  this can happen: `Resurfacing.RunToResurfacing` is a run from the empty store that ends there. It happens only
  through a level+1 file that AddBoundaryInputs would have added (`CompactionInstall.ResurfacingIsBoundary`); with
  nothing to add there, it cannot (`CompactionInstall.CoveredCompactionPreservesReads`).
- Installing a merge keeps level+1 disjoint, however the outputs are cut, if and only if no file flushed while the
  merge ran lies between two surviving entries (`CompactionInstall.EveryCutApartIff`). For a compaction that
  PickCompaction starts this always holds: its inputs, grown from one file, leave no gap in their key range
  (`CompactionSetup.PickCompaction`), and PickLevelForMemTableOutput puts a flushed file beside all of them
  (`CompactionInstall.ConnectedIsSafe`). A manual range can leave a gap, and a memtable can be flushed into it,
  although an assertion in MaybeAddFile (`db/version_set.cc:741-754` of LevelDB) takes disjointness for granted:
  `FlushedGap.RunToLostValue` is a run from the empty store after which the binary search misses the last value
  written.
- The first condition, met with the memtables in place, is not enough for a crash. A merge may drop a deletion marker
  while a memtable hides the older value; if the memtable is lost, the value is back: `HiddenValue.RunToHiddenValue` is
  a run from the empty store that ends there. What survives of the writes since the last flush stays readable if and
  only if, besides, no value resurfaces among what is on disk (`Durability.FinishKeepsDbInvIff`).

A run is safe when every merge that finishes meets the first condition and, if it came from a manual range, the second
(`Store.SafeToFinish`, exact by `Store.SafeToFinishIff`); every other step is unconditional. It is safe from crashes
when the condition holds of what is on disk (`Durability.SafeFromCrash`, exact by `Durability.SafeFromCrashIff`).

**Crashes.** `Durability` adds crashes to the state machine: the version survives, and any part of the memtables, since
the log of the one that is being flushed may be torn while records of the newer log are there. In every state of every
safe run with any number of crashes, reads follow the plain rule over what survived. `Reopening` shows that this is what
opening the database does, byte by byte: for any logs, each cut anywhere, what is recovered are the whole groups of
each, and every read equals the plain rule over the history without the others.

**The log.** `LogFormat`, `LogReplay` and `LogFiles` model blocks, fragments, trailers and checksums byte by byte; for
any records and any cut, reading returns exactly the records that are complete. `LogLayout` says byte by byte what the
writer leaves in a file, and `LogFragments` what the reader makes of any file at all: which runs of fragments are
records, and that everything else is reported. `TornLogs` is a log that is reused after a crash tore its end. `Crc32c`
is the real checksum, one bit at a time; `Strides`, `Crc32cTables` and `Crc32cStrides` prove that the code, with five
tables and four interleaved partial checksums, computes it.

**Bytes that nobody promised to be good.** `WireFormat`, `Grammars`, `BatchGrammar`, `EditGrammar`, `BlockGrammar`,
`ProtoGrammar` and `MessageGrammar` say exactly which bytes the readers of numbers, write batches, version edits, block
entries and nanopb messages accept, and as what: a grammar on one side, the reader on the other, and an if and only if
over all inputs between them.

**Concurrency.** `GroupCommit` is the write queue as a state machine over the steps of any number of threads, with
safety and progress; `WriteBatches` is the batch they write, and `CrashRecovery` joins both with the log: what a cut
log gives back of a run of group commits. `SkipListReaders` interleaves each single pointer store of Insert with the
loads of a reader; `SkipListOps` is the same code run alone. `ObsoleteFiles` is the life of table files under one
background thread, readers and writers.

**Tables.** `BlockFormat`, `Blocks`, `BlockIters` (prefix compression and restart points), `Separators`, `Blooms`,
`FilterBlocks`, `Tables`, `TableBuilders`, and the cache in `HandleTables` and `LruCaches`.

**Metadata.** `Manifests` and `VersionSets` show when replaying the manifest through one builder gives what applying
its edits one by one gave: always, unless an edit uses the number of a deleted file again. `DatabaseEdits` shows that
the database's own edits do not. `EditCodec` is the encoding of an edit, and `ManifestRecovery` recovers from any
bytes: a manifest cut anywhere gives back the version after the last edit that is whole.

**nanopb.** `ProtoMessages` holds messages as trees over field descriptors, what the encoder writes for them and what
the decoder makes of any bytes; `ProtoBounds` proves that what it accepts fits the structure; `ProtoRoundTrip` proves
exactly which messages survive the round trip and that older readers skip newer fields; `ProtoEncode` has the two-pass
encoder, `ProtoDecode` the decoding loops and the field iterator, `FieldBits` the bit words for required fields.
`ProtoBytes` gives the bytes of every field type in numbers; `WireItems`, `WireLaws` and `PartialMessages` say what any
list of fields decodes to: arrays gather, submessages merge, unions keep one member, missing required fields are
errors. The wire format is that of the Protocol Buffers "Encoding" specification, sections "Base 128 Varints", "Message
Structure", "Signed Integers", "Length-Delimited Records" and "Packed Repeated Fields".

User keys of the store are real numbers, since the comparator is a parameter of LevelDB and any total order on the
countably many keys embeds into them; where bytes matter (log, blocks, tables, edits, batches, nanopb) keys are bytes.
Integers are unbounded and every width, wrap-around and cast that matters is written out. Clocks, random numbers,
byte-size limits and the choices of the scheduler are parameters or nondeterministic steps.

## Model

| member | source | states |
|---|---|---|
| `Versions.SeekFindsNewest` | CardPang/Pods/leveldb-library/db/memtable.cc:100-134 | seeking (key, snapshot) in a sorted run lands on the newest entry visible at the snapshot, or the run has none |
| `Versions.FindFile` | CardPang/Pods/leveldb-library/db/version_set.cc:88-106 | the binary search, on any files; on a disjoint level every file before the result ends before the target and no file from it on does |
| `Versions.GetFromLevel0` | CardPang/Pods/leveldb-library/db/version_set.cc:282-302 | the hit among overlapping level-0 files, newest first, is the newest visible entry of the level; no hit means there is none |
| `Versions.GetFromLevel` | CardPang/Pods/leveldb-library/db/version_set.cc:304-324 | the one candidate of the binary search decides, on any files; on a disjoint level that is the newest visible entry of the whole level |
| `Versions.Get` | CardPang/Pods/leveldb-library/db/version_set.cc:326-421 | level by level with early stop returns the newest visible entry of the whole version, or there is none |
| `StoreRuns.Lookup` | CardPang/Pods/leveldb-library/db/db_impl.cc:1100-1145 | memtable, immutable memtable, version, stopping at the first hit, equals the plain rule over all their entries |
| `StoreRuns.Get` | CardPang/Pods/leveldb-library/db/db_impl.cc:1100-1145 | in every state that satisfies the store invariant the lookup equals the plain rule over everything ever written, for every readable snapshot |
| `InputSelection.GetOverlappingInputs` | CardPang/Pods/leveldb-library/db/version_set.cc:519-559 | terminates; above level 0 exactly the files that meet the range; on level 0 the least set of files closed under overlap of user keys |
| `InputSelection.FindLargestKey` | CardPang/Pods/leveldb-library/db/version_set.cc:1326-1341 | a largest key of the files, none beyond it |
| `InputSelection.FindSmallestBoundaryFile` | CardPang/Pods/leveldb-library/db/version_set.cc:1345-1364 | the first file that starts after the key with the same user key, or there is none |
| `InputSelection.AddBoundaryInputs` | CardPang/Pods/leveldb-library/db/version_set.cc:1378-1401 | terminates; appends, one after the other, the boundary file that starts first behind the largest key so far until there is none, and keeps a run of consecutive files consecutive |
| `InputSelection.CloseInputs` | CardPang/Pods/leveldb-library/db/version_set.cc:1403-1409 | inputs after boundary files: files left behind are newer, key by key, than files taken |
| `CompactionSetup.PickFile` | CardPang/Pods/leveldb-library/db/version_set.cc:1282-1297 | the first file that ends after the compaction pointer, or the first file of the level if none does |
| `CompactionSetup.PickInputs` | CardPang/Pods/leveldb-library/db/version_set.cc:1309-1318 | the one file, on level 0 the least set closed under overlap that contains it |
| `CompactionSetup.AutomaticPickConnected` | CardPang/Pods/leveldb-library/db/version_set.cc:1270-1322 | what PickCompaction starts from is a possible pick, contains its file, and its user-key ranges join up without a gap |
| `CompactionSetup.ExpandInputs` | CardPang/Pods/leveldb-library/db/version_set.cc:1416-1447 | the larger inputs (all that meets the span of both lists, with boundary files) are taken exactly if they are more files, pass the byte-size test and need as many files of level+1 as before; the inputs stay valid and leave no gap if there was none |
| `CompactionSetup.SetupOtherInputs` | CardPang/Pods/leveldb-library/db/version_set.cc:1403-1447 | exactly the boundary files, the files of the next level in their span, and the expansion; both lists are valid for a merge (closed under age on the level, the whole overlap on the next level), and inputs that start without a gap end without one |
| `CompactionSetup.PickCompaction` | CardPang/Pods/leveldb-library/db/version_set.cc:1270-1322 | from one file of any level to the inputs that SetupOtherInputs makes of it: valid, containing it and covering their key range without a gap |
| `Background.InputsMerge` | CardPang/Pods/leveldb-library/db/version_set.cc:1237-1268 | inputs chosen by SetupOtherInputs can be merged: sorted runs with distinct keys |
| `MergingIterators.SortedUnionExists` | CardPang/Pods/leveldb-library/table/merger.cc:14-29 | children with distinct keys have a sorted union |
| `MergingIterators.SortedUnionUnique` | CardPang/Pods/leveldb-library/table/merger.cc:14-29 | the sorted union is determined by its entries, so `merged` is what the iterator walks over |
| `MergingIterators.MergingIterator.SeekToFirst` | CardPang/Pods/leveldb-library/table/merger.cc:31-37 | position 0 of the sorted union |
| `MergingIterators.MergingIterator.SeekToLast` | CardPang/Pods/leveldb-library/table/merger.cc:39-45 | last position of the sorted union |
| `MergingIterators.MergingIterator.Seek` | CardPang/Pods/leveldb-library/table/merger.cc:47-53 | the first entry of the union at or after the target |
| `MergingIterators.MergingIterator.Next` | CardPang/Pods/leveldb-library/table/merger.cc:55-79 | one position forward in the union, also after a change of direction |
| `MergingIterators.MergingIterator.Prev` | CardPang/Pods/leveldb-library/table/merger.cc:81-108 | one position back in the union, also after a change of direction |
| `MergingIterators.MergingIterator.FindSmallest` | CardPang/Pods/leveldb-library/table/merger.cc:148-161 | the current child stands on the union's entry at the iterator's position; none exactly at the end |
| `MergingIterators.MergingIterator.FindLargest` | CardPang/Pods/leveldb-library/table/merger.cc:163-176 | the same, from behind |
| `DbIterators.DBIter.Current` | CardPang/Pods/leveldb-library/db/db_iter.cc:64-71 | the key shown reads, at the iterator's sequence number, as the value shown |
| `DbIterators.DBIter.FindNextUserEntry` | CardPang/Pods/leveldb-library/db/db_iter.cc:168-198 | stops at the first entry wanted from here, skipping hidden and deleted keys; otherwise none is left |
| `DbIterators.DBIter.FindPrevUserEntry` | CardPang/Pods/leveldb-library/db/db_iter.cc:227-267 | saves the last shown entry at or before here; otherwise none is left |
| `DbIterators.DBIter.Next` | CardPang/Pods/leveldb-library/db/db_iter.cc:141-166 | the next key that reads as a value, nothing readable skipped, in either direction before the call |
| `DbIterators.DBIter.Prev` | CardPang/Pods/leveldb-library/db/db_iter.cc:200-225 | the previous key that reads as a value, nothing readable skipped, in either direction before the call |
| `DbIterators.DBIter.Seek` | CardPang/Pods/leveldb-library/db/db_iter.cc:269-281 | the first readable key at or after the target, or there is none |
| `DbIterators.DBIter.SeekToFirst` | CardPang/Pods/leveldb-library/db/db_iter.cc:283-292 | the first readable key, or there is none |
| `DbIterators.DBIter.SeekToLast` | CardPang/Pods/leveldb-library/db/db_iter.cc:294-299 | the last readable key, or there is none |
| `Compactions.Compaction.IsBaseLevelForKey` | CardPang/Pods/leveldb-library/db/version_set.cc:1533-1552 | with level pointers that only move forward, the answer is whether no deeper level has a file covering the key |
| `Compactions.MakeInputIterator` | CardPang/Pods/leveldb-library/db/version_set.cc:1237-1268 | an iterator over the sorted union of the input files |
| `Compactions.DoCompactionWork` | CardPang/Pods/leveldb-library/db/db_impl.cc:878-1009 | the outputs are the merged entries less exactly those that the drop rules name, cut into numbered files |
| `Compactions.CutsAreDisjoint` | CardPang/Pods/leveldb-library/db/db_impl.cc:980-990 | cutting a sorted run anywhere gives a sorted, disjoint level |
| `CompactionReads.ChangedReadResurfaces` | CardPang/Pods/leveldb-library/db/db_impl.cc:921-963 | if a read at or above the smallest snapshot changes, a deleted value has resurfaced |
| `CompactionReads.ResurfacingChangesRead` | CardPang/Pods/leveldb-library/db/db_impl.cc:921-963 | a resurfacing value is read at the smallest snapshot where nothing was read before |
| `CompactionReads.CompactionPreservesReadsIff` | CardPang/Pods/leveldb-library/db/db_impl.cc:890-963 | all reads at all snapshots from the smallest on are preserved if and only if no dropped deletion marker leaves an older value behind outside the inputs |
| `CompactionInstall.ResurfacingIsBoundary` | CardPang/Pods/leveldb-library/db/version_set.cc:1403-1447 | a value that resurfaces lies in a level+1 file that AddBoundaryInputs would have added |
| `CompactionInstall.CoveredCompactionPreservesReads` | CardPang/Pods/leveldb-library/db/version_set.cc:1403-1447 | if AddBoundaryInputs has nothing to add on level+1, every read is preserved |
| `Resurfacing.DeletedValueCanResurface` | CardPang/Pods/leveldb-library/db/version_set.cc:1403-1447 | a version and an automatic pick with the inputs of SetupOtherInputs, where a deleted value is read again after the compaction |
| `Resurfacing.RunToResurfacing` | CardPang/Pods/leveldb-library/db/db_impl.cc:688-767 | a run from the empty store, every step safe, to an automatic compaction after which, however it is finished, a reader at the newest sequence number sees the deleted value |
| `CompactionInstall.InstalledEntries` | CardPang/Pods/leveldb-library/db/db_impl.cc:860-876 | the new version holds the old entries with the merged inputs replaced by the outputs |
| `CompactionInstall.OutputLevelDisjointIff` | CardPang/Pods/leveldb-library/db/db_impl.cc:860-876 | for given outputs the output level stays disjoint if and only if no file flushed meanwhile meets one |
| `CompactionInstall.EveryCutApartIff` | CardPang/Pods/leveldb-library/db/db_impl.cc:980-990 | whatever the cut of the outputs no file flushed meanwhile meets one, if and only if no such file lies between two surviving entries |
| `CompactionInstall.ConnectedIsSafe` | CardPang/Pods/leveldb-library/db/version_set.cc:491-516 | inputs without a gap have every file flushed meanwhile on one side, so the condition holds for every compaction that PickCompaction starts |
| `CompactionInstall.DeepCompactionIsSafe` | CardPang/Pods/leveldb-library/db/version_set.cc:491-516 | a merge out of level 2 or deeper meets no flushed file at all |
| `CompactionInstall.InstallKeepsVersionInv` | CardPang/Pods/leveldb-library/db/db_impl.cc:860-876 | age order always survives; for given outputs the whole version invariant survives if and only if no flushed file meets one |
| `FlushedGap.FlushedFileCanMeetOutput` | CardPang/Pods/leveldb-library/db/version_set.cc:1464-1495 | two level-1 files with a gap and nothing on level 2: a possible pick, but only of a manual range since it is not connected; a flush during the merge lands in the gap on the output level and meets the output |
| `FlushedGap.RunToLostValue` | CardPang/Pods/leveldb-library/db/db_impl.cc:688-767 | a run from the empty store, every step safe, to a manual merge that can be finished so that no level gives the value written last |
| `Background.Compact` | CardPang/Pods/leveldb-library/db/db_impl.cc:878-1009 | choosing inputs, merging and writing outputs together meet the premises of the store's compaction steps |
| `Background.CompactPicked` | CardPang/Pods/leveldb-library/db/db_impl.cc:700-715 | the same from the one file that PickCompaction starts with, for the store's automatic compactions |
| `VersionEdits.SomeFileOverlapsRange` | CardPang/Pods/leveldb-library/db/version_set.cc:122-157 | true if and only if some file meets the range, by binary search on disjoint levels |
| `VersionEdits.PickLevelForMemTableOutput` | CardPang/Pods/leveldb-library/db/version_set.cc:491-516 | level 0 if the new file meets one there; otherwise it sinks, at most to level 2, exactly as long as it meets nothing on the next level and at most the allowed bytes on the level after; so nothing down to its level overlaps it |
| `VersionEdits.SavedIsLevelEdit` | CardPang/Pods/leveldb-library/db/version_set.cc:695-754 | what the builder of `Manifests` saves for a level is the level edit that the store's steps install, and nothing else is |
| `VersionEdits.FlushKeepsVersionInv` | CardPang/Pods/leveldb-library/db/db_impl.cc:491-533 | adding a flushed file at the level picked keeps levels disjoint and newer data above older data |
| `Store.FlushKeepsInv` | CardPang/Pods/leveldb-library/db/db_impl.cc:535-566 | a memtable flush keeps the store invariant |
| `Store.FinishKeepsInv` | CardPang/Pods/leveldb-library/db/db_impl.cc:860-876 | installing a merge keeps the store invariant when it is safe to finish: no condition on flushes for an automatic pick |
| `Store.FinishKeepsInvIff` | CardPang/Pods/leveldb-library/db/db_impl.cc:860-876 | one installation keeps the invariant if and only if its outputs meet no flushed file and no value resurfaces |
| `Store.SafeToFinishIff` | CardPang/Pods/leveldb-library/db/db_impl.cc:860-876 | every way of finishing a merge keeps the invariant if and only if the condition holds, which names no output |
| `Store.ResurfacingBringsBack` | CardPang/Pods/leveldb-library/db/db_impl.cc:860-876 | when a value resurfaces the merge can be finished, and however it is, the deleted value is read |
| `Store.MoveKeepsInv` | CardPang/Pods/leveldb-library/db/db_impl.cc:718-725 | a trivial move keeps the store invariant |
| `Store.StepKeepsInv` | CardPang/Pods/leveldb-library/db/db_impl.cc:688-767 | every safe step of the store (write, switch, flush, move, compaction, snapshot) keeps the invariant; only the installation of a merge has a condition |
| `StoreRuns.RunKeepsInv` | CardPang/Pods/leveldb-library/db/db_impl.cc:688-767 | the invariant holds in every state of every safe run |
| `StoreRuns.RunReadsLikeHistory` | CardPang/Pods/leveldb-library/db/db_impl.cc:1100-1145 | in every state of every safe run every readable snapshot reads as the plain rule over everything ever written |
| `StoreRuns.SnapshotIsStable` | CardPang/Pods/leveldb-library/db/db_impl.cc:1166-1175 | a live snapshot reads the same in any two states of a run, whatever was flushed, moved or compacted between |
| `Crc32c.ExtendConcat` | CardPang/Pods/leveldb-library/util/crc32c.h:13-20 | the checksum of a + b is the checksum of a extended by b |
| `Crc32c.UnmaskMask` | CardPang/Pods/leveldb-library/util/crc32c.h:29-38 | Unmask undoes Mask for every word |
| `Crc32cTables.ByteTable` | CardPang/Pods/leveldb-library/util/crc32c.cc:20-63 | the entries of kByteExtensionTable for single bits are the remainders by the polynomial |
| `Crc32cTables.StrideTables` | CardPang/Pods/leveldb-library/util/crc32c.cc:65-253 | the entries of the four stride tables for single bits are what sixteen bytes of input make of that bit of a word |
| `Crc32cTables.TestValue` | CardPang/Pods/leveldb-library/util/crc32c.cc:264-274 | the checksum of the test buffer is the value that CanAccelerateCRC32C expects |
| `Crc32cTables.WordSteps` | CardPang/Pods/leveldb-library/util/crc32c.cc:313-321 | four steps over a byte are one over the little-endian word that the bytes are |
| `Strides.SwathStep` | CardPang/Pods/leveldb-library/util/crc32c.cc:294-311 | for any linear step: four partial checksums, each stepped over a whole swath on its own, combine to the checksum stepped over the four words in order |
| `Strides.WordStep` | CardPang/Pods/leveldb-library/util/crc32c.cc:349-358 | the same for one word and the turn of the four |
| `Crc32cStrides.ExtendByTables` | CardPang/Pods/leveldb-library/util/crc32c.cc:276-376 | by tables, four interleaved partial checksums, words and single bytes, for any length and alignment: the checksum defined one bit at a time |
| `LogFormat.CrcIsSound` | CardPang/Pods/leveldb-library/db/log_writer.cc:82-108 | the stamp that the writer stores is accepted by the reader |
| `LogFiles.Writer.AddRecord` | CardPang/Pods/leveldb-library/db/log_writer.cc:34-80 | appends exactly the fragments, with trailers, that the record has at this offset |
| `LogFiles.Writer.EmitPhysicalRecord` | CardPang/Pods/leveldb-library/db/log_writer.cc:82-108 | appends header and payload and moves the block offset |
| `LogLayout.RecordIsLaid` | CardPang/Pods/leveldb-library/db/log_writer.cc:34-108 | any record at any offset is cut into FULL, or FIRST, MIDDLE*, LAST pieces whose payloads are the record; each lies in one block behind a trailer of zeros only where no header fits, has its stamp, length and type in front, and all but the last end with their block |
| `LogLayout.StampIs` | CardPang/Pods/leveldb-library/db/log_writer.cc:99-102 | the stamp of a piece is the masked checksum of its type byte and payload |
| `LogFiles.Reader.ReadPhysicalRecord` | CardPang/Pods/leveldb-library/db/log_reader.cc:189-271 | agrees with the function on bytes for any data: code, fragment, new buffer, drops reported |
| `LogFiles.Reader.ReadRecord` | CardPang/Pods/leveldb-library/db/log_reader.cc:56-174 | agrees with the function on bytes for any data; what that function gives of any file is LogFragments.AnyFileIsRead |
| `LogFragments.AnyFileIsRead` | CardPang/Pods/leveldb-library/db/log_reader.cc:56-271 | any file is a sequence of pieces that pass the test at their place and of gaps with the bytes reported for them; the records delivered are the FULL pieces and the FIRST, MIDDLE*, LAST runs of consecutive pieces, the reports all that is not in one |
| `LogFragments.ReadAnyFile` | CardPang/Pods/leveldb-library/db/log_reader.cc:56-271 | the same of a new reader and all that it returns and reports |
| `LogFragments.RecordIsRun` | CardPang/Pods/leveldb-library/db/log_reader.cc:86-133 | every record delivered is the payload of one FULL piece or of one run FIRST, MIDDLE*, LAST of consecutive pieces |
| `LogFragments.OutOfPlaceIsReported` | CardPang/Pods/leveldb-library/db/log_reader.cc:108-133 | a MIDDLE or LAST outside a run is reported with its length and never delivered |
| `LogFragments.NothingVanishes` | CardPang/Pods/leveldb-library/db/log_reader.cc:56-174 | conservation: the bytes delivered, reported and still gathered are the bytes of all pieces and gaps |
| `LogReplay.TruncatedLogFrom` | CardPang/Pods/leveldb-library/db/log_reader.cc:56-271 | a log written from any offset, cut at any byte: reading returns exactly the complete records, in order, and reports nothing |
| `LogReplay.TruncatedLogRoundTrip` | CardPang/Pods/leveldb-library/db/log_reader.cc:56-271 | the same for a whole log with its checksum, verified or not |
| `LogReplay.CompleteAll` | CardPang/Pods/leveldb-library/db/log_writer.cc:34-80 | without a cut all records come back |
| `LogReplay.LogFromConcat` | CardPang/Pods/leveldb-library/db/log_writer.cc:27-32 | a writer reopened at the file's length goes on as if it had never stopped |
| `LogFiles.WriteCutRead` | CardPang/Pods/leveldb-library/db/log_reader.cc:56-271 | writer and reader together: write, cut, read gives the complete records and no report |
| `WriteBatches.WriteBatch.Add` | CardPang/Pods/leveldb-library/db/write_batch.cc:98-109 | one more update at the end, count in the header |
| `WriteBatches.WriteBatch.Append` | CardPang/Pods/leveldb-library/db/write_batch.cc:144-148 | the other batch's updates after this one's |
| `WriteBatches.WriteBatch.Iterate` | CardPang/Pods/leveldb-library/db/write_batch.cc:42-80 | what it makes of any bytes: updates in order, or an error |
| `WriteBatches.WriteBatch.IteratesUpdates` | CardPang/Pods/leveldb-library/db/write_batch.cc:42-109 | a batch gives back exactly the updates put into it |
| `WriteBatches.BatchReads` | CardPang/Pods/leveldb-library/db/write_batch.cc:42-137 | the bytes of a batch tell its sequence number, and its updates in order |
| `Grammars.StringIff` | CardPang/Pods/leveldb-library/util/coding.cc:112-190 | on any input a length-prefixed string is read exactly if a varint of at most five bytes with its length, in 32 bits, and that many bytes stand in front |
| `BatchGrammar.BatchIff` | CardPang/Pods/leveldb-library/db/write_batch.cc:42-80 | Iterate accepts any bytes as a batch with these updates if and only if they are a header with their number and one record of theirs after the other, and nothing else |
| `BatchGrammar.HandedOnIff` | CardPang/Pods/leveldb-library/db/write_batch.cc:42-80 | of any bytes the handler gets the updates of the records in front of the first place where no record starts |
| `WriteBatches.WriteBatch.InsertInto` | CardPang/Pods/leveldb-library/db/write_batch.cc:113-137 | update i is inserted with the batch's sequence number plus i |
| `GroupCommit.BuildBatchGroup` | CardPang/Pods/leveldb-library/db/db_impl.cc:1260-1306 | the longest prefix of the queue in which every request may join, and the concatenation of its batches |
| `GroupCommit.GroupIsBounded` | CardPang/Pods/leveldb-library/db/db_impl.cc:1266-1290 | a group without sync carries no sync request, and one of several batches stays within 1048576 bytes, or within 131072 bytes above a first batch of at most 131072; a request that may not join asks for a sync that the group has not, or would exceed this |
| `GroupCommit.StepKeepsInv` | CardPang/Pods/leveldb-library/db/db_impl.cc:1185-1256 | every step of every thread keeps the invariant of queue, working threads, log, memtable and sleepers, also while the head waits in MakeRoomForWrite without the lock |
| `GroupCommit.EveryBatchOnce` | CardPang/Pods/leveldb-library/db/db_impl.cc:1185-1256 | when the queue is empty, log and memtable hold every batch once, in order of arrival, with consecutive sequence numbers |
| `GroupCommit.ReaderSeesWholeGroups` | CardPang/Pods/leveldb-library/db/db_impl.cc:1208-1234 | a reader that took LastSequence at any moment sees, at any later moment, exactly the batches published by then: all of a group or none |
| `GroupCommit.OnlyTheHeadWorks` | CardPang/Pods/leveldb-library/db/db_impl.cc:1192-1234 | mutual exclusion without a flag: in every state of every run at most one thread is past the waiting loop, it is the head of the queue, and it is not done |
| `GroupCommit.NoDeadlock` | CardPang/Pods/leveldb-library/db/db_impl.cc:1192-1253 | as long as a caller has not returned, some thread can take a working step: no wake-up is lost |
| `GroupCommit.WorkDecreases` | CardPang/Pods/leveldb-library/db/db_impl.cc:1236-1253 | working steps cannot go on for ever without new callers |
| `CrashRecovery.RecoverLogFile` | CardPang/Pods/leveldb-library/db/db_impl.cc:371-486 | what it makes of any file, with and without paranoid_checks: an error, or the updates in order, in tables cut whenever the memtable is full and in the memtable that is left; the memtable is kept if and only if the log is reused and no table was written; and the largest sequence number named, in 64 bits |
| `CrashRecovery.ReplayedBelowHighest` | CardPang/Pods/leveldb-library/db/db_impl.cc:432-437 | no sequence number of good records is above the largest named, so that later numbers are new |
| `CrashRecovery.SalvagedAboveIff` | CardPang/Pods/leveldb-library/db/db_impl.cc:423-437 | without paranoid_checks, for any records, a number recovered is above the largest named if and only if some record holds updates beyond what the header of every record says |
| `CrashRecovery.CutLogRecovers` | CardPang/Pods/leveldb-library/db/db_impl.cc:371-436 | a log cut at any byte, whatever numbers its records have, recovers the longest prefix of whole groups that ends within it, whatever paranoid_checks is |
| `CrashRecovery.CutLogRecoversGroups` | CardPang/Pods/leveldb-library/db/db_impl.cc:371-436 | a log of group commits that goes on from any number recovers numbered without a gap |
| `CrashRecovery.WriteGroup` | CardPang/Pods/leveldb-library/db/db_impl.cc:1208-1216 | the head of the queue builds the batch of its group, stamps its sequence number and appends it: the file is then the log with one more record |
| `CrashRecovery.CrashKeepsFinishedWrites` | CardPang/Pods/leveldb-library/db/db_impl.cc:1185-1256 | if the log of a state of a run has reached the disk, whatever is cut off later, all that was published in that state is recovered as part of whole groups |
| `TornLogs.ReopenedLogIsRead` | CardPang/Pods/leveldb-library/db/db_impl.cc:456-478 | a log cut between two fragments and reused: all whole records and all appended ones are read back, and the fragments without an end are reported if and only if they hold a byte |
| `TornLogs.TearInsideFragment` | CardPang/Pods/leveldb-library/db/log_reader.cc:56-271 | cut inside a fragment and reused: the bytes at the tear decide. Past the end of the file: nothing that follows is read or reported; too long for the block, zeros or a wrong checksum: the rest of the block is skipped and reported and the reader goes on with the next; otherwise they are the next fragment |
| `Durability.CrashKeepsInv` | CardPang/Pods/leveldb-library/db/db_impl.cc:283-369 | losing any part of the memtables keeps the invariant, the history being the one without what was lost |
| `Durability.FinishKeepsDbInvIff` | CardPang/Pods/leveldb-library/db/db_impl.cc:860-876 | one installation keeps the invariant under crashes if and only if its outputs meet no flushed file and no value resurfaces on disk; it is not enough that a memtable hides it |
| `Durability.SafeFromCrashIff` | CardPang/Pods/leveldb-library/db/db_impl.cc:860-876 | every way of finishing a merge keeps it if and only if the condition holds, which names no output |
| `Durability.CrashShowsDeleted` | CardPang/Pods/leveldb-library/db/db_impl.cc:860-876 | if a value resurfaces on disk above the last flush, a crash that loses the memtables makes every reader see the deleted value |
| `HiddenValue.RunToHiddenValue` | CardPang/Pods/leveldb-library/db/db_impl.cc:688-767 | a run from the empty store, every step safe, to an automatic merge that keeps every read while the store runs; however it is finished, a crash that loses the memtable brings a deleted value back |
| `Durability.WriteTable` | CardPang/Pods/leveldb-library/db/db_impl.cc:491-533 | a table that recovery writes is a cut of the memtable and a flush to level 0, and both keep the invariant |
| `Durability.LostMemoryBringsBack` | CardPang/Pods/leveldb-library/db/db_impl.cc:860-876 | when a value resurfaces on disk the deleted value is read, at the smaller of the last flush and the smallest snapshot |
| `Durability.DbStepKeepsInv` | CardPang/Pods/leveldb-library/db/db_impl.cc:688-767 | every safe step of the store, every crash and every cut of a memtable keep the invariant |
| `Durability.CrashedRunReadsLikeHistory` | CardPang/Pods/leveldb-library/db/db_impl.cc:1100-1145 | in every state of every safe run with any number of crashes every readable snapshot reads as the plain rule over what was written and survived |
| `Reopening.ReopenReadsWhatSurvived` | CardPang/Pods/leveldb-library/db/db_impl.cc:283-436 | any number of logs, each cut at a byte of its own: the opened store has exactly the entries of the whole groups in its memtable, keeps the invariant, and every read equals the plain rule over the history without the others |
| `Reopening.Open` | CardPang/Pods/leveldb-library/db/db_impl.cc:283-369 | from any manifest and any log files: the version of the one, the updates of the others, oldest log first, in tables and the memtable, and the larger of their last sequence numbers |
| `SkipLists.PublishKeepsInv` | CardPang/Pods/leveldb-library/db/skiplist.h:362-367 | the store that publishes a node keeps every level a sorted sublist of the one below |
| `SkipLists.WalkStepSound` | CardPang/Pods/leveldb-library/db/skiplist.h:260-281 | one iteration of a search keeps its invariant or ends with the exact answer |
| `SkipListReaders.StepKeepsInv` | CardPang/Pods/leveldb-library/db/skiplist.h:337-368 | every single store of Insert and every load of a reader keeps the invariant |
| `SkipListReaders.WriterNeverStuck` | CardPang/Pods/leveldb-library/db/skiplist.h:337-368 | Insert never loads an unset link nor uses an unset entry of prev, for any random height |
| `SkipListReaders.ReaderNeverMeetsUnsetLink` | CardPang/Pods/leveldb-library/db/skiplist.h:260-281 | wherever a reader stands, the link it loads next has been stored |
| `SkipListReaders.SearchIsExactAtItsLastLoad` | CardPang/Pods/leveldb-library/db/skiplist.h:260-322 | a search that interleaves with inserts is exact for the keys present at its last load, which include all keys inserted before it began |
| `SkipListReaders.PresentKeyIsFound` | CardPang/Pods/leveldb-library/db/skiplist.h:370-378 | a key present when the search began is found |
| `SkipListReaders.ReadDecreases` | CardPang/Pods/leveldb-library/db/skiplist.h:260-281 | each iteration of a search brings it closer to its end |
| `SkipListOps.SkipList.FindGreaterOrEqual` | CardPang/Pods/leveldb-library/db/skiplist.h:260-281 | the first key at or after, and the predecessors at every level |
| `SkipListOps.SkipList.FindLessThan` | CardPang/Pods/leveldb-library/db/skiplist.h:283-302 | the last key before, or the head |
| `SkipListOps.SkipList.FindLast` | CardPang/Pods/leveldb-library/db/skiplist.h:304-322 | the last key, or the head of an empty list |
| `SkipListOps.SkipList.Contains` | CardPang/Pods/leveldb-library/db/skiplist.h:370-378 | true if and only if the key is in the set |
| `SkipListOps.SkipList.Insert` | CardPang/Pods/leveldb-library/db/skiplist.h:336-368 | the set of keys gains exactly the new one; it is linked on exactly as many levels as its height, and the list is as high as its highest node |
| `Coding.Varint32RoundTrip` | CardPang/Pods/leveldb-library/util/coding.cc:113-130 | every 32-bit value written is read back and the bytes after it are left |
| `BlockFormat.EntryDecodes` | CardPang/Pods/leveldb-library/table/block.cc:54-74 | decoding an entry gives back its three lengths, by the fast path or the slow one |
| `BlockGrammar.EntryIff` | CardPang/Pods/leveldb-library/table/block.cc:54-74 | any bytes are accepted as an entry with these lengths if and only if three varints of at most five bytes with them stand in front and enough bytes behind; the fast path makes no difference |
| `Blocks.BlockBuilder.Add` | CardPang/Pods/leveldb-library/table/block_builder.cc:71-106 | the buffer is the encoding of the entries so far: each shares the longest prefix with the one before, and none at a restart point; every interval-th entry is one, and no other |
| `Blocks.BlockBuilder.Finish` | CardPang/Pods/leveldb-library/table/block_builder.cc:62-69 | entries, restart offsets and their number; the restart points are the entries 0, interval, 2 * interval and so on |
| `BlockIters.BlockIsReadable` | CardPang/Pods/leveldb-library/table/block.cc:54-74 | in a finished block every restart word leads to its entry and every entry decodes to its key and value |
| `BlockIters.Iter.ParseNextKey` | CardPang/Pods/leveldb-library/table/block.cc:224-250 | from a position before entry m to entry m: key rebuilt, value located |
| `BlockIters.Iter.Next` | CardPang/Pods/leveldb-library/table/block.cc:137-140 | one entry forward |
| `BlockIters.Iter.Prev` | CardPang/Pods/leveldb-library/table/block.cc:142-161 | one entry back, through the restart points: undoes Next |
| `BlockIters.Iter.Seek` | CardPang/Pods/leveldb-library/table/block.cc:163-201 | the first entry not below the target, for any transitive order |
| `BlockIters.Iter.SeekToFirst` | CardPang/Pods/leveldb-library/table/block.cc:203-206 | the first entry |
| `BlockIters.Iter.SeekToLast` | CardPang/Pods/leveldb-library/table/block.cc:208-213 | the last entry |
| `BlockIters.WriteAndRead` | CardPang/Pods/leveldb-library/table/block_builder.cc:62-106 | entries added come back unchanged and in order, for any interval |
| `Separators.ShortestSeparator` | CardPang/Pods/leveldb-library/util/comparator.cc:29-51 | behind the longest common prefix one byte of start counted up, if it is below 255 and stays below limit, otherwise start itself; it lies in [start, limit), and if it is not start nothing shorter lies strictly between |
| `Separators.ShortSuccessor` | CardPang/Pods/leveldb-library/util/comparator.cc:53-64 | the bytes up to the first one below 255, which is counted up, or the key itself if there is none; nothing shorter is above the key |
| `Separators.InternalSeparator` | CardPang/Pods/leveldb-library/db/dbformat.cc:69-86 | the shortest separator of the user keys with the earliest number if it got shorter, otherwise start; not before start, before limit, and no key with limit's user key slips between start and it |
| `Separators.InternalSuccessor` | CardPang/Pods/leveldb-library/db/dbformat.cc:88-101 | the short successor of the user key with the earliest number if it got shorter, otherwise the key; not before the key |
| `Blooms.CreateFilter` | CardPang/Pods/leveldb-library/util/bloom.cc:28-57 | at least 64 bits and as many as asked for; a bit is set if and only if it is a probe of one of the keys; so every key may match |
| `Blooms.KeyMayMatch` | CardPang/Pods/leveldb-library/util/bloom.cc:59-80 | true exactly when the filter has all probe bits, or announces another encoding; false for less than two bytes |
| `FilterBlocks.FilterBlockBuilder.StartBlock` | CardPang/Pods/leveldb-library/table/filter_block.cc:21-27 | filters up to the one for the new offset; the i-th one holds the keys of the blocks that start in the i-th range of 2KB and no others, pending keys are those of the current range |
| `FilterBlocks.FilterBlockBuilder.Finish` | CardPang/Pods/leveldb-library/table/filter_block.cc:35-75 | the i-th filter is empty if no key belongs to the i-th range of 2KB, else the Bloom filter of exactly its keys; every key added is in the filter of the range its block starts in |
| `FilterBlocks.BlockMayMatch` | CardPang/Pods/leveldb-library/table/filter_block.cc:77-104 | reads the filter of the offset's 2KB range out of the block and asks it |
| `Tables.InternalGet` | CardPang/Pods/leveldb-library/table/table.cc:216-244 | the entry reported has the looked-up user key exactly when the table has one at or below the snapshot, and is then the newest such |
| `TableBuilders.TableBuilder.Add` | CardPang/Pods/leveldb-library/table/table_builder.cc:94-123 | one more entry in the current block, which is closed exactly when it is full; index keys written so far separate their blocks; filter knows the key |
| `TableBuilders.TableBuilder.Flush` | CardPang/Pods/leveldb-library/table/table_builder.cc:125-139 | same entries, block closed, index entry pending |
| `TableBuilders.TableBuilder.Finish` | CardPang/Pods/leveldb-library/table/table_builder.cc:198-253 | a table with complete index and filter and exactly the entries added |
| `TableBuilders.BuildAndGet` | CardPang/Pods/leveldb-library/table/table_builder.cc:94-253 | build from sorted entries with any block cuts and sizes, then look up: newest visible entry, with or without filter |
| `Bits.MaskIsRemainder` | CardPang/Pods/leveldb-library/util/cache.cc:105-110 | masking with a power of two less one is the remainder |
| `HandleTables.Bucket` | CardPang/Pods/leveldb-library/util/cache.cc:105-110 | the masked hash is the remainder by the length, which is a power of two |
| `HandleTables.NewLength` | CardPang/Pods/leveldb-library/util/cache.cc:122-126 | the least power of two, from 4 on, that is at least the number of elements |
| `HandleTables.HandleTable.Lookup` | CardPang/Pods/leveldb-library/util/cache.cc:74-76 | agrees with the map |
| `HandleTables.HandleTable.Insert` | CardPang/Pods/leveldb-library/util/cache.cc:78-92 | the map gains or replaces one name and the old handle is returned |
| `HandleTables.HandleTable.Remove` | CardPang/Pods/leveldb-library/util/cache.cc:94-102 | the map loses the name and its handle is returned |
| `HandleTables.HandleTable.Resize` | CardPang/Pods/leveldb-library/util/cache.cc:122-146 | the map is unchanged, all chains are right for the new length, and the elements are no more than the buckets |
| `LruCaches.RefKeepsCore` | CardPang/Pods/leveldb-library/util/cache.cc:217-223 | taking a reference keeps lists, counts, usage and lives in agreement |
| `LruCaches.ReleaseKeepsCore` | CardPang/Pods/leveldb-library/util/cache.cc:225-237 | dropping one does too |
| `LruCaches.EraseKeepsCore` | CardPang/Pods/leveldb-library/util/cache.cc:307-316 | unlinking a handle does too, and deletes it exactly when no client holds it |
| `LruCaches.LRUCache.Lookup` | CardPang/Pods/leveldb-library/util/cache.cc:252-259 | the handle under the name, off the LRU list, one more reference |
| `LruCaches.LRUCache.Release` | CardPang/Pods/leveldb-library/util/cache.cc:261-264 | deleted at the last reference, newest of the LRU list when only the cache is left |
| `LruCaches.LRUCache.Insert` | CardPang/Pods/leveldb-library/util/cache.cc:266-303 | the in-use list loses only the replaced handle and gains the new one; the oldest handles of the LRU list are deleted, oldest first, none while usage is within capacity; after it usage is within capacity or the LRU list is empty |
| `LruCaches.LRUCache.Erase` | CardPang/Pods/leveldb-library/util/cache.cc:318-321 | the name is gone, the handle lives as long as clients hold it |
| `LruCaches.LRUCache.Prune` | CardPang/Pods/leveldb-library/util/cache.cc:323-333 | the LRU list is emptied and its handles deleted, oldest first; handles in use stay |
| `LruCaches.EveryHandleDeletedOnce` | CardPang/Pods/leveldb-library/util/cache.cc:205-237 | when all is released and pruned, every handle ever made has been deleted exactly once |
| `LruCaches.HeldIsAlive` | CardPang/Pods/leveldb-library/util/cache.cc:225-237 | a handle that a client holds has not been deleted |
| `Manifests.SaveLevel` | CardPang/Pods/leveldb-library/db/version_set.cc:695-754 | the surviving files of base and additions, sorted by smallest key and number |
| `Manifests.SortedUnique` | CardPang/Pods/leveldb-library/db/version_set.cc:590-606 | a sorted file list is determined by its files |
| `Manifests.ReplayStepIff` | CardPang/Pods/leveldb-library/db/version_set.cc:650-692 | applying an edit to the current files and giving it to the replaying builder have the same effect if and only if no number that it adds belongs to another file deleted before |
| `Manifests.ReusedNumberBringsBack` | CardPang/Pods/leveldb-library/db/version_set.cc:650-692 | a number used for two files of a level: replaying brings the first one back |
| `Manifests.ReplayIsUnique` | CardPang/Pods/leveldb-library/db/version_set.cc:886-1000 | what one builder saves from all edits is the current list |
| `VersionSets.LoggedEditIff` | CardPang/Pods/leveldb-library/db/version_set.cc:801-884 | the same over all levels: the manifest with the edit replays to the new files if and only if the edit revives no file |
| `VersionSets.VersionSet.LogAndApply` | CardPang/Pods/leveldb-library/db/version_set.cc:801-884 | each level becomes what a builder with this edit saves; the log numbers are those of the edit, or the old ones; one record more, after a snapshot in a new manifest, which is the edit with exactly these, the next file and the last sequence number; every prefix of the manifest replays to its version if and only if the edit revives no file |
| `VersionSets.VersionSet.NewFileNumber` | CardPang/Pods/leveldb-library/db/version_set.h:194 | a number that no file of the version has, and the invariant is kept |
| `VersionSets.VersionSet.ReuseFileNumber` | CardPang/Pods/leveldb-library/db/version_set.h:196-203 | the number is given back only if it was the last one, and the invariant is kept |
| `DatabaseEdits.DatabaseEditIsSafe` | CardPang/Pods/leveldb-library/db/db_impl.cc:718-725 | edits that add files under new numbers or move a file one level down revive nothing and can always be logged |
| `DatabaseEdits.DatabaseEditSinks` | CardPang/Pods/leveldb-library/db/db_impl.cc:718-725 | and keep it so: no level below a file has ever had its number |
| `VersionSets.SnapshotReplays` | CardPang/Pods/leveldb-library/db/version_set.cc:1088-1116 | the snapshot record names the comparator, pointers and files and replays to the files it was made from |
| `ManifestRecovery.Recover` | CardPang/Pods/leveldb-library/db/version_set.cc:886-1000 | what it makes of any bytes: all edits through one builder give the files, each number is that of the last edit that has it; an error if and only if bytes are dropped, a record does not decode or names another comparator, or no record has a next file, log or last sequence number |
| `ManifestRecovery.CutManifestHolds` | CardPang/Pods/leveldb-library/db/version_set.cc:886-1000 | a manifest cut at any byte holds the longest prefix of its edits that ends within it |
| `ManifestRecovery.RecoverCut` | CardPang/Pods/leveldb-library/db/version_set.cc:886-1000 | cut at any byte after its first edit, it recovers the files, log numbers and last sequence number as they were after the last edit that is whole, with a next file number above every file |
| `ManifestRecovery.Reopen` | CardPang/Pods/leveldb-library/db/version_set.cc:886-1000 | uncut, it recovers the current files, log numbers and last sequence number |
| `ManifestRecovery.LogAndReopen` | CardPang/Pods/leveldb-library/db/version_set.cc:801-1000 | log an edit, write the manifest out and recover: the files that the edit installs, its log numbers or the old ones, the next file number, and the last sequence number |
| `EditCodec.EditRoundTrip` | CardPang/Pods/leveldb-library/db/version_edit.cc:41-205 | decoding an encoded edit gives the edit back, whatever the order of its deletions |
| `EditCodec.RecordReads` | CardPang/Pods/leveldb-library/db/version_edit.cc:41-205 | whatever EncodeTo writes for an edit is read back as the edit |
| `EditCodec.DecodeFrom` | CardPang/Pods/leveldb-library/db/version_edit.cc:109-205 | the loop over tagged fields agrees with the function on any bytes, errors included |
| `EditGrammar.EditIff` | CardPang/Pods/leveldb-library/db/version_edit.cc:109-205 | it accepts any bytes as this edit if and only if they are a sequence of whole fields, each with a known tag and a level below 7, of which the last of each single field, all pointers and new files in order, and the deletions make the edit |
| `ObsoleteFiles.StepKeepsInv` | CardPang/Pods/leveldb-library/db/db_impl.cc:223-278 | every step of flush, compaction, readers and collection keeps the files that are needed |
| `ObsoleteFiles.NeededFilesExist` | CardPang/Pods/leveldb-library/db/db_impl.cc:223-278 | in every state of every run all files of live versions, compaction inputs and outputs, and the table about to be installed exist |
| `ObsoleteFiles.CollectionIsComplete` | CardPang/Pods/leveldb-library/db/db_impl.cc:223-278 | behind a collection in any run the tables on disk are exactly those of live versions and those that a compaction has written so far; with no reader and no compaction, those of the current version |
| `ObsoleteFiles.CollectionIsSafeIff` | CardPang/Pods/leveldb-library/db/db_impl.cc:491-566 | a collection at any moment is safe if and only if no flushed table waits for its LogAndApply |
| `ObsoleteFiles.SecondCollectorLosesTable` | CardPang/Pods/leveldb-library/db/db_impl.cc:491-566 | a run in which a collector other than the background thread would delete the new table |
| `ProtoWire.EncodeVarint` | CardPang/Pods/nanopb/pb_encode.c:599-619 | the base-128 digits of the value, at most ten bytes for 64 bits |
| `ProtoWire.VarintRoundTrip` | CardPang/Pods/nanopb/pb_decode.c:255-275 | every 64-bit value is read back, bytes after it untouched |
| `ProtoWire.Varint32RoundTrip` | CardPang/Pods/nanopb/pb_decode.c:187-247 | every 32-bit value is read back by the 32-bit reader |
| `WireFormat.VarintIs` | CardPang/Pods/nanopb/pb_encode.c:599-619 | what is written is the digits of the value to base 128, lowest first, all but the last marked, without a needless last byte |
| `WireFormat.VarintIsUnique` | CardPang/Pods/nanopb/pb_encode.c:599-619 | and these are the only such bytes |
| `WireFormat.Varint64Reads` | CardPang/Pods/nanopb/pb_decode.c:255-275 | any varint of at most ten bytes is read as its digits in 64 bits, a longer one is an error |
| `WireFormat.ShortReads` | CardPang/Pods/nanopb/pb_decode.c:187-247 | the 32-bit reader reads at most five bytes as their digits, and rejects bits beyond the 32nd |
| `WireFormat.LongReads` | CardPang/Pods/nanopb/pb_decode.c:200-236 | it reads more than five bytes exactly if those from the sixth on have no bits or continue a negative number |
| `WireFormat.LittleAt` | CardPang/Pods/nanopb/pb_encode.c:632-656 | byte i of a fixed word is v / 256^i % 256 |
| `ProtoWire.ZigzagRoundTrip` | CardPang/Pods/nanopb/pb_encode.c:621-630 | signed values survive zigzag |
| `ProtoBytes.ZigzagIs` | CardPang/Pods/nanopb/pb_encode.c:621-630 | 2 * v for v >= 0 and -2 * v - 1 below |
| `ProtoBytes.UnzigzagIs` | CardPang/Pods/nanopb/pb_decode.c:1269-1281 | half of an even number, and minus half of an odd one less one |
| `ProtoBytes.VarintField` | CardPang/Pods/nanopb/pb_encode.c:760-824 | the bytes of a bool, integer or zigzag value are the varint of 0 or 1, of the value in 64 bits, or of its zigzag number |
| `ProtoBytes.SmallSint` | CardPang/Pods/nanopb/pb_encode.c:808-824 | an sint value takes one byte if and only if it is in [-64, 63] |
| `ProtoBytes.FixedField` | CardPang/Pods/nanopb/pb_encode.c:826-841 | four or eight bytes, lowest first |
| `ProtoBytes.WireTypes` | CardPang/Pods/nanopb/pb_encode.c:666-698 | 0 for bool and integers, 1 for 64-bit words, 5 for 32-bit words, 2 for all else |
| `ProtoBytes.KeyIs` | CardPang/Pods/nanopb/pb_encode.c:660-664 | the varint of 8 * tag + wire type, one byte for tags below 16 |
| `ProtoBytes.DelimitedIs` | CardPang/Pods/nanopb/pb_encode.c:700-706 | the varint of the length and the bytes |
| `ProtoBytes.OmittedIff` | CardPang/Pods/nanopb/pb_encode.c:237-328 | a proto3 field writes nothing if and only if it is false, zero or empty, or a submessage that writes nothing |
| `ProtoBytes.NumberReads` | CardPang/Pods/nanopb/pb_decode.c:1329-1412 | a number field reads any varint of at most ten bytes as the number it stands for in its width, and rejects what does not fit |
| `ProtoBytes.BoolReads` | CardPang/Pods/nanopb/pb_decode.c:1318-1327 | a bool reads any varint of 32 bits and is true if it is not zero |
| `ProtoBytes.FixedReads` | CardPang/Pods/nanopb/pb_decode.c:1283-1316 | a fixed field reads any word, byte i of which is v / 256^i % 256 |
| `ProtoEncode.OStream.Write` | CardPang/Pods/nanopb/pb_encode.c:103-121 | succeeds exactly when there is room; counts always, appends unless sizing; the buffer never overruns |
| `ProtoEncode.EncodeArray` | CardPang/Pods/nanopb/pb_encode.c:144-233 | packed or one by one: exactly the bytes of the array, or failure if it is too long or there is no room |
| `ProtoEncode.EncodeField` | CardPang/Pods/nanopb/pb_encode.c:332-417 | exactly the bytes of the field; absent and default fields write nothing |
| `ProtoEncode.EncodeSubmessage` | CardPang/Pods/nanopb/pb_encode.c:708-756 | sizing pass and writing pass agree at every depth: "submsg size changed" is unreachable |
| `ProtoEncode.Encode` | CardPang/Pods/nanopb/pb_encode.c:519-541 | counting or writing, success exactly when everything fits, and then exactly the bytes of the message |
| `ProtoEncode.GetEncodedSize` | CardPang/Pods/nanopb/pb_encode.c:558-567 | the exact length of the encoding |
| `PartialMessages.EncodedIsItems` | CardPang/Pods/nanopb/pb_encode.c:519-541 | the bytes of a message are those of its present fields in the order of the descriptor, scalar arrays packed, each array entry of any other type with its own key |
| `ProtoEncode.EncodeToFit` | CardPang/Pods/nanopb/pb_encode.c:558-567 | a buffer of the announced size is always enough |
| `ProtoDecode.FieldIter.Next` | CardPang/Pods/nanopb/pb_common.c:20-76 | next field or wrap to the first; counts the required fields passed |
| `ProtoDecode.FieldIter.FindTag` | CardPang/Pods/nanopb/pb_common.c:78-97 | first field with the tag in cyclic order, else back where it started |
| `ProtoDecode.DecodeVarint` | CardPang/Pods/nanopb/pb_decode.c:255-275 | agrees with the function on any bytes, overflow included |
| `ProtoDecode.DecodeVarint32` | CardPang/Pods/nanopb/pb_decode.c:187-247 | agrees with the function on any bytes, sign extension and overflow included |
| `ProtoDecode.SkipField` | CardPang/Pods/nanopb/pb_decode.c:321-331 | skips one field of any wire type, or fails as specified |
| `ProtoDecode.DecodeStaticField` | CardPang/Pods/nanopb/pb_decode.c:406-480 | agrees with the function on any bytes for all repetition rules, the error after a bad item of a packed array included; what is then in the structure is said by the laws of WireLaws |
| `FieldBits.WithBitSet` | CardPang/Pods/nanopb/pb_decode.c:1012-1017 | setting bit i of the words of fields_seen adds i to the numbers marked |
| `FieldBits.HasAll` | CardPang/Pods/nanopb/pb_decode.c:1051-1067 | whole words against all ones and the rest against the shifted mask: true if and only if every bit below the count is set |
| `ProtoDecode.AllBits` | CardPang/Pods/nanopb/pb_decode.c:1035-1070 | the bits below the number of required fields are all set if and only if each of the first 64 has been seen |
| `ProtoDecode.DecodeNoInit` | CardPang/Pods/nanopb/pb_decode.c:925-1073 | agrees with the function on any bytes and any starting structure; which bytes it accepts, and as what, is MessageGrammar.MessageIff |
| `ProtoDecode.DecodeMessage` | CardPang/Pods/nanopb/pb_decode.c:1075-1087 | defaults first, then the same |
| `MessageGrammar.MessageIff` | CardPang/Pods/nanopb/pb_decode.c:925-1073 | any bytes decode to a message if and only if they are a list of fields, in any order and number, overlong numbers, unknown fields and anything behind a zero key let through, all of which fit and none of which is missing, and the message is what the fields mean, at any depth |
| `WireItems.MessageDecoded` | CardPang/Pods/nanopb/pb_decode.c:925-1073 | the fields of any list, encoded one after the other, decode to what they mean, errors included |
| `WireLaws.ArrayGathers` | CardPang/Pods/nanopb/pb_decode.c:424-464 | packed and single entries of an array, in any mix, append in order to what it holds; one too many is ArrayOverflow |
| `WireLaws.UnpackedArrayReads` | CardPang/Pods/nanopb/pb_decode.c:454-464 | a scalar array written entry by entry is read in order behind what is there; one too many is ArrayOverflow |
| `WireLaws.LastCounts` | CardPang/Pods/nanopb/pb_decode.c:406-423 | the last occurrence of a plain field counts |
| `WireLaws.SubmessagesMerge` | CardPang/Pods/nanopb/pb_decode.c:1503-1525 | two occurrences of a submessage are one with the fields of both |
| `WireLaws.UnionStartsAfresh` | CardPang/Pods/nanopb/pb_decode.c:466-475 | a member of a union starts from its defaults, whatever was there |
| `WireLaws.UnionHasOne` | CardPang/Pods/nanopb/pb_decode.c:466-475 | and the other members are gone |
| `WireLaws.MissingIff` | CardPang/Pods/nanopb/pb_decode.c:1035-1070 | what decodes lacks no required field among the first 64 of its type, at any depth, and what fails for one lacks it |
| `PartialMessages.PartialDecodes` | CardPang/Pods/nanopb/pb_decode.c:1035-1070 | a message with any of its fields left out, at any depth, is MissingRequiredField if and only if one of them is required and among the first 64 of its type; otherwise it is the message with defaults for them |
| `ProtoBounds.DecodedFits` | CardPang/Pods/nanopb/pb_decode.c:406-480 | whatever bytes arrive, a message that decodes fits its structure: arrays, strings and bytes within their sizes, numbers within their widths, one member per union |
| `ProtoRoundTrip.DefaultIsZero` | CardPang/Pods/nanopb/pb_encode.c:237-328 | a value that proto3 leaves out arrives as the zero of its type |
| `ProtoRoundTrip.ValueRoundTrip` | CardPang/Pods/nanopb/pb_decode.c:1318-1548 | any value of any type is read back and the bytes after it are left |
| `ProtoRoundTrip.RoundTrip` | CardPang/Pods/nanopb/pb_decode.c:836-906 | so every message of a type without such defaults comes back |
| `ProtoRoundTrip.Transmit` | CardPang/Pods/nanopb/pb_encode.c:519-567 | encoder and decoder together: a message that was sent is received if and only if its strings leave room for their terminators, and is then the message sent if and only if no omitted proto3 field has another default |
| `ProtoRoundTrip.StringSurvivesIffTerminated` | CardPang/Pods/nanopb/pb_decode.c:1468-1501 | a string value is read back if and only if it leaves room for its terminator |
| `ProtoRoundTrip.DecodesIffTerminated` | CardPang/Pods/nanopb/pb_decode.c:1468-1501 | what the encoder writes for a message is decoded if and only if every string that was written leaves room for its terminator, at any depth; otherwise the error is that of the string |
| `ProtoRoundTrip.RoundTripIff` | CardPang/Pods/nanopb/pb_decode.c:925-1087 | decoding an encoded message succeeds and gives it back, up to the data of absent fields, if and only if no proto3 field that was left out has another default in its descriptor, at any depth; through nesting, packing, oneofs and omission |
| `ProtoRoundTrip.OldReaderSkipsNewFields` | CardPang/Pods/nanopb/pb_decode.c:953-988 | a reader that lacks the last fields of a type skips them and decodes the others as RoundTripIff says |

## Left out

- The Swift application, its view controllers and the Firebase and Google headers: user interface and declarations.
- Environment, file names, logging, threads and locks (`env_posix.cc`, `filename.cc`, `port/`): a file is a byte
  sequence, a mutex is the atomicity of a step.
- Repair (`db/repair.cc`) and the C interface.
- Compaction scores, seek statistics and byte-size limits: which level or file starts a compaction, where a manual
  range is shortened, when a block or an output is full and whether larger inputs fit are arbitrary choices, so
  nothing is claimed about them.
- CRC-32C in hardware: `port::AcceleratedCRC32C` is not part of this model.
- Crc32cStrides.ExtendByTables: each table is given by its eight entries for single bits, the others being their sums.
- WireFormat.LongReads: nothing is said of more than 36 bytes, where the eight-bit position of the reader wraps
  around; the grammar of messages has them too.
- I/O errors: the log, the manifest and the write queue are modelled for writes that succeed; `ObsoleteFiles` alone
  has failing steps.
- `initial_offset` and resynchronisation in the log reader: every reader of the database starts at offset 0.
- Which log files recovery replays: their list is a parameter, oldest first.
- Internal keys that do not parse (DBIter, compaction): entries are well formed.
- Snappy compression, the block trailer's checksum and the footer: data blocks are uncompressed.
- The two-level and concatenating iterators: a level is the concatenation of its files.
- Corrupt blocks and filters: iterators and readers of these are specified on what their builders write; the log
  reader, WriteBatch::Iterate, RecoverLogFile, VersionEdit::DecodeFrom, VersionSet::Recover and the nanopb decoder are
  specified on all bytes.
- BlockIters.Iter.ParseNextKey: the reset of the position after a corrupt entry is not modelled, since no entry of a
  finished block is corrupt.
- GroupCommit.StepKeepsInv: the memtable stands for the current one and those before it, so the switch inside
  MakeRoomForWrite is not a step; how long the head waits there depends on background work that GroupCommit does not
  have.
- CrashRecovery.RecoverLogFile: when a memtable is full is a parameter; the file can always be opened again for reuse.
- LruCaches.LRUCache.Insert: the circular lists are sequences, so pointer updates inside a list are not modelled;
  sharding and the mutex are not either.
- SkipListOps.SkipList.Insert: nodes are known by their keys and cells by node and level; memory order is sequential
  consistency and the arena is not modelled.
- Blooms.CreateFilter: the hash function is a parameter and the number of probes is given instead of being computed
  from a floating-point factor.
- TableBuilders.TableBuilder.Add: data and index blocks are sequences of entries; their bytes are the subject of the
  block modules.
- VersionSets.VersionSet.LogAndApply: an edit does not add a file with the number and smallest key of one that is on
  the level, which the assertions of SaveTo and MaybeAddFile forbid above level 0; on level 0 it would be listed
  twice.
- ObsoleteFiles.NeededFilesExist: only the background thread collects after the database is open; CollectionIsSafeIff
  says when another collector would be safe.
- ManifestRecovery.Recover: compaction pointers are carried by EditCodec but not by the version set; the CURRENT file
  and the reuse of an old manifest are not modelled.
- nanopb callbacks, extensions, pointer fields, fixed-count arrays, null-terminated messages and the 32-bit build.
- ProtoDecode.DecodeStaticField: what a failed decoding leaves in the structure is not modelled.
- ProtoRoundTrip.RoundTrip: tags are distinct and below 2^29, the encoding is shorter than 2^32 bytes, strings leave
  room for their terminator and proto3 fields have no default of their own; the last two are shown to be necessary
  (DecodesIffTerminated, RoundTripIff).
- `PB_SIZE_MAX` as a bound of its own: sizes are bounded by the field's own capacity, which is smaller.
