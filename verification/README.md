# LevelDB and nanopb in Dafny

This project models the two vendored libraries that hold the logic of the app: LevelDB, a
log-structured key-value store, and nanopb, a Protocol Buffers codec. `dafny verify dfyconfig.toml`
checks it.

## What is modelled

The meaning of everything in the store is one definition, `Format.Read`: among the entries of a user
key with a sequence number at or below a snapshot, the newest one decides, and a deletion means there
is no value. The code is a fast, stateful form of that, in layers.

- **Entries, files and versions** (`Format`, `Versions`). A file is its metadata and its sorted
  entries, a version is seven lists of files. `Versions.Shape` is what every step has to keep.
- **Reads** (`Overlap`, `Reading`): `Version::Get` with its binary search against the flat meaning.
- **Picking inputs** (`Picking`): closing the inputs of a compaction under overlap and boundary files.
- **Compaction** (`Steps`, `CompactionReads`, `Compacting`, `InputIteration`, `Resurrection`): what the
  drop rules, the base-level check and the cut of outputs do to reads. The main result is an
  equivalence: a compaction preserves every read it may not disturb exactly when no key is exposed.
- **The store as a state machine** (`States`, `Store`, `MapRefinement`): writes, memtable switches,
  flushes, moves, compactions and snapshots, each one atomic step; the methods of `Store.Db` are proved
  to take such steps. Over whole runs: snapshot isolation, and the store as a map of its writes.
- **Iterators** (`Merger`, `UserIteration`, `StoreIteration`, `TwoLevel`, `Blocks`, `MemTables`):
  cursors that may turn around at any time, each proved to walk one sorted sequence.
- **Group commit** (`GroupCommit`): the queue of writers as a state machine in which enqueueing,
  background work and the phases of the leader interleave freely; a memtable insertion is one step per
  operation, so readers meet half-inserted groups.
- **Durable formats**: write batches (`WriteBatches`), the log (`LogFormat`, `LogWriting`,
  `LogReading`), version edits and the manifest (`Coding`, `EditFormat`, `Manifest`, `VersionSets`),
  blocks (`BlockFormat`, `Blocks`), table files (`Separators`, `KeyRanks`, `TableFormat`, `Tables`,
  `TableReading`) and filters (`Bloom`, `FilterBlocks`). A file is a byte sequence that grows by
  append, and a crash is a cut at any byte. `Durability` joins the logs, the commit protocol and
  recovery: what was synced is read after a crash.
- **Index structures**: the skip list with the state after every pointer store and readers that run
  between them without a lock (`SkipLists`, `MemTables`), and the LRU cache with its hash table
  (`HandleTables`, `Caches`).
- **nanopb** (`Messages`, `Encoding`, `Decodables`, `Scanning`, `Decoding`): descriptors and messages as
  recursive values, the two passes of the encoder, how far the decoder reads in any bytes and what it
  takes them for, and its round trip.

## Decisions

- The user comparator may be any total order on byte strings. Every countable total order embeds in
  the reals, so in the store a user key is a real number; where bytes matter, keys are byte strings,
  and `rank` is such an embedding.
- Sizes of table files in the store come from a function passed in (`tableSize`), since only
  comparisons with limits depend on them. Random skip list heights and the hash of a key in the
  cache and the Bloom filter are parameters too.
- In the hash table and the cache, memory is an explicit map from addresses to handles, and in the
  skip list it is an arena of nodes, because both structures share what they point to.
- The number of Bloom probes, `bits_per_key * 0.69` rounded down, is computed with `69 / 100`. The two
  agree wherever the result is at most 30, and more than 30 probes are cut off.
- A reader or a decoder takes the data it is proved against as ghost arguments; what it does depends
  on the bytes alone.

## Where the code falls short of its comments

- The comment above `AddBoundaryInputs` (`version_set.cc:1364-1374`) explains why a file that starts
  with the last user key of the inputs must come along. `SetupOtherInputs` (`version_set.cc:1403-1447`)
  calls it for `level` but never for the files of `level + 1`. So a compaction can drop a deletion and
  leave an older value of the same key behind in the next file of `level + 1`, and the deleted key comes
  back. `Resurrection` has a run from the empty store that ends so, and
  `CompactionReads.CompactionPreservesReadsIff` the exact condition. Results over whole runs assume it (`Unexposed`).
- A write whose log append or sync fails still uses up its sequence numbers (`db_impl.cc:1236`); the
  step `Skip` of the store is that gap.
- `Recover` marks the previous log number and the log number as used and then overwrites the next file
  number (`version_set.cc:986-997`), so only the logged counter protects file numbers. It does, because
  `LogAndApply` fills it in last.

## Model

| member | source | states |
|---|---|---|
| CompactionReads.CompactionPreservesReadsIff | eWarranty/Pods/leveldb-library/db/db_impl.cc:929-963 | A compaction leaves every read at every snapshot at or above the smallest live one as it was, if and only if no key is exposed. A key is exposed when its newest entry at that snapshot is an obsolete deletion among the inputs, and the next-level file just beyond the last selected one begins with a value of the same key. |
| CompactionReads.ChangedIsExposed | eWarranty/Pods/leveldb-library/db/version_set.cc:1403-1447 | The "only if" half: a read that changes has crossed a cut in the next level that input selection did not close. |
| CompactionReads.ExposedIsChanged | eWarranty/Pods/leveldb-library/db/db_impl.cc:949-961 | The "if" half: an exposed key reads as deleted before the compaction and as its old value afterwards. |
| Resurrection.DeletedKeyComesBack | eWarranty/Pods/leveldb-library/db/version_set.cc:1403-1447 | A run from the empty store, of writes, a snapshot, switches, flushes and two compactions, after which a key that the writes leave deleted reads as a value again. |
| Resurrection.AlwaysComesBack | eWarranty/Pods/leveldb-library/db/version_set.cc:1403-1447 | From the state that run reaches, every compaction of level 2 with that one file of level 3 brings the deleted key back, whatever it reads, drops and writes. |
| Resurrection.StoreBringsBack | eWarranty/Pods/leveldb-library/db/version_set.cc:1270-1322 | A store in that state brings the key back by its own size-triggered compaction, with the inputs its own selection makes. |
| CompactionReads.HiddenIff | eWarranty/Pods/leveldb-library/db/db_impl.cc:937-948 | Drop rule (A), looking only at the entry before, drops exactly the entries with a newer version that every live snapshot sees. |
| CompactionReads.KeptIff | eWarranty/Pods/leveldb-library/db/db_impl.cc:929-963 | An input entry survives exactly when it is neither hidden by a newer visible version nor an obsolete deletion at its base level. |
| CompactionReads.OlderLeftBehind | eWarranty/Pods/leveldb-library/db/version_set.cc:1533-1552 | Data older than an obsolete deletion can be left behind in one place only: the next level, in a file after a chosen one that holds the deletion. |
| Compacting.Compaction.IsBaseLevelForKey | eWarranty/Pods/leveldb-library/db/version_set.cc:1533-1552 | With cursors that only move forward, every answer of a nondecreasing run of queries says exactly whether some file two or more levels down spans the key. |
| Compacting.Compaction.ShouldStopBefore | eWarranty/Pods/leveldb-library/db/version_set.cc:1554-1576 | Asks for a cut exactly when the bytes of the grandparents passed since the last one exceed the limit, and then starts counting anew. |
| Compacting.ShouldDrop | eWarranty/Pods/leveldb-library/db/db_impl.cc:929-963 | The two drop rules, deciding by the sequence number seen last for the same user key. |
| Compacting.DoCompactionWork | eWarranty/Pods/leveldb-library/db/db_impl.cc:878-1036 | The outputs hold exactly the surviving entries, in order, numbered one after the other. Each is cut as soon as it is large enough or spans too many bytes of grandparents, and for no other reason. |
| Compacting.SurvivorsSorted | eWarranty/Pods/leveldb-library/db/db_impl.cc:914-963 | What survives the pass is a sorted run holding exactly the entries the drop rules keep. |
| Compacting.OutputsAreGood | eWarranty/Pods/leveldb-library/db/db_impl.cc:811-858 | The outputs are valid, disjoint, freshly numbered files made of input entries, whatever was dropped and wherever files were cut. |
| InputIteration.ReadInputs | eWarranty/Pods/leveldb-library/db/version_set.cc:1237-1268 | The input iterator yields every entry of the chosen files once, in internal key order. |
| InputIteration.ChildrenMergeable | eWarranty/Pods/leveldb-library/db/version_set.cc:1237-1268 | One child per level-0 file and one concatenation per deeper level are sorted and share no key. |
| Steps.ReplacedShape | eWarranty/Pods/leveldb-library/db/db_impl.cc:860-876 | Installing a compaction keeps the version shape: sorted disjoint levels, newer data above older, level-0 files ordered by age. |
| Steps.UnselectedBeside | eWarranty/Pods/leveldb-library/db/version_set.cc:1403-1447 | A next-level file that was not selected lies wholly to one side of all input entries. |
| States.FlushedShape | eWarranty/Pods/leveldb-library/db/version_set.cc:491-516 | A flush keeps the version shape at whatever level the new table is allowed to sink to. |
| States.InvMove | eWarranty/Pods/leveldb-library/db/db_impl.cc:718-725 | A trivial move keeps the store invariant and changes no entry. |
| States.InvNext | eWarranty/Pods/leveldb-library/db/db_impl.cc:688-767 | Every step (write, failed write, memtable switch, flush, move, compaction, snapshot taken or released) keeps the store invariant. |
| States.SnapshotIsolation | eWarranty/Pods/leveldb-library/db/snapshot.h:46-86 | Over any run, while a snapshot stays live every read at it returns the same result, provided the compactions in between expose no key. |
| States.SmallestIs | eWarranty/Pods/leveldb-library/db/db_impl.cc:890-894 | Compaction goes by the greatest sequence number that is above neither a live snapshot nor the last sequence. |
| MapRefinement.StepRefinesMap | eWarranty/Pods/leveldb-library/db/db_impl.cc:535-566 | A step changes the map of current values by the operations it writes and by nothing else: flushes, moves and unexposed compactions are invisible. |
| MapRefinement.RunRefinesMap | eWarranty/Pods/leveldb-library/db/db_impl.cc:1100-1145 | After any run the store reads as the map its writes, applied in order to an empty map, produce. |
| MapRefinement.LastOperation | eWarranty/Pods/leveldb-library/db/write_batch.cc:116-137 | In a batch the last operation on a key decides its value, and keys it does not name keep theirs. |
| Versions.FilesFollow | eWarranty/Pods/leveldb-library/db/version_set.cc:722-737 | In a sorted level each file ends before every later one begins. |
| Versions.ContentsUnique | eWarranty/Pods/leveldb-library/db/write_batch.cc:116-137 | In a version of good shape no two entries of a key share a sequence number. |
| Overlap.FindFile | eWarranty/Pods/leveldb-library/db/version_set.cc:88-106 | The binary search returns the first file whose largest key is at or after the target. |
| Overlap.SomeFileOverlapsRange | eWarranty/Pods/leveldb-library/db/version_set.cc:122-157 | Exact for any list of files, and still exact with the single binary probe on a sorted level. |
| Reading.LookupNewest | eWarranty/Pods/leveldb-library/db/memtable.cc:102-135 | A seek to the lookup key followed by one user-key check finds the newest visible entry of the key, or shows there is none. |
| Reading.GetLevel0 | eWarranty/Pods/leveldb-library/db/version_set.cc:349-365 | Searching the overlapping level-0 files newest first finds the newest visible entry of the level. |
| Reading.GetLevel | eWarranty/Pods/leveldb-library/db/version_set.cc:366-384 | Probing one file of a sorted level is enough even when the entries of a key span two adjacent files. |
| Reading.Get | eWarranty/Pods/leveldb-library/db/version_set.cc:326-421 | The level-by-level search returns exactly the flat meaning of a read over all files: the newest entry at or below the snapshot, unless it is a deletion. |
| States.ReadOver | eWarranty/Pods/leveldb-library/db/db_impl.cc:1122-1132 | Looking in a memtable first and below it only when the key is not there gives the read over both. |
| Store.Db.Get | eWarranty/Pods/leveldb-library/db/db_impl.cc:1100-1145 | Memtable, immutable memtable and files together answer exactly the read at the snapshot or at the last sequence. |
| Store.Db.Write | eWarranty/Pods/leveldb-library/db/db_impl.cc:1212-1240 | A batch inserted under consecutive sequence numbers is a write step of the store. |
| Store.Db.SwitchMemTable | eWarranty/Pods/leveldb-library/db/db_impl.cc:1345-1366 | Making the full memtable immutable and taking a log file number is a switch step of the store. |
| Store.Db.CompactMemTable | eWarranty/Pods/leveldb-library/db/db_impl.cc:535-566 | Writing the immutable memtable to a table, at the level picked for it, is a flush step of the store. |
| Store.PickLevelForMemTableOutput | eWarranty/Pods/leveldb-library/db/version_set.cc:491-516 | The table sinks exactly as far as it may: to the first level, at most two, below which something overlaps or too many bytes two levels down do, and not at all when level 0 overlaps. |
| Store.Db.CompactFrom | eWarranty/Pods/leveldb-library/db/db_impl.cc:688-767 | From any admissible first choice of files, background compaction performs one legal move or compaction step with exactly the inputs selection makes of them. It is a move if and only if it is not manual and one file has nothing to merge with and few grandparents; a compaction cuts its outputs by size and grandparents. |
| Store.Db.CompactBySize | eWarranty/Pods/leveldb-library/db/version_set.cc:1270-1322 | A size-triggered compaction is a legal step that starts from the first file past the compaction pointer, or from the first of all, takes what selection makes of it and no more, moves a file if and only if that is trivial, and moves the pointer past the chosen files. |
| Store.Db.CompactBySeeks | eWarranty/Pods/leveldb-library/db/version_set.cc:1270-1322 | A seek-triggered compaction is a legal step that starts from the given file and takes what selection makes of it and no more. |
| Store.Db.CompactRange | eWarranty/Pods/leveldb-library/db/version_set.cc:1464-1495 | A manual compaction is made exactly when some file of the level overlaps the range. It starts from the files in the range, below level 0 cut off at the size limit, takes what selection makes of them and no more, never moves a file, and moves the pointer. |
| Store.Db.Merge | eWarranty/Pods/leveldb-library/db/db_impl.cc:878-1036 | Read, drop, cut and install together are one compaction step of the store, with outputs cut by size and by the grandparents. |
| Store.Db.TakeSnapshot | eWarranty/Pods/leveldb-library/db/db_impl.cc:1166-1169 | A snapshot is the last sequence at that moment and becomes live. |
| Store.Install | eWarranty/Pods/leveldb-library/db/version_set.cc:801-884 | The edit of a compaction, applied by the builder, yields the version without the inputs and with the outputs. |
| Overlap.GetOverlappingInputs | eWarranty/Pods/leveldb-library/db/version_set.cc:519-559 | At level 0 exactly the files overlapping the least range that contains the request and is closed under overlap; below, exactly the files overlapping the request. The restarts terminate. |
| Overlap.SelectWider | eWarranty/Pods/leveldb-library/db/version_set.cc:1419-1447 | Widening a range selects no fewer files, and as many only if it selects the same files. |
| Picking.FindSmallestBoundaryFile | eWarranty/Pods/leveldb-library/db/version_set.cc:1344-1362 | Finds the least file that starts beyond the given key with the same user key, if there is one. |
| Picking.AddBoundaryInputs | eWarranty/Pods/leveldb-library/db/version_set.cc:1378-1401 | The files given, followed by boundary files, each the least that starts with the last user key reached so far, until there is no more; consecutive choices stay consecutive. |
| Picking.ConvexIsSettled | eWarranty/Pods/leveldb-library/db/version_set.cc:1378-1401 | In a sorted level, a consecutive choice with no boundary file left leaves nothing older behind for any key it holds. |
| Picking.ClosedIsSettled | eWarranty/Pods/leveldb-library/db/version_set.cc:519-559 | At level 0, a choice closed under overlap shares no user key with what it leaves behind. |
| Picking.SetupOtherInputs | eWarranty/Pods/leveldb-library/db/version_set.cc:1403-1447 | The inputs are exactly the start with its boundary files, or their expansion where it is taken, and the next-level files their range overlaps; they are closed as compaction needs. |
| Picking.Widen | eWarranty/Pods/leveldb-library/db/version_set.cc:1419-1447 | The choice is expanded if and only if the next level has inputs, files are gained, all the inputs stay below the expansion limit and the number of next-level files stays the same; then it is to everything the whole range overlaps with its boundary files, and the next-level files are the same list. |
| Picking.Grandparents | eWarranty/Pods/leveldb-library/db/version_set.cc:1449-1454 | The grandparents are exactly the files two levels down that the range of all inputs overlaps. |
| Picking.StartRange | eWarranty/Pods/leveldb-library/db/version_set.cc:1464-1495 | A manual compaction starts from the files that overlap the range, at level 0 the least set closed under overlap and below it those up to the first that reaches the byte limit; it is empty exactly when no file overlaps. |
| Picking.RangeIsTaken | eWarranty/Pods/leveldb-library/db/version_set.cc:1464-1495 | What a manual compaction takes: at level 0 every file of the range, below it the first ones up to the size limit. Any other input of the level overlaps those at level 0, begins with the last user key of another input, or comes with an expansion below its limit. |
| Picking.PickedIsBounded | eWarranty/Pods/leveldb-library/db/version_set.cc:1403-1447 | Selection adds no file to a start but boundary files, unless all the inputs together are below the expansion limit. |
| Picking.FirstPast | eWarranty/Pods/leveldb-library/db/version_set.cc:1284-1296 | Takes the first file past the compaction pointer and wraps around at the end of the level. |
| Builder.Builder.Apply | eWarranty/Pods/leveldb-library/db/version_set.cc:650-692 | Marks an edit's deletions, then each added file loses its mark and joins its level. |
| Builder.Builder.SaveTo | eWarranty/Pods/leveldb-library/db/version_set.cc:695-739 | Each level of the new version is, in order, the base and added files that are not marked deleted. |
| Builder.SaveLevel | eWarranty/Pods/leveldb-library/db/version_set.cc:698-720 | Merging added files into base files keeps the level ordered and loses or repeats no file. |
| Builder.ApplyEdit | eWarranty/Pods/leveldb-library/db/version_set.cc:801-884 | One builder round turns a version into exactly what the edit says. |
| Manifest.BuiltMore | eWarranty/Pods/leveldb-library/db/version_set.cc:650-692 | Applying one more edit to a builder keeps it true to all the edits so far: one shot at the end equals folding edit by edit. |
| Manifest.OrderedUnique | eWarranty/Pods/leveldb-library/db/version_set.cc:593-605 | The order of files is total enough that a level is determined by its set of files. |
| Manifest.Recover | eWarranty/Pods/leveldb-library/db/version_set.cc:886-1010 | Replaying however much of a manifest the file holds gives the file lists, log numbers, sequence and pointers that its whole edits stand for, and fails exactly when a required number was never logged. |
| VersionSets.SnapshotReflects | eWarranty/Pods/leveldb-library/db/version_set.cc:1088-1116 | A snapshot record alone stands for the version it was taken of. |
| VersionSets.VersionSet.WriteSnapshot | eWarranty/Pods/leveldb-library/db/version_set.cc:1088-1116 | Logs one record describing the whole version. |
| VersionSets.StandsMore | eWarranty/Pods/leveldb-library/db/version_set.cc:801-884 | Logging one more edit keeps the manifest true to the live state, with the counters filled in. |
| VersionSets.VersionSet.LogAndApply | eWarranty/Pods/leveldb-library/db/version_set.cc:801-884 | Installs what the edit leads to, and the manifest, begun with a snapshot when it is new, stands for the live state with exactly the last sequence and the next file number of this moment. |
| VersionSets.VersionSet.SetLastSequence | eWarranty/Pods/leveldb-library/db/version_set.h:214-218 | The live last sequence moves on while the manifest keeps the one of the last logged edit. |
| VersionSets.Reopen | eWarranty/Pods/leveldb-library/db/version_set.cc:886-1010 | After any successful calls, recovering the manifest gives the live file lists, log numbers and compaction pointers, exactly the last sequence of the last logged edit, and a next file number one above the one that edit logged, so above every number handed out by then. |
| EditFormat.EncodeTo | eWarranty/Pods/leveldb-library/db/version_edit.cc:41-85 | Writes the fields of an edit in the order and with the tags of the format. |
| EditFormat.DecodeFrom | eWarranty/Pods/leveldb-library/db/version_edit.cc:107-205 | Decodes any bytes as the format says, and rejects malformed ones. |
| EditFormat.EditRoundTrip | eWarranty/Pods/leveldb-library/db/version_edit.cc:41-205 | Decoding an encoded edit into a fresh edit gives it back, field for field. |
| EditFormat.EditExample | eWarranty/Pods/leveldb-library/db/version_edit.cc:41-85 | A record with an item of every tag, byte for byte. |
| Merger.SplitHead | eWarranty/Pods/leveldb-library/table/merger.cc:148-161 | When the children stand at a split of the merge, the least of their entries is the next one of the merge. |
| Merger.SplitTail | eWarranty/Pods/leveldb-library/table/merger.cc:163-176 | The greatest of the entries left of the children is the one before in the merge. |
| Merger.MergingIterator.FindSmallest | eWarranty/Pods/leveldb-library/table/merger.cc:148-161 | The current child becomes one with the least key among the valid ones. |
| Merger.MergingIterator.FindLargest | eWarranty/Pods/leveldb-library/table/merger.cc:163-176 | The current child becomes one with the greatest key among the valid ones. |
| Merger.MergingIterator.Next | eWarranty/Pods/leveldb-library/table/merger.cc:55-79 | One step forward in the sorted merge of all children, from either direction. |
| Merger.MergingIterator.Prev | eWarranty/Pods/leveldb-library/table/merger.cc:81-108 | One step back in the sorted merge, from either direction. |
| Merger.MergingIterator.TurnForward | eWarranty/Pods/leveldb-library/table/merger.cc:62-74 | Turning around puts every other child at its first entry after the current key. |
| Merger.MergingIterator.TurnReverse | eWarranty/Pods/leveldb-library/table/merger.cc:88-103 | Turning around puts every other child at its last entry before the current key. |
| Merger.MergingIterator.Seek | eWarranty/Pods/leveldb-library/table/merger.cc:47-53 | Lands where a seek in the merge lands. |
| Merger.Drain | eWarranty/Pods/leveldb-library/table/merger.cc:31-79 | From the first entry on, Next yields the whole merge. |
| Merger.MergeExists | eWarranty/Pods/leveldb-library/table/merger.cc:179-191 | Sorted children with distinct keys always have such a merge. |
| UserIteration.ReadIsLive | eWarranty/Pods/leveldb-library/db/db_iter.cc:168-198 | The entries the cursor may show are exactly the values reads at its sequence find. |
| UserIteration.DBIter.FindNextUserEntry | eWarranty/Pods/leveldb-library/db/db_iter.cc:168-198 | Skips what the saved key hides and stops at the first live entry wanted. |
| UserIteration.DBIter.FindPrevUserEntry | eWarranty/Pods/leveldb-library/db/db_iter.cc:227-267 | Walking back stops at the last live entry before, past deleted keys and older versions. |
| UserIteration.DBIter.Next | eWarranty/Pods/leveldb-library/db/db_iter.cc:141-166 | Moves to the next live entry, whichever way the cursor was going. |
| UserIteration.DBIter.Prev | eWarranty/Pods/leveldb-library/db/db_iter.cc:200-225 | Moves to the live entry before, whichever way the cursor was going. |
| UserIteration.DBIter.Seek | eWarranty/Pods/leveldb-library/db/db_iter.cc:269-281 | Lands on the first live entry whose user key is at or after the target. |
| UserIteration.DBIter.SeekToFirst | eWarranty/Pods/leveldb-library/db/db_iter.cc:283-292 | Lands on the first live entry. |
| UserIteration.DBIter.SeekToLast | eWarranty/Pods/leveldb-library/db/db_iter.cc:294-299 | Lands on the last live entry. |
| UserIteration.Scan | eWarranty/Pods/leveldb-library/db/db_iter.cc:141-299 | A whole pass yields every key a read finds, with its value, once, in ascending order. |
| StoreIteration.AddIterators | eWarranty/Pods/leveldb-library/db/version_set.cc:230-246 | With the memtables in front, the children for a version hold exactly the entries of the whole store and can be merged. |
| Store.Db.NewIterator | eWarranty/Pods/leveldb-library/db/db_impl.cc:1147-1157 | A new iterator ranges over exactly the entries of memtables and files, at the snapshot or the last sequence. |
| Store.Db.ScanStore | eWarranty/Pods/leveldb-library/db/db_impl.cc:1147-1157 | A pass of a store iterator finds exactly what Get finds, for every key. |
| GroupCommit.BuildBatchGroup | eWarranty/Pods/leveldb-library/db/db_impl.cc:1260-1308 | The group is the longest admissible run of writers behind the leader: within 1 MB, or within 128 KB more than a small leader, and the batch left waiting would exceed that. Its operations are theirs in queue order, and a sync writer never rides with a leader that does not sync. |
| GroupCommit.KeepStep | eWarranty/Pods/leveldb-library/db/db_impl.cc:1185-1258 | Every interleaving of writers, leader phases and background work keeps the commit invariant. |
| GroupCommit.AckedIsLogged | eWarranty/Pods/leveldb-library/db/db_impl.cc:1185-1258 | The log holds the batches of the writers that returned OK, each once and in queue order, and at most one record more; the record of a writer that asked for a sync was synced. |
| GroupCommit.GroupsAreAdjacent | eWarranty/Pods/leveldb-library/db/db_impl.cc:1212-1238 | In any run, each finished group begins at the sequence number after the last one of the group finished before it. |
| GroupCommit.LoggedRangesDisjoint | eWarranty/Pods/leveldb-library/db/db_impl.cc:1212-1238 | In any run, the sequence numbers of all records in the log, failed groups included, are disjoint ranges in log order. |
| GroupCommit.ReadersSeeWholeGroups | eWarranty/Pods/leveldb-library/db/db_impl.cc:1231-1239 | A read at or below the published sequence sees nothing of a group that is still being inserted, however far the insertion has come. |
| GroupCommit.SyncFailureIsRecorded | eWarranty/Pods/leveldb-library/db/db_impl.cc:1217-1233 | A failed sync records the error, inserts nothing and acknowledges nobody of the group. |
| GroupCommit.NothingLoggedAfterErrorEver | eWarranty/Pods/leveldb-library/db/db_impl.cc:1310-1320 | Once an error is recorded and its group is done, the log never grows again and no batch is acknowledged again. |
| GroupCommit.RecoveryLosesNothing | eWarranty/Pods/leveldb-library/db/db_impl.cc:280-369 | The tables together with what the log files replay to hold exactly the entries of the live store. |
| GroupCommit.AckedMap | eWarranty/Pods/leveldb-library/db/db_impl.cc:1185-1258 | Over all interleavings the store reads as the acknowledged batches applied in queue order. |
| GroupCommit.ReadsAreAcknowledgedWrites | eWarranty/Pods/leveldb-library/db/db_impl.cc:1100-1145 | Even in the middle of an insertion, a read through the memtable as it is right now returns what the acknowledged batches leave. |
| WriteBatches.WriteBatch.Put | eWarranty/Pods/leveldb-library/db/write_batch.cc:98-103 | Appends one put and counts it. |
| WriteBatches.WriteBatch.Delete | eWarranty/Pods/leveldb-library/db/write_batch.cc:105-109 | Appends one deletion and counts it. |
| WriteBatches.WriteBatch.Append | eWarranty/Pods/leveldb-library/db/write_batch.cc:144-148 | The other batch's operations follow, and the counts add up. |
| WriteBatches.Iterate | eWarranty/Pods/leveldb-library/db/write_batch.cc:42-80 | On any bytes: the handler sees the operations up to the first malformed one, and the status is OK exactly when all was read and the count agrees. |
| WriteBatches.OpsRead | eWarranty/Pods/leveldb-library/db/write_batch.cc:42-80 | Encoded operations are read back, all of them and in order. |
| WriteBatches.InsertInto | eWarranty/Pods/leveldb-library/db/write_batch.cc:116-137 | From the bytes of a batch, the memtable gets one entry for each operation, a value or a deletion as the batch says, under the next sequence number, and keeps what it had. |
| WriteBatches.LastDecides | eWarranty/Pods/leveldb-library/db/write_batch.cc:116-137 | After any batches, the newest entry of a key they name is a value v exactly when the last operation naming it puts v, and a deletion exactly when that operation deletes it; reads of other keys stay. |
| WriteBatches.BatchExample | eWarranty/Pods/leveldb-library/db/write_batch.cc:5-13 | A batch of a put and a deletion, byte for byte. |
| WriteBatches.RecoverLogFile | eWarranty/Pods/leveldb-library/db/db_impl.cc:371-457 | However much of a log file is there, the memtable holds exactly one entry for each operation of its whole batches, a value or a deletion with its sequence number. The maximal sequence returned is at least the one given and the last number of every batch replayed, and is one of those. |
| WriteBatches.RecoverLogs | eWarranty/Pods/leveldb-library/db/db_impl.cc:280-369 | After replaying one log file after another, the last sequence is the largest among the recovered version and all the batches replayed. |
| Durability.SyncedWritesSurvive | eWarranty/Pods/leveldb-library/db/db_impl.cc:1185-1258 | For all interleavings, either log file and any cut of it after its synced part, the batch of a writer that asked for a sync and got OK is replayed under the sequence numbers it was given. |
| Durability.ReplayHolds | eWarranty/Pods/leveldb-library/db/db_impl.cc:371-457 | Replaying log records gives a sorted memtable that holds exactly the operations of the records. |
| Durability.SyncedReadsSurvive | eWarranty/Pods/leveldb-library/db/db_impl.cc:280-369 | For all interleavings and whatever a crash leaves of both log files, a key whose last unflushed write was synced reads after recovery as it did before. |
| Durability.SyncedKeysSurvive | eWarranty/Pods/leveldb-library/db/db_impl.cc:280-369 | And that is what the acknowledged batches, applied in queue order, say. |
| LogFormat.ExtendConcat | eWarranty/Pods/leveldb-library/util/crc32c.h:14-20 | Extending a checksum by one string and then by another is extending it by both. |
| LogFormat.UnmaskMask | eWarranty/Pods/leveldb-library/util/crc32c.h:29-38 | Masking and unmasking a checksum undo each other. |
| LogFormat.BurstChangesCrc | eWarranty/Pods/leveldb-library/util/crc32c.cc:276-377 | Two strings of the same length that differ in at most four consecutive bytes have the same CRC-32C only if they are the same. |
| LogFormat.DamageNoticed | eWarranty/Pods/leveldb-library/db/log_reader.cc:243-258 | A reader notices any damage to at most four consecutive bytes under a stored checksum. |
| LogFormat.CheckValue | eWarranty/Pods/leveldb-library/util/crc32c.cc:276-377 | The check value of CRC-32C: the checksum of the digits 1 to 9 is e3069283. |
| LogFormat.RecordExample | eWarranty/Pods/leveldb-library/db/log_writer.cc:82-112 | A log with one record of one byte, byte for byte: masked checksum, length, type and payload. |
| LogFormat.SplitJoins | eWarranty/Pods/leveldb-library/db/log_writer.cc:34-80 | The fragments a record is cut into join to the record. |
| LogFormat.SplitKinds | eWarranty/Pods/leveldb-library/db/log_writer.cc:60-74 | Each fragment says whether it is the whole, the first, a middle or the last part. |
| LogFormat.SplitFits | eWarranty/Pods/leveldb-library/db/log_writer.cc:42-58 | No fragment crosses the end of a block. |
| LogWriting.Writer.AddRecord | eWarranty/Pods/leveldb-library/db/log_writer.cc:34-80 | The file stays the layout of the records added so far, empty records and block boundaries included. |
| LogWriting.Writer.EmitPhysicalRecord | eWarranty/Pods/leveldb-library/db/log_writer.cc:82-110 | Appends the header, with length, type and masked checksum, and the payload. |
| LogReading.Reader.ReadPhysicalRecord | eWarranty/Pods/leveldb-library/db/log_reader.cc:189-271 | On any prefix of a log: the next fragment if the file has all of it, the end otherwise, and never a report of corruption. |
| LogReading.Reader.ReadRecord | eWarranty/Pods/leveldb-library/db/log_reader.cc:56-170 | On any prefix of a log: the next record if the file has all of it, and nothing otherwise. |
| LogReading.ReadLog | eWarranty/Pods/leveldb-library/db/log_reader.cc:56-271 | Reading a prefix of a log returns exactly the records that end inside it and drops nothing. |
| LogReading.CrashAndRecover | eWarranty/Pods/leveldb-library/db/log_reader.cc:189-271 | Log any records of any length, cut the file at any byte, recover: the whole records come back, in order, nothing else does, and no corruption is reported. |
| Coding.PutVarint32 | eWarranty/Pods/leveldb-library/util/coding.cc:47-79 | The hand-unrolled encoder writes the same bytes as the loop. |
| Coding.PutVarint64 | eWarranty/Pods/leveldb-library/util/coding.cc:81-96 | Writes seven bits a byte, low bits first. |
| Coding.DecodeVarint | eWarranty/Pods/leveldb-library/util/coding.cc:112-169 | The decoders compute the bounded, width-reduced reading of any input. |
| Coding.VarintRoundTrip | eWarranty/Pods/leveldb-library/util/coding.cc:47-169 | A number written at a width is read back at that width, and what follows it is left. |
| Coding.LengthPrefixedReads | eWarranty/Pods/leveldb-library/util/coding.cc:98-190 | A length-prefixed string is read back. |
| Coding.Fixed32RoundTrip | eWarranty/Pods/leveldb-library/util/coding.cc:9-18 | A 32-bit number stored in four bytes is read back. |
| HandleTables.HandleTable.FindPointer | eWarranty/Pods/leveldb-library/util/cache.cc:114-120 | Finds the place of the one handle with the key in its chain, or the end of the chain. |
| HandleTables.HandleTable.Lookup | eWarranty/Pods/leveldb-library/util/cache.cc:74-76 | Returns the handle with the key, or shows that no handle in the table has it. |
| HandleTables.HandleTable.Insert | eWarranty/Pods/leveldb-library/util/cache.cc:78-92 | Adds a handle and returns the one that had the same key, which loses its place. |
| HandleTables.HandleTable.Remove | eWarranty/Pods/leveldb-library/util/cache.cc:94-101 | Takes out the handle with the key and no other. |
| HandleTables.HandleTable.Resize | eWarranty/Pods/leveldb-library/util/cache.cc:122-147 | Moving every chain to a table of another size keeps the same finite map of handles. |
| HandleTables.OneHandle | eWarranty/Pods/leveldb-library/util/cache.cc:63-69 | The table is a finite map: a key leads to at most one handle. |
| Caches.LRUCache.Lookup | eWarranty/Pods/leveldb-library/util/cache.cc:252-259 | Hands out the cached entry of the key with one more reference and takes it off the LRU list, whose order stays, or shows that there is none. |
| Caches.LRUCache.Release | eWarranty/Pods/leveldb-library/util/cache.cc:261-264 | A returned handle costs one reference. When it was the last one of a cached entry, the entry goes to the newest end of the LRU list; otherwise the order of the list is unchanged. An entry that left the cache is freed with its last reference. |
| Caches.LRUCache.Insert | eWarranty/Pods/leveldb-library/util/cache.cc:266-303 | The new entry replaces the one with its key; then, one by one and only while over capacity, the entries go whose last use ended longest ago, by a clock of releases. Usage ends within capacity or no unused entry is left. |
| Caches.LRUCache.Erase | eWarranty/Pods/leveldb-library/util/cache.cc:318-321 | Removes the entry of a key from the cache, and no other, and keeps the order of the rest; clients that hold it keep it. |
| Caches.LRUCache.FinishErase | eWarranty/Pods/leveldb-library/util/cache.cc:307-316 | An entry that left the table leaves its list, its charge and the cache's own reference. |
| Caches.LRUCache.Prune | eWarranty/Pods/leveldb-library/util/cache.cc:323-333 | Frees exactly the unused entries, oldest first, and touches no entry in use. |
| Caches.DropRefOk | eWarranty/Pods/leveldb-library/util/cache.cc:225-237 | Dropping a reference keeps the invariant: lists by reference count, usage as the sum of cached charges, each deleter at most once. |
| Caches.AddRefOk | eWarranty/Pods/leveldb-library/util/cache.cc:217-223 | Taking a reference moves an unused cached entry to the in-use list and keeps the invariant. |
| Caches.UncacheOk | eWarranty/Pods/leveldb-library/util/cache.cc:307-316 | Taking an entry out of the cache keeps the invariant with the cache's reference about to go. |
| BlockFormat.BlockBuilder.Add | eWarranty/Pods/leveldb-library/table/block_builder.cc:72-106 | The buffer stays the prefix-compressed form of the entries added, with a restart point whenever the interval is used up, and grows by at most fifteen bytes beyond the key and the value. |
| BlockFormat.BlockBuilder.Finish | eWarranty/Pods/leveldb-library/table/block_builder.cc:62-70 | A finished block is the entries, the restart offsets and their count. |
| BlockFormat.BlockExample | eWarranty/Pods/leveldb-library/table/block_builder.cc:16-28 | A block of two entries with a shared prefix, byte for byte. |
| Blocks.DecodeEntry | eWarranty/Pods/leveldb-library/table/block.cc:54-75 | Reads back the three lengths of a stored entry, on the one-byte fast path as on the slow one. |
| Blocks.BlockIter.ParseNextKey | eWarranty/Pods/leveldb-library/table/block.cc:224-251 | Rebuilds the next key from the shared prefix and moves to the next entry, or to the end. |
| Blocks.BlockIter.Next | eWarranty/Pods/leveldb-library/table/block.cc:137-140 | Steps forward exactly one entry. |
| Blocks.BlockIter.Prev | eWarranty/Pods/leveldb-library/table/block.cc:142-161 | Steps back exactly one entry, by rescanning from a restart point before it, or off the front. |
| Blocks.BlockIter.SearchRestarts | eWarranty/Pods/leveldb-library/table/block.cc:163-192 | The binary search ends at a restart point before which every key is before the target. |
| Blocks.BlockIter.Seek | eWarranty/Pods/leveldb-library/table/block.cc:163-201 | Lands on the first entry at or after the target, from any position. |
| Blocks.BlockIter.SeekToLast | eWarranty/Pods/leveldb-library/table/block.cc:208-213 | Lands on the last entry. |
| Blocks.BlockRoundTrip | eWarranty/Pods/leveldb-library/table/block_builder.cc:62-106 | For any increasing keys and any restart interval, iterating the built block returns the same entries. |
| Separators.FindShortestSeparator | eWarranty/Pods/leveldb-library/util/comparator.cc:29-50 | The result is at or after the start and, when the start is before the limit, before the limit; otherwise the start is left alone. |
| Separators.FindShortSuccessor | eWarranty/Pods/leveldb-library/util/comparator.cc:52-63 | The result is at or after the key, no longer, and the key itself exactly when it is a run of 0xff bytes. |
| Separators.FindKeySeparator | eWarranty/Pods/leveldb-library/db/dbformat.cc:69-86 | Between two internal keys in order, the separator is at or after the first and before the second in internal key order. |
| Separators.FindKeySuccessor | eWarranty/Pods/leveldb-library/db/dbformat.cc:88-101 | The successor of an internal key is at or after it in internal key order. |
| Tables.TableBuilder.Add | eWarranty/Pods/leveldb-library/table/table_builder.cc:94-123 | Rows are kept in order over the blocks in the file and the block in progress, and each index key stays between its block and all that follows. |
| Tables.TableBuilder.WriteBlock | eWarranty/Pods/leveldb-library/table/table_builder.cc:141-194 | The block with its type and checksum is appended, its handle leads to its entries, and the builder starts anew. |
| Tables.TableBuilder.Finish | eWarranty/Pods/leveldb-library/table/table_builder.cc:198-266 | The bytes are a table file: the footer leads to an index block, its handles to data blocks, the index keys separate them, and together they hold exactly the rows added. |
| TableFormat.HandleReads | eWarranty/Pods/leveldb-library/table/format.cc:15-29 | A block handle written as two varints is read back with the rest left over. |
| TableFormat.FooterRoundTrip | eWarranty/Pods/leveldb-library/table/format.cc:31-62 | The padded footer gives back both handles, and its magic number matches. |
| TableFormat.FooterExample | eWarranty/Pods/leveldb-library/table/format.cc:31-45 | A handle as two varints, and the magic number every footer ends with, byte for byte. |
| TableFormat.StoredMore | eWarranty/Pods/leveldb-library/table/table_builder.cc:177-194 | Appending a block leaves the blocks before it readable, under handles of their own. |
| TableFormat.SealedExample | eWarranty/Pods/leveldb-library/table/table_builder.cc:177-194 | A stored block with its type and its masked checksum, byte for byte. |
| KeyRanks.BytesRank | eWarranty/Pods/leveldb-library/db/dbformat.cc:51-66 | The stored form of an internal key, user key and eight bytes, ranks as the internal key comparator orders it. |
| KeyRanks.KeyExample | eWarranty/Pods/leveldb-library/db/dbformat.cc:20-33 | The tag of a stored key stands behind the user key, its low byte first. |
| TableReading.ReadRawBlock | eWarranty/Pods/leveldb-library/table/format.cc:64-139 | Any bytes and any handle: the contents are returned exactly when the file is long enough, the type is known and, if asked for, the checksum matches. |
| TableReading.Open | eWarranty/Pods/leveldb-library/table/table.cc:38-81 | Opening a finished file reads the footer and gives back the index entries. |
| TableReading.ReadRows | eWarranty/Pods/leveldb-library/table/table.cc:155-207 | Each handle of the index leads to exactly the rows of its block. |
| TwoLevel.TwoLevelLanding | eWarranty/Pods/leveldb-library/table/two_level_iterator.cc:82-87 | Landing in the index and then in the block it names is landing among all rows. |
| TwoLevel.TwoLevelIterator.Seek | eWarranty/Pods/leveldb-library/table/two_level_iterator.cc:82-87 | Lands on the first row at or after the target of all blocks together. |
| TwoLevel.TwoLevelIterator.SkipEmptyDataBlocksForward | eWarranty/Pods/leveldb-library/table/two_level_iterator.cc:115-126 | Skipping used-up and empty blocks keeps the place among all rows. |
| TwoLevel.TwoLevelIterator.SkipEmptyDataBlocksBackward | eWarranty/Pods/leveldb-library/table/two_level_iterator.cc:128-139 | Skipping back over empty blocks lands on the row before, or off the front. |
| TwoLevel.TwoLevelIterator.Next | eWarranty/Pods/leveldb-library/table/two_level_iterator.cc:103-107 | Steps forward one row of the concatenated blocks. |
| TwoLevel.TwoLevelIterator.Prev | eWarranty/Pods/leveldb-library/table/two_level_iterator.cc:109-113 | Steps back one row of the concatenated blocks, or off the front. |
| TwoLevel.TwoLevelIterator.SeekToLast | eWarranty/Pods/leveldb-library/table/two_level_iterator.cc:96-101 | Lands on the last row, past empty blocks at the end. |
| TableReading.TableRoundTrip | eWarranty/Pods/leveldb-library/table/table_builder.cc:94-266 | Rows written to the bytes of a table file and read back from them through footer, index and blocks come back, all of them and in order, whatever the block size and the restart interval. |
| TableReading.TableSeek | eWarranty/Pods/leveldb-library/table/table.cc:210-214 | A seek of an iterator over the bytes of a finished table lands where it would among the rows that were added. |
| Bloom.SetBitIs | eWarranty/Pods/leveldb-library/util/bloom.cc:47-51 | Setting a bit of the filter sets that bit and changes no other. |
| Bloom.CreateFilter | eWarranty/Pods/leveldb-library/util/bloom.cc:28-54 | The filter appended has exactly the bits that the probes of the keys set, and the number of probes behind them, for any 32-bit hash. |
| Bloom.MatchesIff | eWarranty/Pods/leveldb-library/util/bloom.cc:56-82 | A key matches the filter of some keys if and only if each of its probes is a probe of one of them; the filter of no keys matches nothing. |
| Bloom.ProbeHashIs | eWarranty/Pods/leveldb-library/util/bloom.cc:46-52 | Probe j of a hash is the hash plus j times its rotation by 17 bits, modulo 2^32. |
| Bloom.KeyMayMatch | eWarranty/Pods/leveldb-library/util/bloom.cc:56-82 | The probing loop, with its early exit and 32-bit additions, answers whether all probes hit. |
| FilterBlocks.FilterBlockBuilder.StartBlock | eWarranty/Pods/leveldb-library/table/filter_block.cc:21-27 | Generates a filter for every 2 KB passed and keeps every promise made so far. |
| FilterBlocks.FilterBlockBuilder.AddKey | eWarranty/Pods/leveldb-library/table/filter_block.cc:29-33 | Flattens the key and promises a match at the offset of its block. |
| FilterBlocks.FilterBlockBuilder.GenerateFilter | eWarranty/Pods/leveldb-library/table/filter_block.cc:51-75 | The pending keys, cut out of the flat string again, all match the filter generated for them. |
| FilterBlocks.FilterBlockBuilder.Finish | eWarranty/Pods/leveldb-library/table/filter_block.cc:35-49 | A reader of the block answers true for every key at the offset of the block it was added under, and answers true at any offset only for keys all of whose probes are probes of keys added for that 2 KB. |
| FilterBlocks.KeyMayMatch | eWarranty/Pods/leveldb-library/table/filter_block.cc:77-104 | The reader answers by the filter its offset array points to, and true when there is none. |
| SkipLists.SkipList.FindGreaterOrEqual | eWarranty/Pods/leveldb-library/db/skiplist.h:258-281 | Finds where a seek in the plain sorted list lands, and the node before it on every level in use. |
| SkipLists.SkipList.FindLessThan | eWarranty/Pods/leveldb-library/db/skiplist.h:283-303 | Finds the last node before the key, or the head. |
| SkipLists.SkipList.FindLast | eWarranty/Pods/leveldb-library/db/skiplist.h:305-322 | Finds the last node of the list, or the head. |
| SkipLists.SkipList.Contains | eWarranty/Pods/leveldb-library/db/skiplist.h:371-379 | True exactly when an entry compares equal to the key. |
| SkipLists.SkipList.Insert | eWarranty/Pods/leveldb-library/db/skiplist.h:337-368 | For any height, the entry is spliced into the sorted list where a search for its key lands; the state after every single store has every level a sorted sublist of the one below, and loses no node. |
| SkipLists.SkipList.Link | eWarranty/Pods/leveldb-library/db/skiplist.h:362-367 | Each of the two stores that link a level leaves a well-formed list. |
| SkipLists.LockFreeSearch | eWarranty/Pods/leveldb-library/db/skiplist.h:258-281 | A search whose loads are interleaved with the stores of a writer follows no dangling pointer, and its answer is what a seek in the plain sorted list gives at its last load. |
| MemTables.ListIterator.Prev | eWarranty/Pods/leveldb-library/db/skiplist.h:213-221 | Stepping back by a new search moves one place back in the sorted list, or off the front. |
| MemTables.ListIterator.Seek | eWarranty/Pods/leveldb-library/db/skiplist.h:224-226 | Lands where a seek in the sorted list lands. |
| MemTables.ListIterator.SeekToLast | eWarranty/Pods/leveldb-library/db/skiplist.h:234-239 | Lands on the last entry, or nowhere in an empty list. |
| MemTables.MemTable.Add | eWarranty/Pods/leveldb-library/db/memtable.cc:77-100 | The memtable stays a sorted run with the entry inserted. |
| MemTables.MemTable.Get | eWarranty/Pods/leveldb-library/db/memtable.cc:102-135 | Finds something exactly when an entry of the key is visible, and then the newest one: its value, or the tombstone of a deletion. |
| Encoding.OStream.Write | eWarranty/Pods/nanopb/pb_encode.c:103-124 | Writes all the bytes if they fit and fails otherwise; a sizing stream only counts. |
| Encoding.OStream.EncodeVarint | eWarranty/Pods/nanopb/pb_encode.c:608-628 | Writes the base-128 form of the number, or fails when it does not fit. |
| Encoding.OStream.EncodeArray | eWarranty/Pods/nanopb/pb_encode.c:147-236 | Packed when the type allows it and tagged one by one otherwise, with the counts checked; the sizing and the writing pass agree. |
| Encoding.OStream.EncodeField | eWarranty/Pods/nanopb/pb_encode.c:341-426 | Required, optional, implicit, oneof and repeated fields are written exactly when they are set or not at their default. |
| Encoding.OStream.EncodeSubmessage | eWarranty/Pods/nanopb/pb_encode.c:717-765 | The size counted beforehand is the size written, so the check that it changed never fails. |
| Encoding.OStream.EncodeMessage | eWarranty/Pods/nanopb/pb_encode.c:528-550 | Succeeds exactly when every count is in range and the encoding fits, and then has written the encoding. |
| Encoding.GetEncodedSize | eWarranty/Pods/nanopb/pb_encode.c:567-576 | The counted size is the size of the encoding. |
| Encoding.EncodeToBuffer | eWarranty/Pods/nanopb/pb_encode.c:528-550 | Writing to a buffer succeeds exactly when the counted size fits in it. |
| Decodables.SignedRoundTrip | eWarranty/Pods/nanopb/pb_decode.c:1339-1373 | A signed integer of any field size, negative ones included, survives the cast to 64 bits and back. |
| Decodables.ZigZagRoundTrip | eWarranty/Pods/nanopb/pb_decode.c:1279-1290 | Zigzag encoding and decoding undo each other at every field size, and count 0, -1, 1, -2, 2 and so on without a gap. |
| Decodables.UnsignedRoundTrip | eWarranty/Pods/nanopb/pb_decode.c:1376-1397 | An unsigned integer that fits its field is read back. |
| Decodables.LittleEndianRoundTrip | eWarranty/Pods/nanopb/pb_decode.c:1293-1325 | Fixed-width numbers are read back from their little-endian bytes. |
| Decodables.DefaultWritesNothing | eWarranty/Pods/nanopb/pb_encode.c:240-428 | A message of optional, repeated and implicit fields without explicit defaults, set to its defaults, is encoded as nothing. |
| Messages.TagExample | eWarranty/Pods/nanopb/pb_encode.c:669-707 | The key of a field is its tag and its wire type: 0 for varints, 1 for 64 bits, 2 for what has a length and 5 for 32 bits. |
| Messages.PackedExample | eWarranty/Pods/nanopb/pb_encode.c:147-237 | A packed array, byte for byte. |
| Messages.NestedExample | eWarranty/Pods/nanopb/pb_encode.c:717-767 | A submessage with a varint, byte for byte. |
| Decoding.FieldIter.Find | eWarranty/Pods/nanopb/pb_common.c:78-95 | Searching from anywhere, all the way round, finds the tag exactly when some field has it. |
| Decoding.IStream.DecodeVarint32 | eWarranty/Pods/nanopb/pb_decode.c:187-247 | On any bytes, reads the number that the bitwise reader of 32-bit varints reads, or nothing; a number that fits 32 bits is read back. |
| Scanning.Varint32Value | eWarranty/Pods/nanopb/pb_decode.c:187-247 | In at most ten bytes, the 32-bit reader and the 64-bit one read the same number modulo 2^32, over the same bytes. |
| Scanning.Varint32Reads | eWarranty/Pods/nanopb/pb_decode.c:187-247 | The 32-bit reader, by shifts and bitwise or, reads back every number below 2^32. |
| Decoding.IStream.SkipField | eWarranty/Pods/nanopb/pb_decode.c:311-350 | An unknown field is skipped over exactly the bytes its wire type says, and other wire types are refused. |
| Decoding.IStream.DecodeScalar | eWarranty/Pods/nanopb/pb_decode.c:1328-1541 | On any bytes: the value they stand for in a field of that type, two's complement cut to 32 bits where the field is that small, or an error exactly when there is none that fits. |
| Decoding.IStream.DecodeVarint64 | eWarranty/Pods/nanopb/pb_decode.c:255-276 | A 64-bit number is read back. |
| Decoding.IStream.MakeSubstream | eWarranty/Pods/nanopb/pb_decode.c:372-385 | A length-delimited substream is exactly the next bytes, and the parent goes on after them. |
| Decoding.IStream.DecodeField | eWarranty/Pods/nanopb/pb_decode.c:406-487 | On any bytes, one occurrence of a field leaves the value read in its place, behind the earlier ones in an array, or fails when there is none or the array is full; an encoded occurrence decodes to what it stands for. |
| Decoding.IStream.DecodeMessage | eWarranty/Pods/nanopb/pb_decode.c:928-1076 | The encoding of a message decodes to the message with its unset parts at their defaults. Any other input gives a well-typed message or an error; if a message, then the tag of each of the first 64 required fields occurs at the top level of the bytes, oneofs stay exclusive, and arrays of fixed count stay full or empty. |
| Decoding.RoundTrip | eWarranty/Pods/nanopb/pb_decode.c:1078-1090 | For any recursive descriptor with distinct tags: decoding an encoded message gives it back, with optional and oneof fields that are not set at their defaults, explicit ones included, through packed arrays, oneofs, nested messages and zigzag. |
| Decodables.DefaultComesBack | eWarranty/Pods/nanopb/pb_decode.c:839-909 | An implicit field that the encoder leaves out comes back if and only if the decoder's default for it is one the encoder leaves out, too. |

## Left out

- Corrupt input beyond a cut-off log: block and record checksums that fail, unparsable internal keys, resynchronisation of the log reader and a non-zero initial offset.
- I/O errors other than a failed log append or sync: failed table writes, failed manifest writes, failed file creation.
- Reference counts of versions, memtables and file metadata, deletion of obsolete files, and the pending outputs set.
- The memtable flush that may run inside `DoCompactionWork`, and write delays and waiting in `MakeRoomForWrite`.
- Compaction scores (floating point), seek statistics and read sampling: which level to compact is an argument.
- The circular list behind snapshots: live snapshots are a sequence, oldest first.
- The random choice of a skip list height and the memory orderings of its loads and stores: stores and loads are sequentially consistent.
- Sharding of the cache by hash bits, and the two doubly linked lists of the LRU cache, which are sequences; splicing of their pointers is not captured.
- The encoding of memtable entries as length-prefixed strings: `Coding.LengthPrefixedReads` covers the format, the memtable holds entries.
- The lookup tables, strides and hardware path of `crc32c::Extend`: the checksum is defined bit by bit, and `LogFormat.CheckValue` ties it to the check value of CRC-32C.
- Compression: the port without Snappy, which stores blocks as they are. Filter policies in table files: the metaindex block is empty, and `FilterBlocks` has the filter block by itself. The table cache and the block cache of open tables.
- The cursors inside a two-level iterator are places in sorted rows: an open table has read its index and its blocks with block cursors beforehand, where the code opens a block when the cursor gets there.
- `ReuseManifest`, `reuse_logs`, `repair.cc`, `builder.cc`, file naming, options and properties.
- nanopb pointer fields, callbacks, extensions, `pb_release`, delimited and null-terminated framing, and `PB_WITHOUT_64BIT`.
- The Swift code of the app, and the other vendored libraries.
- Store.Db.Write: requires the last sequence to stay below the 56-bit maximum; the code would wrap around.
- Store.Db.ReleaseSnapshot: takes the place of a snapshot in the list instead of a pointer to it.
- GroupCommit.NothingLoggedAfterErrorEver: a failed append is modelled as leaving no record, and only a failed sync or a background error is recorded, as in the code.
- Manifest.Recover: is stated for prefixes of well-formed manifests whose file numbers name one file per level; the code relies on the latter without checking it.
- VersionSets.VersionSet.LogAndApply: a failed write of the manifest is left out.
- WriteBatches.WriteBatch.Append: requires the joint count to fit in 32 bits; the code would wrap around.
- WriteBatches.RecoverLogFile: leaves out the flush when the memtable grows too large, which changes no read.
- Durability.SyncedReadsSurvive: assumes that recovery finds no more of a log file than its whole records, which is what `LogReading.CrashAndRecover` gives, and that no sync has failed.
- Tables.TableBuilder.Add: requires data blocks and the index block to stay below 4 GiB; the code would truncate their offsets.
- TableReading.Open: is stated for files the builder wrote; malformed index blocks are left out.
- FilterBlocks.FilterBlockBuilder.Finish: promises matches for filter blocks of less than 4 GiB, as offsets are stored in 32 bits.
- BlockFormat.BlockBuilder.Finish: requires offsets to fit in 32 bits; the code would truncate them.
- Blocks.BlockIter.Seek: is stated for blocks this builder wrote; malformed blocks lead to the corruption branch, which is left out.
- MemTables.MemTable.Add: requires sequence numbers to be distinct per key, which writers guarantee.
- SkipLists.LockFreeSearch: does not promise that a reader ends while a writer keeps inserting in front of it.
- Caches.LRUCache.Insert: charges are unbounded numbers; overflow of `size_t` is left out.
- Decoding.RoundTrip: an implicit field must have a default that is left out when encoded, by `Decodables.DefaultComesBack` the exact condition. It requires lengths below 2^32 and strings shorter than their buffer, as the decoder does, and that explicit defaults are values of their fields, as the descriptor generator sees to.
- Decoding.IStream.DecodeMessage: for bytes that are not an encoding, says what each occurrence leaves (`DecodeField`) and which fields must occur, but not how occurrences of one submessage field merge.
- Decoding.FieldIter.Find: extension fields are left out.
