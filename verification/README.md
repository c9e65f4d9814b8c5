# LevelDB and nanopb in Dafny

The iOS application in this repository stores its data through two vendored
libraries: LevelDB, a key-value store built on log-structured merging, and
nanopb, an implementation of Protocol Buffers for small devices.  This project
models both and proves what they promise.

## The store

A state is a memtable, perhaps an immutable memtable, seven levels of table
files, a file-number counter, the last sequence number, and the live snapshots.
Beside them stands the history of all sequenced operations, which is the
specification.  `DbState` lists the steps: batch writes, memtable switches,
flushes, trivial moves, compactions, snapshots.  `Db` proves the invariant of
every run, and that every read at a live snapshot, or at the present, returns
the last write the history has for its key.  `DbImpl` is the object whose
methods take those steps.  Beneath them lie the searches of `Version`, the
choice of compaction inputs (`InputSelection`), the loop that drops entries
(`DropRules`, `CompactionWork`), and the version edits and their replay
(`VersionBuilder`, `Manifest`, `VersionEdit`, `ManifestLog`).

A compaction runs for a while beside other steps.  `Meanwhile` proves what
flushes do to its inputs, its drop decisions and its installation;
in `Durability` it begins in one step and is installed in another.

`GroupCommit` is the queue of writers, one step for each stretch of code
between two releases of the mutex.  `Durability` adds the logs, tables and
descriptor on disk, with the tables that jobs have built and not yet committed;
`LogBytes` reads back the bytes of a log that was cut short, `Recovery` opens
what a crash has left, and `Lifetimes` strings all of this together: any number
of crashes, from a new store on.

`DbIter`, `Merger` and `TwoLevel` are the iterators.  Each is proved to sit
where an index into one plain list would sit, whatever sequence of moves in
either direction led there.  `StoreIterator` puts them together: the list that
an iterator of the store walks is what the history has at its sequence number.

`LogFormat`, `LogWriter` and `LogReader` cover the record log, `BlockFormat`,
`BlockBuilder` and `BlockIter` the bytes of a block, `Table`, `FilterBlock` and
`Bloom` a table with its filter.  `SkipListModel` lets a reader load links
between the single stores of an insertion; `SkipList` is the code that makes
those stores.  `MemTable`, `Comparator`, `Coding`, `Crc32c`, `WriteBatch`,
`HandleTable`, `LruState`, `LruCache` and `SnapshotList` are what their names
say in the source.

## The messages

`PbTypes` describes messages by field descriptors; `PbWire` and `PbRead` say
what the bytes of a message are and how they are read; `PbEncode` and
`PbDecode` are the two streams, with their substreams and sizing passes.
`PbRoundTrip` shows what a receiver gets whose descriptor may lack some of the
sender's fields.

## Findings

Four promises do not hold of the code as it stands.  Each is shown by an
input, together with the exact condition under which the promise is kept.

- **A compaction can bring a deleted key back.**  `SetupOtherInputs` closes the
  upper edge of the inputs at `level`, but not that of the files it takes from
  `level + 1`.  When an old snapshot has made an earlier compaction put two
  versions of a key into neighbouring files of `level + 1`, a later compaction
  can take the first file alone, drop the deletion marker in it, and leave the
  older value behind.  `SplitKey.SplitKeyIsExposed` gives the whole run from an
  empty store, each flush going to the level the code picks.  Reads are kept exactly when no dropped marker uncovers an older
  value (`DropRules.ReadsPreservedIff`); for that it is enough that no file left
  in `level + 1` continues the user key at which a file taken from it ends
  (`EdgeClosure.EdgeClosedIsSafe`), which a caller can look up before compacting.
- **A flush during a manual compaction can hide a write.**  The compaction loop
  flushes a full memtable, and the table may go into the very level the
  compaction writes to, if its keys meet no file there.  `CompactRange` may have
  selected files with a gap between them; an output that runs across the gap
  then overlaps the new file, which the code's own assertions forbid, and a
  lookup searches the wrong one.  `GapKey.FlushIsHidden` gives the run, in which
  the compaction begins with no memtable waiting.  The
  version stays valid exactly when no output spreads over a file flushed
  meanwhile (`Meanwhile.ValidIffClear`); selections without a gap always satisfy
  this (`Meanwhile.GapFreeIsClear`), and those of `PickCompaction` have none.
- **A string that fills its array is sent, and then refused.**  The encoder
  accepts a string without a terminator; the decoder wants room for one.
  `PbWire.FullStringIsRefused` is the smallest case.  `PbRoundTrip.RoundTrip`
  and `PbRoundTrip.ForwardCompatible` hold with `Roomy` as the exact condition:
  every string the receiver knows is shorter than its array.
- **The bounds check of a block entry adds in 32 bits.**  A key length and a
  value length whose sum is 2^32 or more can pass it.
  `BlockFormat.StrayIsAccepted` is such an entry; by `BlockFormat.HeadInside` an
  accepted entry lies inside its block if and only if the sum is below 2^32.
  `BlockIter` therefore speaks of finished blocks, and of other bytes up to the
  first entry of that kind.

The comment at `TwitterLite/Pods/leveldb-library/db/db_impl.cc:952-958` gives three
reasons why an obsolete marker may be dropped.  They pass over the files of
`level + 1` that are not being compacted, which is where the first finding lies;
the model follows the code.

## Model

| member | source | states |
|---|---|---|
| `DbImpl.DBImpl.constructor` | TwitterLite/Pods/leveldb-library/db/db_impl.cc:127-151 | a new store satisfies the invariant and is the initial state of the state machine |
| `DbImpl.DBImpl.Get` | TwitterLite/Pods/leveldb-library/db/db_impl.cc:1100-1145 | the search of memtable, immutable memtable and version returns the last write to the key in the history at the snapshot, or at the present without one |
| `DbImpl.DBImpl.Write` | TwitterLite/Pods/leveldb-library/db/db_impl.cc:1201-1237 | the operations of the batch are appended to the history under the next sequence numbers, and the call is a step of the state machine |
| `DbImpl.DBImpl.SwitchMemTable` | TwitterLite/Pods/leveldb-library/db/db_impl.cc:1345-1366 | the full memtable becomes the immutable one; the invariant holds again |
| `DbImpl.DBImpl.CompactMemTable` | TwitterLite/Pods/leveldb-library/db/db_impl.cc:535-566 | the immutable memtable becomes a table in the level picked for it, and reads are kept |
| `DbImpl.DBImpl.RunCompaction` | TwitterLite/Pods/leveldb-library/db/db_impl.cc:716-743 | for any selected compaction the levels stay in order and history and snapshots are untouched; if the upper edge of the lower inputs is closed, every read is kept |
| `DbImpl.DBImpl.BackgroundCompaction` | TwitterLite/Pods/leveldb-library/db/db_impl.cc:688-743 | a waiting memtable is flushed before anything else; otherwise the compaction chosen is well selected, without gaps if it starts from a file, and it is carried out |
| `DbImpl.DBImpl.GetSnapshot` | TwitterLite/Pods/leveldb-library/db/db_impl.cc:1166-1169 | the present sequence number becomes a live snapshot |
| `DbImpl.DBImpl.ReleaseSnapshot` | TwitterLite/Pods/leveldb-library/db/db_impl.cc:1171-1174 | the snapshot is no longer live; the invariant holds again |
| `DbImpl.WriteLevel0Table` | TwitterLite/Pods/leveldb-library/db/db_impl.cc:491-533 | the table of the immutable memtable, if it has entries, is installed at the level that is picked for it |
| `Db.Get` | TwitterLite/Pods/leveldb-library/db/db_impl.cc:1117-1138 | in a state satisfying the invariant, the layered search answers as the history does, for every key and every sequence number from the oldest snapshot on |
| `Db.StepKeeps` | TwitterLite/Pods/leveldb-library/db/db_impl.cc:688-767 | every step (batch write, switch, flush, trivial move, safe compaction, snapshot taken or released) keeps the invariant |
| `Db.RunKeeps` | TwitterLite/Pods/leveldb-library/db/db_impl.cc:688-767 | every state of every run from the empty store satisfies the invariant |
| `Db.RunReads` | TwitterLite/Pods/leveldb-library/include/leveldb/db.h:80-106 | in every state of every run whose compactions expose nothing, the entries of the whole store decide reads at the present and at live snapshots as the history does (the search for them is `Db.Get`) |
| `DbFormat.LastWriteIsRead` | TwitterLite/Pods/leveldb-library/include/leveldb/db.h:63-88 | reading the newest visible entry of a set of entries is the same as scanning the history backwards for the last write |
| `Version.FindFile` | TwitterLite/Pods/leveldb-library/db/version_set.cc:88-106 | on a sorted level the binary search finds the first file whose largest key is at or after the key |
| `Version.TableGetIsNewest` | TwitterLite/Pods/leveldb-library/db/version_set.cc:256-276 | the first entry at or after the lookup key is the newest visible one of its user key, and a different user key there means that none is visible |
| `Version.GetFromLevel0` | TwitterLite/Pods/leveldb-library/db/version_set.cc:349-364 | among overlapping files, trying the newest first finds the newest visible entry |
| `Version.GetFromSortedLevel` | TwitterLite/Pods/leveldb-library/db/version_set.cc:365-381 | one file at most has to be looked at, and its answer is that of the level |
| `Version.Get` | TwitterLite/Pods/leveldb-library/db/version_set.cc:326-421 | stopping at the first level that knows the key gives the newest visible entry of the whole version; nothing found means nothing is visible |
| `InputSelection.SomeFileOverlapsRange` | TwitterLite/Pods/leveldb-library/db/version_set.cc:122-157 | true exactly if some file meets the range, on both the linear and the binary-search path |
| `InputSelection.GetOverlappingInputs` | TwitterLite/Pods/leveldb-library/db/version_set.cc:519-559 | the files that meet the range; at level 0 those of the least closed range around the request |
| `InputSelection.FindSmallestBoundaryFile` | TwitterLite/Pods/leveldb-library/db/version_set.cc:1344-1362 | none exactly if no file continues the user key, else the first that does |
| `InputSelection.AddBoundaryInputs` | TwitterLite/Pods/leveldb-library/db/version_set.cc:1378-1401 | the selection is extended, within the level and without repetition, until no file continues its largest user key, and not at all if none did; a run of a sorted level stays a run, and files without gaps stay so |
| `InputSelection.SetupOtherInputs` | TwitterLite/Pods/leveldb-library/db/version_set.cc:1403-1462 | what is left at the level is newer, key by key, than what is taken; the lower inputs are exactly the files that meet the range of the upper ones; the starting files are among the inputs; if they leave no gap, neither do the inputs |
| `InputSelection.ExpandInputs` | TwitterLite/Pods/leveldb-library/db/version_set.cc:1417-1447 | growing the upper inputs keeps both guarantees, loses no file and opens no gap |
| `InputSelection.PickCompaction` | TwitterLite/Pods/leveldb-library/db/version_set.cc:1305-1321 | from any file of any level, the selection satisfies the guarantees, contains the file, and leaves no gap between the inputs |
| `InputSelection.CompactRange` | TwitterLite/Pods/leveldb-library/db/version_set.cc:1464-1495 | nothing to do means that no file meets the range; otherwise the selection, cut at the size limit, satisfies the guarantees |
| `InputSelection.PickLevelForMemTableOutput` | TwitterLite/Pods/leveldb-library/db/version_set.cc:491-516 | exactly the first level at which the range is blocked, by an overlap there at level 0 or in the next level, or by too much data two levels down, and level 2 if at none |
| `DropRules.ReadsPreservedIff` | TwitterLite/Pods/leveldb-library/db/db_impl.cc:929-963 | dropping by rules (A) and (B) keeps all reads of a user key at or above the oldest snapshot if and only if no dropped marker uncovers an older value |
| `DropRules.KeptMembers` | TwitterLite/Pods/leveldb-library/db/db_impl.cc:945-996 | the kept entries are exactly the input entries that neither rule drops |
| `CompactionWork.MakeInput` | TwitterLite/Pods/leveldb-library/db/version_set.cc:1237-1268 | the merged input is sorted and holds exactly the entries of the files |
| `CompactionWork.Cursor.IsBaseLevelForKey` | TwitterLite/Pods/leveldb-library/db/version_set.cc:1533-1552 | while keys ascend, the forward-only pointers give the answer of a full scan of the deeper levels |
| `CompactionWork.DoCompactionWork` | TwitterLite/Pods/leveldb-library/db/db_impl.cc:878-1036 | whatever the output cuts, the outputs together hold exactly the entries the drop rules keep, in order, under consecutive numbers |
| `CompactionEffect.OutputsSorted` | TwitterLite/Pods/leveldb-library/db/db_impl.cc:974-996 | a sorted run cut anywhere gives valid, ascending, disjoint tables |
| `CompactionEffect.ReplacedValid` | TwitterLite/Pods/leveldb-library/db/db_impl.cc:860-876 | putting the outputs in the place of the inputs keeps every level invariant of the version |
| `CompactionEffect.AddedValid` | TwitterLite/Pods/leveldb-library/db/db_impl.cc:550-555 | adding the table of a memtable newer than the version keeps every level invariant and adds exactly its entries |
| `EdgeClosure.EdgeClosedIsSafe` | TwitterLite/Pods/leveldb-library/db/version_set.cc:1403-1447 | if no file left at the lower level continues the user key at the end of a file taken from it, the compaction exposes nothing |
| `EdgeClosure.OlderLiesDeep` | TwitterLite/Pods/leveldb-library/db/db_impl.cc:949-958 | under that condition the comment's claim holds: older entries of a key outside the inputs lie two or more levels down |
| `SplitKey.SplitKeyIsExposed` | TwitterLite/Pods/leveldb-library/db/version_set.cc:1403-1462 | a run of the store, by steps the background thread takes, reaches a state where the selected inputs, compacted, bring a deleted key back |
| `Meanwhile.ValidIffClear` | TwitterLite/Pods/leveldb-library/db/version_set.cc:723-754 | a compaction during which memtables were flushed leaves a valid version if and only if none of its outputs spreads over a file flushed meanwhile |
| `Meanwhile.GapFreeIsClear` | TwitterLite/Pods/leveldb-library/db/version_set.cc:1403-1447 | inputs without a gap between them always satisfy that condition |
| `Meanwhile.DecidedSafely` | TwitterLite/Pods/leveldb-library/db/db_impl.cc:890-963 | drop decisions by the version and snapshot at the beginning of a compaction expose nothing in the version it is installed into, if its upper edge was closed |
| `GapKey.FlushIsHidden` | TwitterLite/Pods/leveldb-library/db/db_impl.cc:906-918 | a run of the store, by steps the background thread takes, reaches a state with no memtable waiting where a manual compaction begins; a flush while it works leaves overlapping files, and no level finds the last write to a key |
| `SnapshotList.List.New` | TwitterLite/Pods/leveldb-library/db/snapshot.h:57-70 | the new snapshot is linked in behind all others |
| `SnapshotList.List.Delete` | TwitterLite/Pods/leveldb-library/db/snapshot.h:79-86 | the ring without the snapshot, in the same order |
| `SnapshotList.List.Oldest` | TwitterLite/Pods/leveldb-library/db/snapshot.h:47-50 | the first node; none held is older |
| `VersionBuilder.Builder.Apply` | TwitterLite/Pods/leveldb-library/db/version_set.cc:650-692 | every level records the deletions and then the additions of the edit, an addition cancelling a deletion |
| `VersionBuilder.Builder.SaveTo` | TwitterLite/Pods/leveldb-library/db/version_set.cc:695-754 | every level is the ordered list of exactly the base and added files that are not deleted |
| `VersionBuilder.ReplayEqualsInstall` | TwitterLite/Pods/leveldb-library/db/version_set.cc:945-947 | if no (level, number) pair is added twice, applying all edits to one builder leaves the files that installing them one by one does |
| `VersionBuilder.OrderedUnique` | TwitterLite/Pods/leveldb-library/db/version_set.cc:594-605 | an ordered file list is determined by its files |
| `Manifest.LogAndApply` | TwitterLite/Pods/leveldb-library/db/version_set.cc:816-822 | the new version is what the edit makes of the current one |
| `Manifest.Replay` | TwitterLite/Pods/leveldb-library/db/version_set.cc:916-988 | the recovered levels are the ordered lists of the files that installing the edits one by one leaves |
| `Manifest.RecoverCurrent` | TwitterLite/Pods/leveldb-library/db/version_set.cc:886-1011 | replaying snapshot record and later edits rebuilds, list for list, the version that was current last |
| `ManifestLog.RecoverFromRecords` | TwitterLite/Pods/leveldb-library/db/version_set.cc:929-968 | the same from the encoded records: decoding and replaying their bytes rebuilds the current version |
| `EditCodec.ReadsItem` | TwitterLite/Pods/leveldb-library/db/version_edit.cc:113-191 | every encoded item is read back as itself |
| `VersionEdit.EncodeTo` | TwitterLite/Pods/leveldb-library/db/version_edit.cc:41-85 | the bytes are the encodings of the set fields, in the order of the code |
| `VersionEdit.VersionEdit.DecodeFrom` | TwitterLite/Pods/leveldb-library/db/version_edit.cc:107-205 | on any bytes: the items before the first malformed one are applied to a cleared edit, whose compaction pointers stay, and success means that there is no malformed one |
| `VersionEdit.ScansEncoding` | TwitterLite/Pods/leveldb-library/db/version_edit.cc:107-205 | the items found in an encoding are exactly the encoded ones |
| `VersionEdit.RoundTrip` | TwitterLite/Pods/leveldb-library/db/version_edit.cc:41-205 | decoding an encoded edit gives the edit back |
| `WriteBatch.Batch.Put` | TwitterLite/Pods/leveldb-library/db/write_batch.cc:98-103 | one more update at the end of the batch, in the bytes and in the count |
| `WriteBatch.Batch.Delete` | TwitterLite/Pods/leveldb-library/db/write_batch.cc:105-109 | one more deletion at the end of the batch |
| `WriteBatch.Batch.Append` | TwitterLite/Pods/leveldb-library/db/write_batch.cc:144-148 | the updates of the other batch follow |
| `WriteBatch.InsertInto` | TwitterLite/Pods/leveldb-library/db/write_batch.cc:42-80 | an encoded batch inserts all of its updates under consecutive numbers; success always means as many insertions as the header counts |
| `GroupCommit.BuildBatchGroup` | TwitterLite/Pods/leveldb-library/db/db_impl.cc:1260-1306 | the group is the longest run of writers that may join, and the batch is their updates in queue order |
| `GroupCommit.WakeGroup` | TwitterLite/Pods/leveldb-library/db/db_impl.cc:1239-1248 | exactly the writers of the group leave the queue, each with the status of the group |
| `GroupCommit.GroupSync` | TwitterLite/Pods/leveldb-library/db/db_impl.cc:1282-1285 | a group led by a writer without sync holds no writer that wants one |
| `GroupCommit.RunKeeps` | TwitterLite/Pods/leveldb-library/db/db_impl.cc:1185-1256 | every state of every run of the queue satisfies its invariant |
| `GroupCommit.Acknowledged` | TwitterLite/Pods/leveldb-library/db/db_impl.cc:1201-1256 | in every run: of two accepted batches both stand in log records, synced if asked for; the one answered first has the smaller sequence numbers; neighbours in one record adjoin |
| `GroupCommit.AcknowledgedPlaced` | TwitterLite/Pods/leveldb-library/db/db_impl.cc:1201-1256 | in every run each accepted batch stands whole at its place in a log record, synced if asked for |
| `GroupCommit.GroupsOwnTheLog` | TwitterLite/Pods/leveldb-library/db/db_impl.cc:1213-1248 | in every run: every writer has the status of its group; each group that wrote owns one record, in order, made of exactly its updates; after a failed sync no group is accepted |
| `GroupCommit.FirstComeFirstServed` | TwitterLite/Pods/leveldb-library/db/db_impl.cc:1191-1253 | in every run each writer is answered once, in the order of joining, and the others are still queued |
| `Durability.InitialDurInv` | TwitterLite/Pods/leveldb-library/db/db_impl.cc:182-212 | a new store satisfies the durability invariant |
| `Durability.DeleteTableKeeps` | TwitterLite/Pods/leveldb-library/db/db_impl.cc:232-277 | deleting a table that is in no referenced version and not pending loses nothing that any reader, job or recovery needs |
| `Durability.DeleteLogKeeps` | TwitterLite/Pods/leveldb-library/db/db_impl.cc:243-247 | deleting a log below the log number of the manifest loses nothing recovery needs |
| `Durability.BuiltIsNew` | TwitterLite/Pods/leveldb-library/db/db_impl.cc:786-858 | what a compaction has built is still on disk at its commit, under numbers no version uses |
| `Durability.CompactCommitKeeps` | TwitterLite/Pods/leveldb-library/db/db_impl.cc:878-1036 | a compaction that began at an earlier state, with any writes, flushes, snapshots and deletions since, keeps the durability invariant when it is installed |
| `Durability.DurStepKeeps` | TwitterLite/Pods/leveldb-library/db/db_impl.cc:535-566 | every step (append, sync, acknowledgement, switch, table building, the beginning and the commit of a compaction, flush, move, deletions) keeps: tables stand for a prefix of the history and the logs from the log number on hold the rest |
| `Durability.SyncedSurvives` | TwitterLite/Pods/leveldb-library/db/db_impl.cc:1217-1222 | a write acknowledged after a sync is in whatever a power loss leaves of the log that holds it |
| `LogBytes.AppendBatch` | TwitterLite/Pods/leveldb-library/db/db_impl.cc:1214-1215 | the encoded batch of a group becomes one more record of the log, in bytes |
| `LogBytes.ReadLog` | TwitterLite/Pods/leveldb-library/db/db_impl.cc:408-434 | from the bytes of a log cut anywhere beyond its synced part: exactly a prefix of its batches, the synced ones among them |
| `LogBytes.ReadLogs` | TwitterLite/Pods/leveldb-library/db/db_impl.cc:323-362 | what is read from the bytes of all logs is a crash image, from which recovery starts |
| `Recovery.RecoverLogFile` | TwitterLite/Pods/leveldb-library/db/db_impl.cc:371-489 | replaying a log puts exactly its operations on top of what was recovered, into level-0 tables, and tells the largest sequence number |
| `Recovery.Recover` | TwitterLite/Pods/leveldb-library/db/db_impl.cc:280-369 | opening what a crash left gives a store whose history is what remained, which satisfies the durability invariant again |
| `Recovery.SyncedRemain` | TwitterLite/Pods/leveldb-library/db/db_impl.cc:316-362 | every write acknowledged after a sync is in that history, whatever the logs lost beyond their synced part |
| `Recovery.NothingLost` | TwitterLite/Pods/leveldb-library/db/db_impl.cc:316-362 | if the logs are whole, so is the history, with at most the batch on its way at its end |
| `Lifetimes.LifeKeeps` | TwitterLite/Pods/leveldb-library/db/db_impl.cc:1474-1515 | every state of every life of a store, with any number of crashes, satisfies the durability invariant |
| `Lifetimes.AcknowledgedAccounted` | TwitterLite/Pods/leveldb-library/db/db_impl.cc:223-278 | in every life no table of a referenced version and no needed log is ever missing, and each acknowledged write is in the part of the history the tables stand for or in a needed log |
| `Lifetimes.LifeReads` | TwitterLite/Pods/leveldb-library/include/leveldb/db.h:80-106 | in every state of every life, reads at the present and at live snapshots are those of the history |
| `Lifetimes.SyncedForever` | TwitterLite/Pods/leveldb-library/db/db_impl.cc:1217-1222 | a write once acknowledged after a sync stays in the history whatever crashes follow |
| `Lifetimes.ProcessCrashLosesNothing` | TwitterLite/Pods/leveldb-library/db/db_impl.cc:280-369 | a crash that takes nothing written to the logs loses no acknowledged write |
| `DbIter.PairsAreReads` | TwitterLite/Pods/leveldb-library/db/db_iter.cc:34-38 | the list the iterator walks holds exactly the pairs that reads at its sequence number find (the walk itself is in the contracts of `DbIter.DBIter`) |
| `DbIter.PairsAscend` | TwitterLite/Pods/leveldb-library/db/db_iter.cc:34-38 | the list is in strictly increasing key order |
| `DbIter.DBIter.Seek` | TwitterLite/Pods/leveldb-library/db/db_iter.cc:269-281 | lands on the first pair of the list at or after the target |
| `DbIter.DBIter.SeekToFirst` | TwitterLite/Pods/leveldb-library/db/db_iter.cc:283-292 | lands on the first pair of the list |
| `DbIter.DBIter.SeekToLast` | TwitterLite/Pods/leveldb-library/db/db_iter.cc:294-299 | lands on the last pair of the list |
| `DbIter.DBIter.Next` | TwitterLite/Pods/leveldb-library/db/db_iter.cc:141-166 | moves one pair on, from either direction |
| `DbIter.DBIter.Prev` | TwitterLite/Pods/leveldb-library/db/db_iter.cc:200-225 | moves one pair back, from either direction |
| `DbIter.DBIter.FindNextUserEntry` | TwitterLite/Pods/leveldb-library/db/db_iter.cc:168-198 | stops at the first entry at or after the start that is yielded, and steps over none |
| `DbIter.DBIter.FindPrevUserEntry` | TwitterLite/Pods/leveldb-library/db/db_iter.cc:227-267 | stops having found the last yielded entry before the start |
| `StoreIterator.NewIterator` | TwitterLite/Pods/leveldb-library/db/db_impl.cc:1062-1157 | the iterator over the merge of memtables, level-0 tables and one run for each further level shows, in key order, exactly the pairs the history has at its sequence number |
| `StoreIterator.ConcatenatingIterator` | TwitterLite/Pods/leveldb-library/db/version_set.cc:223-228 | one cursor over all entries of a level, found through the largest keys of its files |
| `Merger.SmallestIsNext` | TwitterLite/Pods/leveldb-library/table/merger.cc:148-161 | the smallest entry the children stand on is the next of the sorted merge |
| `Merger.LargestIsPrevious` | TwitterLite/Pods/leveldb-library/table/merger.cc:163-176 | the largest entry the children stand on is the one before |
| `Merger.MergingIterator.SeekToFirst` | TwitterLite/Pods/leveldb-library/table/merger.cc:31-37 | lands on the first entry of the merge |
| `Merger.MergingIterator.SeekToLast` | TwitterLite/Pods/leveldb-library/table/merger.cc:39-45 | lands on the last entry of the merge |
| `Merger.MergingIterator.Seek` | TwitterLite/Pods/leveldb-library/table/merger.cc:47-53 | lands on the first entry of the merge at or after the target |
| `Merger.MergingIterator.Next` | TwitterLite/Pods/leveldb-library/table/merger.cc:55-79 | moves one entry on in the merge, turning the children round if need be |
| `Merger.MergingIterator.Prev` | TwitterLite/Pods/leveldb-library/table/merger.cc:81-108 | moves one entry back in the merge, turning the children round if need be |
| `TwoLevel.TargetIsLowerBound` | TwitterLite/Pods/leveldb-library/table/two_level_iterator.cc:82-87 | index plus one block find the place that a search of the concatenated blocks would |
| `TwoLevel.TwoLevelIterator.Seek` | TwitterLite/Pods/leveldb-library/table/two_level_iterator.cc:82-87 | lands on the first entry of the concatenation at or after the target |
| `TwoLevel.TwoLevelIterator.SeekToFirst` | TwitterLite/Pods/leveldb-library/table/two_level_iterator.cc:89-94 | lands on the first entry |
| `TwoLevel.TwoLevelIterator.SeekToLast` | TwitterLite/Pods/leveldb-library/table/two_level_iterator.cc:96-101 | lands on the last entry |
| `TwoLevel.TwoLevelIterator.Next` | TwitterLite/Pods/leveldb-library/table/two_level_iterator.cc:103-107 | moves one entry on, over empty blocks |
| `TwoLevel.TwoLevelIterator.Prev` | TwitterLite/Pods/leveldb-library/table/two_level_iterator.cc:109-113 | moves one entry back, over empty blocks |
| `LogWriter.Writer.AddRecord` | TwitterLite/Pods/leveldb-library/db/log_writer.cc:34-80 | appends exactly the fragments that `LogFormat.Emit` describes; an empty record gets one |
| `LogWriter.Writer.Append` | TwitterLite/Pods/leveldb-library/db/log_writer.cc:34-80 | a file that is the log of some records becomes the log of those and the new one |
| `LogReader.Reader.ReadPhysicalRecord` | TwitterLite/Pods/leveldb-library/db/log_reader.cc:189-271 | on any file, block by block: the physical record, the consumed bytes and the reported drops are those of `LogFormat.Parse` at the position |
| `LogReader.Reader.ReadRecord` | TwitterLite/Pods/leveldb-library/db/log_reader.cc:56-174 | on a log cut anywhere: the next record if its last byte survived, else the end; nothing is reported |
| `LogReader.ReadAll` | TwitterLite/Pods/leveldb-library/db/log_reader.cc:56-271 | on a log cut at any byte: exactly the records whose last byte survived, in order, and no report of corruption |
| `Crc32c.ExtendConcat` | TwitterLite/Pods/leveldb-library/util/crc32c.cc:276-377 | the checksum of a concatenation extends that of its first part |
| `Crc32c.UnmaskMask` | TwitterLite/Pods/leveldb-library/util/crc32c.h:29-38 | unmasking undoes masking |
| `Crc32c.SealedIff` | TwitterLite/Pods/leveldb-library/db/log_reader.cc:243-257 | the reader accepts a header exactly if it holds the four bytes the writer computes for type and payload |
| `BlockBuilder.BlockBuilder.Add` | TwitterLite/Pods/leveldb-library/table/block_builder.cc:72-106 | the block under construction holds one more entry, whether its key is shared or a restart point |
| `BlockBuilder.BlockBuilder.Finish` | TwitterLite/Pods/leveldb-library/table/block_builder.cc:62-70 | the bytes are a block of exactly the entries added, in key order |
| `BlockFormat.ReadsEntry` | TwitterLite/Pods/leveldb-library/table/block.cc:224-251 | from the key before it, or any key at a restart point, an entry is read back whole |
| `BlockFormat.HeadInside` | TwitterLite/Pods/leveldb-library/table/block.cc:54-74 | what an accepted entry head describes lies inside the block if and only if its two lengths sum to less than 2^32 |
| `BlockFormat.StrayIsAccepted` | TwitterLite/Pods/leveldb-library/table/block.cc:70-72 | a head whose lengths sum to 2^32 is accepted although key and value lie outside |
| `BlockIter.NewIterator` | TwitterLite/Pods/leveldb-library/table/block.cc:254-264 | a finished block gets an iterator; any other bytes an error, an iterator over nothing, or one |
| `BlockIter.Iter.Seek` | TwitterLite/Pods/leveldb-library/table/block.cc:163-201 | on a finished block lands on the first entry at or after the target |
| `BlockIter.Iter.SeekToFirst` | TwitterLite/Pods/leveldb-library/table/block.cc:203-206 | on a finished block lands on the first entry |
| `BlockIter.Iter.SeekToLast` | TwitterLite/Pods/leveldb-library/table/block.cc:208-213 | on a finished block lands on the last entry |
| `BlockIter.Iter.Next` | TwitterLite/Pods/leveldb-library/table/block.cc:137-140 | on a finished block moves one entry on |
| `BlockIter.Iter.Prev` | TwitterLite/Pods/leveldb-library/table/block.cc:142-161 | on a finished block moves one entry back, by way of a restart point |
| `BlockIter.Iter.ParseNextKey` | TwitterLite/Pods/leveldb-library/table/block.cc:224-251 | on any bytes parsing moves forward inside the block or stops; on a finished block it yields the next entry |
| `Table.TableBuilder.Add` | TwitterLite/Pods/leveldb-library/table/table_builder.cc:94-123 | one more entry at the end of the table; index and filter stay consistent |
| `Table.TableBuilder.Finish` | TwitterLite/Pods/leveldb-library/table/table_builder.cc:198-253 | the table holds exactly the entries added, its index separates its blocks, and its filter, if the policy misses no key, rejects no key of its block |
| `Table.IndexSeparates` | TwitterLite/Pods/leveldb-library/table/table_builder.cc:102-109 | whatever separators are chosen, the index leads every key to its block |
| `Table.InternalGet` | TwitterLite/Pods/leveldb-library/table/table.cc:216-244 | with or without a sound filter, the outcome is that of a search of the whole contents |
| `Table.BloomAnswers` | TwitterLite/Pods/leveldb-library/table/filter_block.cc:90-104 | with the Bloom policy the filter of a finished table is sound; nothing is supposed of the hash |
| `FilterBlock.FilterBlockBuilder.Finish` | TwitterLite/Pods/leveldb-library/table/filter_block.cc:35-49 | a filter block with one filter for every 2 KiB of offsets, over the keys that belong there |
| `FilterBlock.KeyMayMatch` | TwitterLite/Pods/leveldb-library/table/filter_block.cc:90-104 | on a finished filter block, the answer of the one filter for the offset |
| `FilterBlock.NeverRejected` | TwitterLite/Pods/leveldb-library/table/filter_block.cc:21-75 | a key added for a block is in the filter that is consulted for it |
| `Bloom.CreateFilter` | TwitterLite/Pods/leveldb-library/util/bloom.cc:28-54 | appends the filter of the keys, which matches every one of them |
| `Bloom.KeyMayMatch` | TwitterLite/Pods/leveldb-library/util/bloom.cc:56-80 | false for a filter of less than two bytes, true for one of an unknown kind, and otherwise true exactly if every probe of the key finds its bit set |
| `Bloom.BloomNeverMisses` | TwitterLite/Pods/leveldb-library/include/leveldb/filter_policy.h:46-51 | no key a Bloom filter was made for is rejected by it, for every hash, filter size and number of probes |
| `Comparator.RankPreservesOrder` | TwitterLite/Pods/leveldb-library/util/comparator.cc:25-27 | byte strings compare as real numbers, and different strings have different numbers |
| `Comparator.FindShortestSeparator` | TwitterLite/Pods/leveldb-library/util/comparator.cc:29-50 | at or after the start, before the limit, no longer than the start |
| `Comparator.FindShortSuccessor` | TwitterLite/Pods/leveldb-library/util/comparator.cc:52-64 | at or after the key, no longer; unchanged only if the key is all 0xff |
| `Comparator.FindShortestKeySeparator` | TwitterLite/Pods/leveldb-library/db/dbformat.cc:69-86 | at or after the start, before the limit; a changed key has a user key strictly between theirs |
| `Comparator.EncodedOrder` | TwitterLite/Pods/leveldb-library/db/dbformat.cc:51-67 | encoded internal keys compare as the abstract ones |
| `Comparator.ParseEncoded` | TwitterLite/Pods/leveldb-library/db/dbformat.h:165-175 | parsing an encoded internal key gives its parts back |
| `MemTable.MemTable.Add` | TwitterLite/Pods/leveldb-library/db/memtable.cc:75-98 | the encoded entries stay in key order, with one more |
| `MemTable.MemTable.Get` | TwitterLite/Pods/leveldb-library/db/memtable.cc:100-134 | nothing, a deletion or a value, as the first entry at or after the lookup key says |
| `MemTable.AnswersReads` | TwitterLite/Pods/leveldb-library/db/memtable.cc:100-134 | that is what a read of the entries added says |
| `SkipListModel.SearchIsExact` | TwitterLite/Pods/leveldb-library/db/skiplist.h:260-281 | however single loads and stores interleave, a search that ends returns the lower bound among the keys present at its last load |
| `SkipListModel.RunKeeps` | TwitterLite/Pods/leveldb-library/db/skiplist.h:336-368 | after every store of every insertion each level is sorted and holds exactly the nodes linked that high |
| `SkipListModel.PublishStepKeeps` | TwitterLite/Pods/leveldb-library/db/skiplist.h:361-367 | linking a node on one more level makes its key visible and disturbs no other |
| `SkipList.SkipList.FindGreaterOrEqual` | TwitterLite/Pods/leveldb-library/db/skiplist.h:260-281 | the first node at or after the key, and on each level the last node before it |
| `SkipList.SkipList.FindLessThan` | TwitterLite/Pods/leveldb-library/db/skiplist.h:283-302 | the last node before the key, or the head |
| `SkipList.SkipList.FindLast` | TwitterLite/Pods/leveldb-library/db/skiplist.h:304-322 | the last node, or the head |
| `SkipList.SkipList.Contains` | TwitterLite/Pods/leveldb-library/db/skiplist.h:370-378 | true exactly if the key is in the list |
| `SkipList.SkipList.Insert` | TwitterLite/Pods/leveldb-library/db/skiplist.h:336-368 | one more key, for every height |
| `HandleTable.Table.Lookup` | TwitterLite/Pods/leveldb-library/util/cache.cc:74-76 | what the table maps the tag to |
| `HandleTable.Table.Insert` | TwitterLite/Pods/leveldb-library/util/cache.cc:78-92 | the map with the tag changed; the entry displaced is returned; the table grows when full |
| `HandleTable.Table.Remove` | TwitterLite/Pods/leveldb-library/util/cache.cc:94-102 | the map without the tag; its entry is returned |
| `HandleTable.Table.Resize` | TwitterLite/Pods/leveldb-library/util/cache.cc:122-146 | the same map in at least as many buckets as entries |
| `LruState.ReferencedOk` | TwitterLite/Pods/leveldb-library/util/cache.cc:217-223 | one more reference keeps counts, lists, table and charge consistent |
| `LruState.ReleasedOk` | TwitterLite/Pods/leveldb-library/util/cache.cc:225-237 | one reference less keeps them consistent |
| `LruState.DroppedOk` | TwitterLite/Pods/leveldb-library/util/cache.cc:307-316 | an entry leaving the cache keeps them consistent, and takes away nothing a client holds |
| `LruState.DeletedWhenFree` | TwitterLite/Pods/leveldb-library/util/cache.cc:225-237 | an entry is deleted on leaving the cache exactly if no client holds it |
| `LruCache.LRUCache.Lookup` | TwitterLite/Pods/leveldb-library/util/cache.cc:252-259 | the cached entry, referenced once more, or nothing and no change |
| `LruCache.LRUCache.Release` | TwitterLite/Pods/leveldb-library/util/cache.cc:261-264 | the client holds the entry once less |
| `LruCache.LRUCache.Insert` | TwitterLite/Pods/leveldb-library/util/cache.cc:266-303 | the new entry is held once and found under its tag; the charge fits or nothing unused is left; what clients hold stays |
| `LruCache.LRUCache.Erase` | TwitterLite/Pods/leveldb-library/util/cache.cc:318-321 | the tag is gone, and what clients hold stays |
| `LruCache.LRUCache.Prune` | TwitterLite/Pods/leveldb-library/util/cache.cc:323-333 | every unused entry is gone, and what clients hold stays |
| `LruCache.OldestGoFirst` | TwitterLite/Pods/leveldb-library/util/cache.cc:293-300 | eviction takes a front part of the unused list, and no entry while the charge already fits |
| `Coding.FixedRoundTrip` | TwitterLite/Pods/leveldb-library/util/coding.cc:9-45 | a fixed-width number is read back |
| `Coding.EncodeVarint32` | TwitterLite/Pods/leveldb-library/util/coding.cc:47-73 | all five branches write the varint, in at most five bytes |
| `Coding.EncodeVarint64` | TwitterLite/Pods/leveldb-library/util/coding.cc:81-90 | the loop writes the varint, in at most ten bytes |
| `Coding.GetVarintPtr` | TwitterLite/Pods/leveldb-library/util/coding.cc:112-157 | shift and accumulate in word arithmetic gives what the bytes spell, modulo the word; too long or cut short means failure |
| `Coding.Varint64RoundTrip` | TwitterLite/Pods/leveldb-library/util/coding.cc:81-157 | a 64-bit varint is read back |
| `Coding.Varint32RoundTrip` | TwitterLite/Pods/leveldb-library/util/coding.cc:47-128 | a 32-bit varint is read back |
| `Coding.LengthPrefixedRoundTrip` | TwitterLite/Pods/leveldb-library/util/coding.cc:98-190 | a length-prefixed string is read back |
| `PbEncode.OStream.Encode` | TwitterLite/Pods/nanopb/pb_encode.c:528-550 | writes the fields in descriptor order; fails exactly if a count or length is out of bounds or the buffer too small |
| `PbEncode.OStream.EncodeSubmessage` | TwitterLite/Pods/nanopb/pb_encode.c:717-765 | sizing pass, length and second pass write the delimited message, and the two passes never disagree |
| `PbEncode.OStream.EncodeArray` | TwitterLite/Pods/nanopb/pb_encode.c:147-236 | packed and unpacked arrays, with the packed size by multiplication or by a sizing pass |
| `PbEncode.GetEncodedSize` | TwitterLite/Pods/nanopb/pb_encode.c:567-576 | succeeds exactly if encoding does, with the number of bytes it writes |
| `PbDecode.FindField` | TwitterLite/Pods/nanopb/pb_common.c:87-104 | the wrapping search finds the field with the tag, wherever it starts |
| `PbDecode.CheckRequired` | TwitterLite/Pods/nanopb/pb_decode.c:1046-1079 | true exactly if every required field, up to the 64th, was seen |
| `PbDecode.IStream.DecodeNoInit` | TwitterLite/Pods/nanopb/pb_decode.c:934-1082 | the stream loop, with substreams inside, reads what `PbRead.ReadBody` says of the bytes |
| `PbDecode.IStream.DecodeField` | TwitterLite/Pods/nanopb/pb_decode.c:406-483 | one field by its storage rule, packed arrays through a substream |
| `PbDecode.IStream.MakeSubstream` | TwitterLite/Pods/nanopb/pb_decode.c:372-385 | a stream over exactly the counted bytes; the parent goes on after them |
| `PbDecode.IStream.CloseSubstream` | TwitterLite/Pods/nanopb/pb_decode.c:387-400 | what the substream left unread is skipped |
| `PbDecode.IStream.DecodeVarint32` | TwitterLite/Pods/nanopb/pb_decode.c:187-252 | five bytes carry the value, further ones may only extend its sign |
| `PbDecode.Decode` | TwitterLite/Pods/nanopb/pb_decode.c:1084-1096 | decoding a whole buffer is `PbRead.Read` |
| `PbWire.SkipsValue` | TwitterLite/Pods/nanopb/pb_decode.c:321-331 | a value of any type is skipped exactly |
| `PbWire.WordRoundTrip` | TwitterLite/Pods/nanopb/pb_decode.c:1345-1428 | an integer of any width and signedness survives the casts to 64 bits and back |
| `PbWire.ScalarReads` | TwitterLite/Pods/nanopb/pb_decode.c:1447-1523 | an encoded scalar is read back exactly if the receiver has room for it, and otherwise refused |
| `PbWire.FullStringIsRefused` | TwitterLite/Pods/nanopb/pb_decode.c:1487-1523 | a string that fills its array is sent, and refused by its own descriptor |
| `PbRoundTrip.ForwardCompatible` | TwitterLite/Pods/nanopb/pb_decode.c:934-1082 | a receiver whose descriptor lacks fields reads the projection of the message if it has room for its strings, and refuses it otherwise |
| `PbRoundTrip.RoundTrip` | TwitterLite/Pods/nanopb/pb_encode.c:528-550 | with one descriptor on both sides, what was sent is what is read, exactly if the strings leave room for their terminators |

## Left out

- The application itself: screens, networking, Firebase.
- Files, directories, clocks, threads and the environment: what is read and written are parameters and results.
- I/O errors of the store outside `GroupCommit`, which has failing appends, failing syncs and background errors; `Durability` has abandoned outputs but no failing commit.
- Opening options: `reuse_logs`, `paranoid_checks`, `error_if_exists`; and the repair of damaged stores.
- The loss of whole files or directory entries, and of unsynced table or descriptor bytes: tables and descriptor are synced before they count.
- Durability.DurStepKeeps: installing a version is one step, although the mutex is released while the descriptor is written; and compactions are admitted only with a closed upper edge and without a gap between their inputs, without which the statement is false.
- Db.RunReads: runs admit only compactions that expose nothing, for the same reason; `DbImpl.DBImpl.RunCompaction` carries out any other and promises the structure alone.
- DbImpl.DBImpl.Write: numbering and memtable; the log, its syncing and the queue of writers are in `Durability`, `LogBytes` and `GroupCommit`.
- DbImpl.DBImpl.RunCompaction: one call, without a flush inside; compactions interleaved with other steps are in `Durability` and `Meanwhile`.
- Durability.FlushCommit: a flushed table keeps its pending number until the commit; the code gives it up as soon as the table is built, which is safe because the one background thread that could delete it is the one that goes on to commit it.
- CompactionWork.DoCompactionWork: all keys parse; the code passes damaged keys through, and stops when the store is shutting down.
- When compactions start: level scores, seek counts, compact pointers, slowdown and stop triggers.  Any file of any level may be chosen.
- When outputs and blocks are cut: grandparent overlap and sizes decide in the code, any choice here.
- Sequence numbers reaching 2^56 - 1, which the code assumes without checking not to happen.
- InputSelection.CompactRange: the restart of a manual compaction at the end of the last one is not part of this model.
- User keys in the engine are real numbers, places in the comparator's order; `Comparator.RankPreservesOrder` justifies this for the bytewise comparator.
- MemTable.MemTable.Add: the order of encoded entries is a sequence here; that the skip list keeps such an order is proved in `SkipList`.
- SkipListModel.SearchIsExact: loads and stores interleave one at a time on one memory; the weaker orders C++ allows with its acquire and release operations are not modelled, nor are backward searches of readers during an insertion.
- Table caches, block handles, footers, compression, and the checksum of blocks; `Table` has blocks as lists of entries, and their bytes are in `BlockBuilder` and `BlockIter`.
- BlockIter.NewIterator: blocks of less than 4 GiB, as everywhere in the table format.
- BlockIter.Iter.ParseNextKey: upon an entry head whose lengths overflow 32 bits together the code reads outside the block; the model stops there and marks the iterator as strayed, and says nothing of what the code then does.
- Bloom.CreateFilter: the number of probes is a parameter; the code takes 0.69 times the bits per key, between 1 and 30.
- Crc32c.ExtendConcat: the checksum is modelled a byte at a time; the tables by which the code takes sixteen bytes at a time, and accelerated instructions, are not.
- Lifetimes.LifeReads: reads are over all entries of the store; that the searches of memtables and levels find them is `Db.Get`.
- LogReader.ReadAll: reading starts at offset zero; resynchronisation at another offset is not part of this model.
- LogReader.Reader.ReadRecord: on files that are not a log cut short, its contract promises progress only; each physical record is given exactly by `LogReader.Reader.ReadPhysicalRecord`.
- HandleTable.Table.Resize: the doubling from four buckets is followed, the power-of-two mask written as a remainder.
- Sharding of the block cache, and the values its entries carry.
- nanopb's callback and pointer fields, extensions, default values other than zero, fixed-length byte fields, builds without 64-bit integers, and custom streams.
- PbDecode.IStream.DecodeVarint32: the bit position is unbounded, where an eight-bit type wraps past 255; the two agree on varints of up to 37 bytes.
- PbRoundTrip.ForwardCompatible: messages of at least 4 GiB, whose lengths a receiver cannot read, are excluded; a sender's field numbers are positive and below 2^29.
- PbEncode.OStream.Encode: the structure holds values of its C types, and sizes fit 64 bits.
- VersionEdit.RoundTrip: deleted files are in the order of the set that holds them; strings and numbers fit 32 and 64 bits.
- Manifest.RecoverCurrent: that no two edits add the same (level, file number) pair is required; in a store it holds because numbers are drawn from one counter and files only move down.
- WriteBatch.Batch.Append: fewer than 2^32 updates, keys and values of less than 4 GiB, as the format assumes.
