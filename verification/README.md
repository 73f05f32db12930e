# Models and proofs for the storage engine and the message codec

This project models, in Dafny, the two libraries that carry the hard logic of the repository, and proves
that they do what they are for.

**LevelDB's `db/` layer** is a log-structured storage engine. Its specification is small: a map from user
key to value as of a sequence number, written `Keys.Lookup`, the newest visible entry of a key. The code
that has to agree with it is not small, and is modelled piece by piece:

- `Keys`, `Levels`, `Overlaps`, `Compactions`, `OutputCuts`: internal keys, the lookup in a version of seven
  levels, the choice of compaction inputs, and the compaction loop with its rules for dropping entries and for
  cutting outputs.
- `VersionBuilder`, `Manifest`, `VersionSets`, `Recovering`, `EditCodec`: version edits, the builder that applies
  many of them at once, the version set over any run of edits and openings, what recovery reads, and the bytes
  of an edit.
- `LevelEdits`, `Boundaries`, `Engine`, `Straddle`, `Histories`: what flushes, compactions and moves do to the
  levels, as a state machine with readers that started earlier; exactly which steps its readers cannot tell; a
  run that ends in each of the two steps they can; and what snapshots read over whole runs.
- `DbIterator`: the bidirectional cursor that hides overwrites, tombstones and entries that are too new.
- `SkipLists`, `MemTables`: the lock-free skip list, store by store and load by load, and the memtable over it.
- `Coding`, `Logs`, `DamagedLogs`, `WriteBatches`, `LogRecovery`: bytes. Varints, the block-fragmented log and
  its reader on any file, damaged ones too, write batches, and what is replayed from a log that was cut anywhere.
- `GroupCommit`, `CommitProtocol`, `CommitAnswers`: how writers share a log record, that the result is as if they
  had not, and which answer each of them gets.
- `Storage`, `Retention`, `Background`, `Snapshots`: the files under the engine with crashes at any moment and
  deletion of obsolete files, which files that leaves, the scheduling of background work, and the list of live
  snapshots.

**nanopb** is a table-driven Protocol Buffers codec: `PbMessages` has descriptors, values and the specified
encoding, `PbEncoder` the two-pass encoder over streams, `PbFieldIter` the wrapping field iterator,
`PbDecoder` what the decoder makes of any input, `PbReader` the decoder as it runs over streams with limits,
`PbSchemas` what a message does to a structure of another schema, `PbRoundTrip` the theorems that connect the
two directions, and `PbWire` the numbers that are read and the bytes that are written.

Where the source changes things in place the model does too: classes with the source's fields, loops with
invariants, pointers for the skip list and the snapshot list. Each such method is tied to a function or
predicate of its inputs, and the properties are proved about those.

## What to know before reading

- *User keys are real numbers.* The engine only compares user keys. `Keys.RankIsBytewiseOrder` shows that byte
  strings embed in the reals in the order of the bytewise comparator; bytes appear where bytes matter.
- *Boundaries.* Files above level 0 are disjoint in internal keys only. A user key may straddle two
  neighbouring files, because an output can be cut in the middle of a key, and the choice of inputs does not
  pull in the neighbour. So the engine does not always preserve reads. `Straddle` has one run from the empty
  database to such a version, and from there a trivial move that hides a deletion and a compaction that drops
  it; both bring a deleted value back. The shape of the levels, the existence of files and the stability of
  reads that have started need no condition (`Engine.LevelsKeepTheirShape`, `Storage.NeededFilesExist`,
  `Engine.ReaderSeesSnapshot`). What reads return is proved with the exact condition, for a step
  (`Engine.StepIsSafeIff`) and for whole runs with crashes (`Storage.NothingIsLost`). It can be checked before
  the step, and it holds wherever no file left behind starts with an input's last user key
  (`Engine.ClosedIsSafe`).
- *Atomic steps.* A flush and the installation of a compaction are atomic relative to each other. Writers,
  readers and memtable switches interleave with both at any point; obsolete files are deleted where the
  background thread does it, after a job and in the middle of a compaction.
- *Crashes* are crashes of the process: appended bytes survive, the last record may be cut.
- *The check for required fields* in nanopb shifts a 32-bit word by 32 when a message has exactly 32 required
  fields, which C leaves undefined. The model makes the result a parameter (`PbDecoder.Machine`), proves the
  round trip wherever the check is right, and proves that it fails for every input otherwise
  (`PbRoundTrip.NothingDecodes`).
- *`VersionEdit::Clear`* leaves the compaction pointers in place, unlike everything else it resets; decoding
  into an edit that was used before adds pointers up. The model follows the code.
- The comment in the log reader about an empty first fragment speaks of earlier versions of the writer; the
  writer as it is still emits one when exactly a header fits in a block. The model follows the code, and the
  reader handles it.

## Model

| member | source | states |
|---|---|---|
| Keys.CompareIsLess | Journey/Pods/leveldb-library/db/dbformat.cc:50-66 | three-way comparison of internal keys (user key up, packed sequence and type down) is exactly the strict order the proofs use, and is zero only on equal keys |
| Keys.SeekKeySeparates | Journey/Pods/leveldb-library/db/dbformat.cc:121-138 | the key a lookup seeks to has every too-new entry of the user key before it and every visible one at or after it |
| Keys.LookupIs | Journey/Pods/leveldb-library/db/memtable.cc:108-143 | the specification of a read is well defined: the newest visible entry, whichever witness is taken |
| Keys.LookupLocal | Journey/Pods/leveldb-library/db/memtable.cc:108-143 | a read depends on the visible entries of its own user key and on nothing else |
| Keys.RankIsBytewiseOrder | Journey/Pods/leveldb-library/db/dbformat.cc:50-66 | byte strings embed into the real numbers in exactly the order of the bytewise comparator, so that user keys may be represented by ranks |
| Levels.FindFile | Journey/Pods/leveldb-library/db/version_set.cc:86-105 | binary search returns the first file whose largest key is at or after the key: everything before ends earlier, everything after does not |
| Levels.TableGet | Journey/Pods/leveldb-library/db/version_set.cc:268-281 | reading one table at a snapshot gives the newest visible entry of the key, or there is none |
| Levels.SortIsNewestFirst | Journey/Pods/leveldb-library/db/version_set.cc:283-285 | level-0 candidates are probed in descending file number, and none is lost |
| Levels.NewestProbeDecides | Journey/Pods/leveldb-library/db/version_set.cc:363-403 | with file numbers ordered by age the first level-0 file that has the key has its newest entry |
| Levels.GetFromLevel0 | Journey/Pods/leveldb-library/db/version_set.cc:349-403 | level 0: the newest visible entry among all overlapping files |
| Levels.LaterIsOlder | Journey/Pods/leveldb-library/db/version_set.cc:369-403 | why one probe per level is enough: a user key that straddles files is older in every later one, and the probed file has a newer visible entry |
| Levels.GetFromSortedLevel | Journey/Pods/leveldb-library/db/version_set.cc:369-403 | levels above 0: binary search and one file probe give the newest visible entry of the whole level, even when the key straddles files |
| Levels.FirstLevelDecides | Journey/Pods/leveldb-library/db/version_set.cc:349-429 | with newer data in shallower levels the first level that has the key decides |
| Levels.Get | Journey/Pods/leveldb-library/db/version_set.cc:332-429 | the whole lookup in a version equals the newest-visible specification over all its files, and reports nothing only if nothing is visible |
| Overlaps.SomeFileOverlapsRange | Journey/Pods/leveldb-library/db/version_set.cc:121-156 | true exactly when some file touches the user-key range, by scan or by binary search |
| Overlaps.PickLevelForMemTableOutput | Journey/Pods/leveldb-library/db/version_set.cc:502-528 | exactly which level a flush goes to: level 0 if something overlaps there; otherwise as deep as nothing overlaps and the level after holds few enough overlapping bytes, stopping at the first level where one of these fails or at level 2 |
| Overlaps.ScanRestart | Journey/Pods/leveldb-library/db/version_set.cc:556-569 | each restart keeps the range within every overlap-closed one and strictly shrinks what is outside it, so the restarts end |
| Overlaps.GetOverlappingInputs | Journey/Pods/leveldb-library/db/version_set.cc:531-572 | the files found are the selection for the least range around the request that is closed under overlap at level 0, and for the request itself elsewhere |
| Overlaps.GetRange | Journey/Pods/leveldb-library/db/version_set.cc:1224-1243 | the exact range of a set of input files |
| Overlaps.SelectWider | Journey/Pods/leveldb-library/db/version_set.cc:1364-1389 | a wider range selects at least as many files, and the same number only if the same files |
| Overlaps.SameCountSameLower | Journey/Pods/leveldb-library/db/version_set.cc:1364-1389 | an expansion that leaves the number of lower inputs unchanged leaves the lower inputs unchanged |
| Overlaps.CoversUnique | Journey/Pods/leveldb-library/db/version_set.cc:531-572 | a range determines what is found for it, at level 0 too: there is one least closed range around it |
| Overlaps.Expand | Journey/Pods/leveldb-library/db/version_set.cc:1364-1370 | the expanded upper inputs are what is found for the exact range of all inputs; they are closed and contain the original ones |
| Overlaps.SetupOtherInputs | Journey/Pods/leveldb-library/db/version_set.cc:1345-1412 | from a start set exactly one result: lower inputs are the files overlapping the final upper range, which are also those of the original range; the upper side is expanded if and only if that adds files, stays within the byte limit and picks up no further lower file; grandparents are the files two levels down that overlap the inputs; the next compaction continues after the largest upper key |
| Overlaps.PickFile | Journey/Pods/leveldb-library/db/version_set.cc:1305-1318 | the first file that ends after the compaction pointer, and the first of all if none does |
| Overlaps.PickCompaction | Journey/Pods/leveldb-library/db/version_set.cc:1291-1343 | a size-triggered pick starts from that file, at level 0 from everything found for its range, and is completed as SetupOtherInputs says |
| Compactions.Compaction.IsBaseLevelForKey | Journey/Pods/leveldb-library/db/version_set.cc:1484-1503 | though its cursors only advance, over any nondecreasing run of keys it is true exactly when no file two or more levels down covers the key |
| Compactions.Compaction.ShouldStopBefore | Journey/Pods/leveldb-library/db/version_set.cc:1505-1526 | the method form of the cursor: it moves to the first grandparent that does not end before the key and counts the sizes of those passed; what the answers amount to is OutputCuts.StopsIff |
| Compactions.HiddenByPredecessor | Journey/Pods/leveldb-library/db/db_impl.cc:945-971 | in a sorted merge the immediately preceding entry decides whether an entry is hidden from every snapshot |
| Compactions.KeptMembers | Journey/Pods/leveldb-library/db/db_impl.cc:955-995 | an entry survives exactly when the drop rule spares it |
| Compactions.SurvivorsAre | Journey/Pods/leveldb-library/db/db_impl.cc:945-971 | which entries survive, by the input and the levels alone: those that no newer entry of their user key hides from every snapshot, without the deletions every snapshot sees that have no file from two levels down on to hide anything in |
| Compactions.KeptSorted | Journey/Pods/leveldb-library/db/db_impl.cc:983-1008 | survivors stay in order |
| Compactions.AddEntry | Journey/Pods/leveldb-library/db/db_impl.cc:983-1005 | adding a survivor to the open output loses and reorders nothing; the output is closed exactly when it has reached the file size, with its own number, size and bounds |
| Compactions.DoCompactionWork | Journey/Pods/leveldb-library/db/db_impl.cc:887-1054 | the work loop writes exactly the survivors of the drop rule, in order, over files with fresh ascending numbers and right bounds, cut where the size and the grandparent rule say (OutputCuts.OutputsOverlapLittle) |
| Compactions.OutputsAreALevel | Journey/Pods/leveldb-library/db/db_impl.cc:788-864 | however the outputs are cut, they are good files with disjoint ascending internal-key ranges |
| Compactions.ReadKeptIff | Journey/Pods/leveldb-library/db/db_impl.cc:911-1008 | for one user key and one snapshot at or after the smallest: the survivors together with everything else answer as all the inputs did if and only if it is not so that the newest visible entry is an obsolete deletion and something outside the inputs still has an older value |
| Compactions.CompactionPreservesReadsIff | Journey/Pods/leveldb-library/db/db_impl.cc:911-1008 | compaction preserves every read at or after the smallest snapshot, dropped tombstones included, if and only if it brings back no value at the smallest snapshot |
| Compactions.CompactionPreservesReads | Journey/Pods/leveldb-library/db/db_impl.cc:911-1008 | the usual case: where everything else is newer than the inputs or deeper, every read is preserved |
| Compactions.LeavesNothingIff | Journey/Pods/leveldb-library/db/db_impl.cc:951-971 | nothing of a user key survives if and only if its newest input entry is an obsolete deletion |
| OutputCuts.OutputsOverlapLittle | Journey/Pods/leveldb-library/db/version_set.cc:1505-1526 | over the outputs and the grandparents alone: the grandparents that end within a finished output before its last key have at most ten times the file size together, and an output that is not the last and below the file size is cut only where the grandparents passed since the last such cut exceed that |
| OutputCuts.StopsIff | Journey/Pods/leveldb-library/db/version_set.cc:1505-1526 | over any ascending keys, whatever was cut before: a key closes the open output exactly if the grandparents passed since the last such key, from the first key on, are more than ten times the file size together |
| VersionBuilder.Builder.Apply | Journey/Pods/leveldb-library/db/version_set.cc:665-708 | an edit updates, level by level, which numbers are deleted and which files are added, and the compaction pointers |
| VersionBuilder.SaveOneLevel | Journey/Pods/leveldb-library/db/version_set.cc:714-739 | the merge of base and added files by upper bound computes the same level as merging and filtering the sorted lists |
| VersionBuilder.Builder.SaveTo | Journey/Pods/leveldb-library/db/version_set.cc:711-757 | saving gives every level of the new version |
| VersionBuilder.OneTurn | Journey/Pods/leveldb-library/db/version_set.cc:722-734 | what one added file contributes: the base files before it, then itself |
| Manifest.SortedUnique | Journey/Pods/leveldb-library/db/version_set.cc:606-618 | a set of files has one order: sorted lists with the same members are equal |
| Manifest.BatchedIsInTurn | Journey/Pods/leveldb-library/db/version_set.cc:665-757 | for one level, applying all edits and saving once equals saving after each edit, if no file number is added twice |
| Manifest.ReplayOnceIsReplayInTurn | Journey/Pods/leveldb-library/db/version_set.cc:939-1006 | for whole versions: one builder over all edits, saved once, equals applying and saving them in turn |
| VersionSets.VersionSet.NewFileNumber | Journey/Pods/leveldb-library/db/version_set.h:191-191 | hands out the next number, in any state |
| VersionSets.VersionSet.ReuseFileNumber | Journey/Pods/leveldb-library/db/version_set.h:196-200 | takes a number back only if none was allocated since |
| VersionSets.VersionSet.MarkFileNumberUsed | Journey/Pods/leveldb-library/db/version_set.cc:1058-1062 | later numbers are larger than the one marked |
| VersionSets.VersionSet.SetLastSequence | Journey/Pods/leveldb-library/db/version_set.h:212-215 | moves forward only |
| VersionSets.VersionSet.SetCompactPointer | Journey/Pods/leveldb-library/db/version_set.cc:1405-1410 | choosing inputs moves the compaction pointer in memory before the manifest has it |
| VersionSets.VersionSet.LogAndApply | Journey/Pods/leveldb-library/db/version_set.cc:820-903 | the current version becomes the edit applied to it, and the manifest, started with a snapshot if none is open, still describes the state in memory; it applies from the first edit after a new database is opened |
| VersionSets.SnapshotRebuilds | Journey/Pods/leveldb-library/db/version_set.cc:1102-1130 | the snapshot record alone rebuilds the version and the compaction pointers it was taken of |
| VersionSets.VersionSet.Recover | Journey/Pods/leveldb-library/db/version_set.cc:905-1025 | succeeds exactly when next-file number, log number and last sequence are there; takes the last of each over all records, zero for a missing previous log number, and all compaction pointers; from a manifest that describes a state it establishes everything the other operations rely on |
| VersionSets.RecoveredIsOk | Journey/Pods/leveldb-library/db/version_set.cc:939-1014 | what is recovered is the version all records give when applied one by one, and is described by the manifest again |
| VersionSets.StepKeepsBook | Journey/Pods/leveldb-library/db/version_set.cc:820-1025 | allocating, giving back, advancing, applying and opening again keep the manifest a description of the state in memory |
| VersionSets.ManifestRebuilds | Journey/Pods/leveldb-library/db/version_set.cc:820-1025 | over any run from a new database, opened again any number of times: the version is what all edits give one by one, and opening now rebuilds it with its log numbers, the last sequence recorded, and a next-file number no table and no log has |
| Recovering.LastSetWins | Journey/Pods/leveldb-library/db/version_set.cc:961-985 | of a field that several edits set recovery takes the last, and it has one exactly if some edit sets it |
| Recovering.LastPointerWins | Journey/Pods/leveldb-library/db/version_set.cc:665-674 | the compaction pointer recovered for a level is the key of the last item of the last edit that sets one, and there is none if no edit does |
| Recovering.LogNumbersAreLast | Journey/Pods/leveldb-library/db/version_set.cc:820-1025 | over any run, opened again any number of times, the log numbers are those of the last edits applied that set them |
| LevelEdits.FlushKeepsWellFormed | Journey/Pods/leveldb-library/db/db_impl.cc:534-565 | a flush where the picker allows keeps every level sorted, files below level 0 disjoint and numbers distinct |
| LevelEdits.FlushKeepsGood | Journey/Pods/leveldb-library/db/db_impl.cc:534-565 | and keeps newer data above older |
| LevelEdits.InstallKeepsWellFormed | Journey/Pods/leveldb-library/db/db_impl.cc:866-885 | so does installing any compaction, whatever it leaves behind |
| Boundaries.NoStraddleIffNewer | Journey/Pods/leveldb-library/db/version_set.cc:1345-1389 | the files left behind at a level are newer than the inputs exactly when no neighbour left behind shares an input's last user key |
| Boundaries.InstallIsGoodIff | Journey/Pods/leveldb-library/db/db_impl.cc:866-885 | installing a compaction keeps newer data above older if and only if, of every user key shared by the end of an upper input and the start of the file left behind after it, the newest input entry is an obsolete deletion |
| Boundaries.MoveIsSafeIff | Journey/Pods/leveldb-library/db/db_impl.cc:717-746 | a trivial move keeps newer data above older if and only if the file comes from level 0 or shares no boundary user key with the neighbour left behind |
| Straddle.CutIsReached | Journey/Pods/leveldb-library/db/db_impl.cc:998-1004 | a run from the empty database, each step one the engine takes, to a version in which a user key straddles two files, with nothing lost so far |
| Straddle.MoveHidesDeletion | Journey/Pods/leveldb-library/db/db_impl.cc:717-746 | from there a trivial move puts a deletion below the value it deletes, which a level-by-level search now finds |
| Straddle.DroppedDeletionResurrects | Journey/Pods/leveldb-library/db/db_impl.cc:951-971 | from there a flush and a compaction drop the deletion while the older value is in the straddling file that was not picked: the deleted value comes back |
| Engine.StepKeepsBase | Journey/Pods/leveldb-library/db/db_impl.cc:686-769 | group inserts, memtable switches, flushes, compactions, moves and snapshots, in any order, keep level shape, numbering, layering and bounds on sequence numbers, with no condition on boundaries |
| Engine.LevelsKeepTheirShape | Journey/Pods/leveldb-library/db/db_impl.cc:686-769 | in every reachable state every level is sorted, files below level 0 are disjoint in internal keys, and no number is used twice |
| Engine.StepIsSafeIff | Journey/Pods/leveldb-library/db/db_impl.cc:686-769 | in any good state a step keeps newer data above older and every readable lookup if and only if it is safe, which only compactions and moves can fail to be |
| Engine.RunIsGoodIffSafe | Journey/Pods/leveldb-library/db/db_impl.cc:686-769 | over any run from the empty database all states on the way are good if and only if all steps were safe |
| Engine.FlushKeepsInv | Journey/Pods/leveldb-library/db/db_impl.cc:534-565 | a flush at a level the picker allows keeps all of it |
| Engine.CompactKeepsReadsIff | Journey/Pods/leveldb-library/db/db_impl.cc:866-1054 | a compaction preserves all readable lookups if and only if no deleted value reappears from a file left behind at a boundary: nowhere else can there be anything older that still counts |
| Engine.CompactIsSafeIff | Journey/Pods/leveldb-library/db/db_impl.cc:866-1054 | exactly which compactions keep a good state good |
| Engine.ClosedIsSafe | Journey/Pods/leveldb-library/db/version_set.cc:1345-1389 | boundary closure is enough for a compaction or a move to be safe |
| Engine.MoveStepIsSafeIff | Journey/Pods/leveldb-library/db/db_impl.cc:717-746 | exactly which trivial moves keep a good state good |
| Engine.LayeredIsLookup | Journey/Pods/leveldb-library/db/db_impl.cc:1135-1143 | asking the memtable, then the immutable one, then the version gives the newest visible entry of all three |
| Engine.ReaderSeesSnapshot | Journey/Pods/leveldb-library/db/db_impl.cc:1109-1154 | a read answers from its snapshot whatever steps, safe or not, come between taking its references and reading |
| Engine.GroupIsAtomic | Journey/Pods/leveldb-library/db/db_impl.cc:1209-1246 | a write group takes effect as its operations one after another, and not at all at any earlier sequence number |
| Engine.UnpublishedIsInvisible | Journey/Pods/leveldb-library/db/db_impl.cc:1211-1246 | no reader sees an entry of a group that is still being inserted |
| Histories.SnapshotsAreCounted | Journey/Pods/leveldb-library/db/db_impl.cc:1174-1183 | over any run a snapshot is held as often as it was taken and not released |
| Histories.HeldIsReadable | Journey/Pods/leveldb-library/db/db_impl.cc:1174-1183 | a snapshot held more often than it was released since can still be read, and so can everything later |
| Histories.HeldReadsTheSame | Journey/Pods/leveldb-library/db/db_impl.cc:1109-1154 | over any run of safe steps a snapshot that is held reads, over what the engine still has, exactly what it read when the run began |
| Histories.TakenReadsTheSame | Journey/Pods/leveldb-library/db/db_impl.cc:1174-1183 | a snapshot taken somewhere in a run reads, until it is released, what had been written when it was taken |
| Histories.GroupTakesEffect | Journey/Pods/leveldb-library/db/db_impl.cc:1209-1246 | a group that a run begins and publishes takes effect as its operations one after another, on top of what was there |
| DbIterator.LiveIsLookup | Journey/Pods/leveldb-library/db/db_iter.cc:173-203 | an entry the cursor may stop at is what a lookup of its user key returns |
| DbIterator.LookupIsLive | Journey/Pods/leveldb-library/db/db_iter.cc:173-203 | every user key a lookup finds has such an entry |
| DbIterator.DBIter.FindNextUserEntry | Journey/Pods/leveldb-library/db/db_iter.cc:173-203 | the forward scan past overwrites, tombstones and too-new entries stops at the first live key of its range, or at none |
| DbIterator.DBIter.FindPrevUserEntry | Journey/Pods/leveldb-library/db/db_iter.cc:232-272 | the backward scan ends with the last live key of its range saved, or with none |
| DbIterator.DBIter.SeekToFirst | Journey/Pods/leveldb-library/db/db_iter.cc:288-297 | positions at the first live key |
| DbIterator.DBIter.SeekToLast | Journey/Pods/leveldb-library/db/db_iter.cc:299-304 | positions at the last live key |
| DbIterator.DBIter.Seek | Journey/Pods/leveldb-library/db/db_iter.cc:274-286 | positions at the first live key at or after the target |
| DbIterator.DBIter.Next | Journey/Pods/leveldb-library/db/db_iter.cc:146-171 | from any valid position and either direction, the next live key and its value |
| DbIterator.DBIter.Prev | Journey/Pods/leveldb-library/db/db_iter.cc:205-230 | from any valid position and either direction, the previous live key and its value |
| SkipLists.SkipList.FindGreaterOrEqual | Journey/Pods/leveldb-library/db/skiplist.h:261-281 | from any height, stale or new, finds the first node at or after the key and the predecessor on every level |
| SkipLists.SkipList.FindLessThan | Journey/Pods/leveldb-library/db/skiplist.h:283-302 | the last node before the key, or the head |
| SkipLists.SkipList.FindLast | Journey/Pods/leveldb-library/db/skiplist.h:304-322 | the last node, or the head |
| SkipLists.SkipList.Contains | Journey/Pods/leveldb-library/db/skiplist.h:372-380 | true exactly when an entry with the key is linked |
| SkipLists.SkipList.BeginInsert | Journey/Pods/leveldb-library/db/skiplist.h:337-362 | finding predecessors, raising the height and allocating the node change nothing readers rely on |
| SkipLists.SkipList.Store | Journey/Pods/leveldb-library/db/skiplist.h:363-369 | after each single pointer store every level is sorted, each is contained in the one below, levels only grow, and exactly the store that publishes level 0 adds the entry |
| SkipLists.SkipList.PublishedChainOk | Journey/Pods/leveldb-library/db/skiplist.h:363-369 | linking a prepared node after its predecessor inserts it in the chain of its level |
| SkipLists.SkipList.PrepareKeepsReadable | Journey/Pods/leveldb-library/db/skiplist.h:363-368 | the forward pointer of an unpublished node is invisible |
| SkipLists.SkipList.Insert | Journey/Pods/leveldb-library/db/skiplist.h:336-370 | a whole insertion adds exactly its entry |
| SkipLists.Iterator.Next | Journey/Pods/leveldb-library/db/skiplist.h:207-211 | the successor of the node |
| SkipLists.Iterator.Prev | Journey/Pods/leveldb-library/db/skiplist.h:213-222 | the predecessor of the node, or nothing at the first one |
| SkipLists.Iterator.SeekToLast | Journey/Pods/leveldb-library/db/skiplist.h:234-240 | the last node, or nothing when empty |
| SkipLists.Reader.Load | Journey/Pods/leveldb-library/db/skiplist.h:261-322 | one pointer load of a lock-free search keeps it on track on whatever the levels have become |
| SkipLists.Interleave | Journey/Pods/leveldb-library/db/skiplist.h:261-370 | under any interleaving of loads, stores and new insertions, a search that ends has found the right node for a set of entries between those linked when it began and when it ended |
| MemTables.SeekIsNewest | Journey/Pods/leveldb-library/db/memtable.cc:108-128 | what the seek stops at is the newest visible entry of the key, or there is none |
| MemTables.AnswersIsLookup | Journey/Pods/leveldb-library/db/memtable.cc:108-143 | the answer of a memtable read is the lookup over its entries: the value if there is one, none for a tombstone or nothing |
| MemTables.MemTable.Add | Journey/Pods/leveldb-library/db/memtable.cc:82-106 | adds exactly one entry |
| MemTables.MemTable.Get | Journey/Pods/leveldb-library/db/memtable.cc:108-143 | value, tombstone or nothing, as the newest visible entry says |
| MemTables.MemTable.GetWhileWriting | Journey/Pods/leveldb-library/db/memtable.cc:108-143 | without a lock, while newer entries are linked, the answer is that of the moment the search started |
| Coding.FixedRoundTrip | Journey/Pods/leveldb-library/util/coding.cc:9-45 | fixed-width little-endian numbers read back, cut to their width |
| Coding.FixedLayout | Journey/Pods/leveldb-library/util/coding.cc:9-45 | byte k of a fixed-width number holds its bits 8k to 8k+7 |
| Coding.EncodeVarint32 | Journey/Pods/leveldb-library/util/coding.cc:47-73 | the unrolled cascade writes the base-128 varint |
| Coding.EncodeVarint64 | Journey/Pods/leveldb-library/util/coding.cc:81-90 | so does the loop |
| Coding.VarintLength | Journey/Pods/leveldb-library/util/coding.cc:103-110 | computes the length of the varint |
| Coding.VarintRoundTrip | Journey/Pods/leveldb-library/util/coding.cc:112-129 | a varint followed by anything parses back, exactly that far |
| Coding.VarintLayout | Journey/Pods/leveldb-library/util/coding.cc:47-90 | byte k of a varint holds bits 7k to 7k+6, with the high bit set on all but the last, and no shorter sequence would do |
| Coding.DecodeVarint | Journey/Pods/leveldb-library/util/coding.cc:112-170 | the decoding loops, in a register that loses high bits, compute the parse cut to the width |
| Coding.GetVarint32Ptr | Journey/Pods/leveldb-library/util/coding.h:89-100 | the one-byte fast path and the loop agree |
| Coding.LengthPrefixedRoundTrip | Journey/Pods/leveldb-library/util/coding.cc:98-101 | byte strings of less than four gigabytes read back whole |
| Logs.UnmaskMask | Journey/Pods/leveldb-library/util/crc32c.h:31-40 | stored checksums unmask to what was computed |
| Logs.Writer.constructor | Journey/Pods/leveldb-library/db/log_writer.cc:22-26 | starts an empty file at the beginning of a block |
| Logs.Writer.Reopen | Journey/Pods/leveldb-library/db/log_writer.cc:28-31 | takes the block offset from the length of the file |
| Logs.Writer.AddRecord | Journey/Pods/leveldb-library/db/log_writer.cc:36-82 | appends a function of the file length and the payload, so a reopened writer goes on like one that was never closed |
| Logs.Writer.EmitPhysicalRecord | Journey/Pods/leveldb-library/db/log_writer.cc:84-109 | header and payload, never across a block boundary |
| Logs.FragmentFits | Journey/Pods/leveldb-library/db/log_writer.cc:58-62 | a fragment that does not end its record ends its block, and none crosses one |
| Logs.Reader.ReadPhysicalRecord | Journey/Pods/leveldb-library/db/log_reader.cc:199-281 | on any file, returns the next piece, with all skips, ends and reported corruptions |
| Logs.Reader.Take | Journey/Pods/leveldb-library/db/log_reader.cc:95-179 | what each record type does to a record being put together; a type byte of 5 or 6 is taken for the end of the file or a bad record |
| Logs.Reader.ReadRecord | Journey/Pods/leveldb-library/db/log_reader.cc:60-182 | on any file, the next logical record, its offset and every corruption reported on the way |
| Logs.Reader.ReadToEnd | Journey/Pods/leveldb-library/db/db_impl.cc:413-414 | reading to the end of any file |
| Logs.PhysicalRead | Journey/Pods/leveldb-library/db/log_reader.cc:199-281 | a fragment is read back if it is all there; if it is cut the file just ends |
| Logs.RecordRead | Journey/Pods/leveldb-library/db/log_reader.cc:60-182 | a record is reassembled from its fragments with its offset, or reading ends with nothing reported |
| Logs.WholeRecordsEndBeforeTheCut | Journey/Pods/leveldb-library/db/log_reader.cc:152-159 | the records returned from a cut file are those that end at or before the cut |
| Logs.CutLogReads | Journey/Pods/leveldb-library/db/log_reader.cc:60-281 | from the writer's bytes cut anywhere: exactly the records wholly before the cut, and no corruption report |
| Logs.LogRoundTrip | Journey/Pods/leveldb-library/db/log_reader.cc:60-281 | from the whole file: exactly the records written, of any lengths |
| Logs.LogOfAppended | Journey/Pods/leveldb-library/db/log_writer.cc:36-109 | appending one record to the log of a list makes the log of the longer list |
| DamagedLogs.PieceIs | Journey/Pods/leveldb-library/db/log_reader.cc:199-281 | by the bytes of any file: a fragment is returned exactly if one stands there, whole, in one block and with its checksum; the file ends exactly if header or payload is cut; anything else is skipped to the end of the block and reported with all its bytes, or silently if the header is zeros |
| DamagedLogs.RecordStands | Journey/Pods/leveldb-library/db/log_reader.cc:60-182 | a record returned, from any file, is put together from fragments that stand in it one right behind the other, and its offset is where the first one starts |
| DamagedLogs.NothingIsMadeUp | Journey/Pods/leveldb-library/db/log_reader.cc:60-182 | all records read from any file stand in it, in order and apart from one another |
| DamagedLogs.PayloadIsAccountedFor | Journey/Pods/leveldb-library/db/log_reader.cc:95-179 | byte for byte, payload is returned, kept for the record being put together or reported as dropped, exactly unless it is that of a fragment of type 6 |
| DamagedLogs.FindsItsWay | Journey/Pods/leveldb-library/db/log_reader.cc:60-281 | whatever the first blocks of a file hold, a log that begins at the next block boundary is read in full, up to where the file is cut, unless those blocks hold a fragment with the type that stands for the end of the file |
| WriteBatches.WriteBatch.Put | Journey/Pods/leveldb-library/db/write_batch.cc:98-103 | appends the operation and counts it |
| WriteBatches.WriteBatch.Delete | Journey/Pods/leveldb-library/db/write_batch.cc:105-109 | appends the operation and counts it |
| WriteBatches.WriteBatch.Append | Journey/Pods/leveldb-library/db/write_batch.cc:141-145 | the other batch's operations after this one's |
| WriteBatches.WriteBatch.Clear | Journey/Pods/leveldb-library/db/write_batch.cc:37-40 | no operations left |
| WriteBatches.WriteBatch.SetCount | Journey/Pods/leveldb-library/db/write_batch.cc:86-88 | changes the count, cut to 32 bits, and nothing else |
| WriteBatches.WriteBatch.SetSequence | Journey/Pods/leveldb-library/db/write_batch.cc:94-96 | changes the sequence number and nothing else |
| WriteBatches.WriteBatch.Iterate | Journey/Pods/leveldb-library/db/write_batch.cc:42-80 | on any bytes, hands the operations to the handler in order up to the first error, with the right status |
| WriteBatches.MemTableInserter.Handle | Journey/Pods/leveldb-library/db/write_batch.cc:111-126 | each operation under the next sequence number |
| WriteBatches.WriteBatch.InsertInto | Journey/Pods/leveldb-library/db/write_batch.cc:128-134 | the entries of the batch from its own sequence number |
| WriteBatches.OpRoundTrip | Journey/Pods/leveldb-library/db/write_batch.cc:98-109 | one operation reads back, whatever follows |
| WriteBatches.BatchReplays | Journey/Pods/leveldb-library/db/write_batch.cc:42-80 | any batch built by puts, deletes and appends replays exactly its operations, and is found consistent if and only if it has fewer than 2^31 |
| WriteBatches.EntryAt | Journey/Pods/leveldb-library/db/write_batch.cc:111-134 | consecutive sequence numbers |
| EditCodec.VersionEdit.Clear | Journey/Pods/leveldb-library/db/version_edit.cc:26-39 | resets everything except the compaction pointers |
| EditCodec.VersionEdit.DeleteFile | Journey/Pods/leveldb-library/db/version_edit.h:75-77 | insertion into the ordered set of deleted files |
| EditCodec.VersionEdit.EncodeTo | Journey/Pods/leveldb-library/db/version_edit.cc:41-86 | appends every field that is set, in order |
| EditCodec.VersionEdit.DecodeFrom | Journey/Pods/leveldb-library/db/version_edit.cc:109-210 | on any bytes, the fields up to the first error, and what is wrong |
| EditCodec.ItemRoundTrip | Journey/Pods/leveldb-library/db/version_edit.cc:109-210 | the parser takes off exactly one tagged field |
| EditCodec.EditRoundTrip | Journey/Pods/leveldb-library/db/version_edit.cc:41-210 | decoding an encoded edit into a fresh object restores every field and list; into a used one, compaction pointers add up |
| LogRecovery.RecoverLogFile | Journey/Pods/leveldb-library/db/db_impl.cc:407-450 | replays the records of any log file, with and without paranoid checks |
| LogRecovery.GroupsReplay | Journey/Pods/leveldb-library/db/db_impl.cc:413-436 | whole groups replay as their entries in order, and the largest sequence number is the last one's |
| LogRecovery.CutLogRecovers | Journey/Pods/leveldb-library/db/db_impl.cc:365-456 | from the bytes of a log cut anywhere: exactly the groups written whole before the cut, each entirely |
| GroupCommit.BuildBatchGroup | Journey/Pods/leveldb-library/db/db_impl.cc:1269-1314 | the group is the specified prefix of the queue, its batch holds their operations in order, and the leader's own batch is untouched |
| GroupCommit.ExtentIsMaximal | Journey/Pods/leveldb-library/db/db_impl.cc:1287-1312 | everyone in the group may ride and the next writer may not |
| GroupCommit.GroupIsLongest | Journey/Pods/leveldb-library/db/db_impl.cc:1275-1312 | the group is the longest prefix of the queue with no sync write behind a leader that does not sync and with sizes within a megabyte, or within 128 kilobytes more than a first batch that is no larger than that |
| GroupCommit.GroupIsSound | Journey/Pods/leveldb-library/db/db_impl.cc:1291-1301 | no sync write rides with a leader that does not sync, and each batch that joined fits the limit |
| GroupCommit.GroupSize | Journey/Pods/leveldb-library/db/db_impl.cc:1277-1301 | a group with more than its first batch is within the limit that batch sets |
| CommitProtocol.GroupIsOneByOne | Journey/Pods/leveldb-library/db/db_impl.cc:1209-1246 | completing a group is completing its members one by one with contiguous sequence numbers, also when the insertion stopped in the middle |
| CommitProtocol.StepKeepsInv | Journey/Pods/leveldb-library/db/db_impl.cc:1194-1264 | every step of queueing, switching logs, logging, inserting and finishing, well or badly, keeps the protocol's invariant |
| CommitProtocol.GroupsLinearize | Journey/Pods/leveldb-library/db/db_impl.cc:1194-1264 | in every state of any run the table is what the answered writes put in one by one in queue order, each was answered once, a write answered well is in whole, and all of it was logged first |
| CommitProtocol.SyncedWritesAreSynced | Journey/Pods/leveldb-library/db/db_impl.cc:1222-1242 | a successful sync write is in the synced part of one of the log files, though logs are switched without syncing the old one |
| CommitAnswers.GroupIsAnswered | Journey/Pods/leveldb-library/db/db_impl.cc:1194-1264 | a group answers exactly the writers of its prefix of the queue, all with success if and only if room was made and, if there is a batch, its record was appended (and synced where asked) and all of it inserted; it takes sequence numbers exactly if it got as far as the log, and leaves in the table what was inserted |
| CommitAnswers.AnsweredIff | Journey/Pods/leveldb-library/db/db_impl.cc:1194-1264 | every answer of a run is that of some group of it, and says success if and only if all went well for that group |
| CommitAnswers.NoFailureNoError | Journey/Pods/leveldb-library/db/db_impl.cc:1194-1264 | if no step of the run fails, every answer says success |
| Storage.StepKeepsInv | Journey/Pods/leveldb-library/db/db_impl.cc:1194-1379 | log before memtable, manifest before use, deletion where the background thread does it: every step keeps the storage invariant, with no condition on boundaries |
| Storage.ForegroundKeepsJob | Journey/Pods/leveldb-library/db/db_impl.cc:534-565 | what writers do while a job runs leaves the job possible with the same effect |
| Storage.ForegroundCommutes | Journey/Pods/leveldb-library/db/db_impl.cc:534-565 | a foreground step and a job commute |
| Storage.SwitchKeepsInv | Journey/Pods/leveldb-library/db/db_impl.cc:1354-1376 | a memtable switch keeps every entry in the logs recovery would read |
| Storage.WriteManifestKeepsInv | Journey/Pods/leveldb-library/db/version_set.cc:860-884 | the manifest record moves the log number on without losing an entry |
| Storage.CollectKeepsInv | Journey/Pods/leveldb-library/db/db_impl.cc:218-272 | deleting obsolete files removes no log, manifest or table that is needed; tables being built are kept because they are pending |
| Storage.CrashRecovers | Journey/Pods/leveldb-library/db/db_impl.cc:274-363 | a crash at any moment: the files rebuild a well-formed state with what the tables and logs held, a group under way whole or not at all, and a last sequence that covers every entry; its readers get what was written if readers before the crash did |
| Storage.ChunkKeepsInv | Journey/Pods/leveldb-library/db/db_impl.cc:438-449 | recovery may write what it read to level 0 a memtable at a time |
| Storage.ReopenKeepsInv | Journey/Pods/leveldb-library/db/db_impl.cc:1490-1532 | after opening again, under a new manifest, all invariants hold with the same contents |
| Storage.ActionIsGoodIff | Journey/Pods/leveldb-library/db/version_set.cc:860-884 | an action keeps what readers get, now and after a crash, if and only if it makes no unsafe job permanent |
| Storage.NothingIsLost | Journey/Pods/leveldb-library/db/db_impl.cc:274-363 | over any run with any number of crashes, every read agrees with everything written in all states on the way, before and after a crash, if and only if no unsafe job was made permanent |
| Storage.NeededFilesExist | Journey/Pods/leveldb-library/db/db_impl.cc:218-272 | in every reachable state, safe or not: the manifest CURRENT names exists, and the tables of its version, of the current and of all pinned ones; tables built for a running job exist and are protected; and the logs recovery reads have all that is only in memory |
| Retention.CollectsExactly | Journey/Pods/leveldb-library/db/db_impl.cc:218-272 | which files are left: a table exactly if it was there and belongs to the current version, a pinned one or a job in progress; exactly the logs from the log number on, as they were; exactly the manifests from the one in use on |
| Retention.NothingObsoleteIsLeft | Journey/Pods/leveldb-library/db/db_impl.cc:218-272 | with nothing pinned and no job in progress, exactly the tables of the current version are left, and no older log or manifest |
| Retention.PendingIsTheJobs | Journey/Pods/leveldb-library/db/db_impl.cc:492-532 | in every reachable state the protected tables are exactly those of the job in progress |
| Retention.PinsAreCounted | Journey/Pods/leveldb-library/db/db_impl.cc:1109-1154 | without a crash in between, a version is pinned as often as it was referred to and not let go |
| Retention.HeldTablesStay | Journey/Pods/leveldb-library/db/db_impl.cc:218-272 | a version pinned more often than it was let go since keeps all its tables, whatever is compacted and collected meanwhile |
| Background.StepKeepsInv | Journey/Pods/leveldb-library/db/db_impl.cc:637-684 | scheduling, working, failing, shutting down and sleeping keep the invariant |
| Background.NoLostWork | Journey/Pods/leveldb-library/db/db_impl.cc:645-684 | over any run: a memtable waiting, a manual compaction, a file out of seeks, four files in level 0 or another level at its limit mean that a call is outstanding, an error recorded or shutdown begun; at most one call is outstanding; nobody sleeps unattended |
| Background.SchedulesIff | Journey/Pods/leveldb-library/db/db_impl.cc:645-661 | a call is started exactly if there is one of these and no call, error or shutdown is in the way |
| Background.CallsEnd | Journey/Pods/leveldb-library/db/db_impl.cc:667-684 | the end of a call leaves one outstanding exactly if there is more to do and no error or shutdown |
| Background.ShutdownSettles | Journey/Pods/leveldb-library/db/db_impl.cc:150-155 | once shutdown has begun and the outstanding call has ended there is none for good |
| Background.SleepersAreWoken | Journey/Pods/leveldb-library/db/db_impl.cc:667-684 | whatever happens next, until the outstanding call ends it stays outstanding and can go on; and in every schedule in which it ends all sleepers are woken, with another call scheduled if there is work left |
| Snapshots.SnapshotList.Oldest | Journey/Pods/leveldb-library/db/snapshot.h:39-39 | the front of the list has the smallest number of all live snapshots |
| Snapshots.SnapshotList.New | Journey/Pods/leveldb-library/db/snapshot.h:42-51 | links a snapshot at the end, keeping the circle and its order |
| Snapshots.SnapshotList.Delete | Journey/Pods/leveldb-library/db/snapshot.h:53-57 | unlinks one snapshot from anywhere |
| PbMessages.ZigZagRoundTrip | Journey/Pods/nanopb/pb_encode.c:516-525 | the 64-bit shift-and-complement code of a signed number, and that it comes back |
| PbMessages.CastKeeps | Journey/Pods/nanopb/pb_decode.c:1179-1197 | a cast to a type the number fits changes nothing |
| PbEncoder.OStream.Write | Journey/Pods/nanopb/pb_encode.c:91-110 | counts always, writes if there is a sink and room |
| PbEncoder.VarintBytes | Journey/Pods/nanopb/pb_encode.c:494-514 | the encoding loop with the top bit taken off the last byte writes the base-128 varint |
| PbEncoder.EncodeSvarint | Journey/Pods/nanopb/pb_encode.c:516-525 | writes the varint of the zigzag code |
| PbEncoder.StrLen | Journey/Pods/nanopb/pb_encode.c:739-763 | bytes up to the first NUL within the buffer |
| PbEncoder.EncodeOne | Journey/Pods/nanopb/pb_encode.c:652-776 | each type's encoder against the specified bytes, failing exactly when bounds or room do |
| PbEncoder.EncodeArray | Journey/Pods/nanopb/pb_encode.c:116-201 | arrays packed whenever the type allows, the size first |
| PbEncoder.EncodePackedArray | Journey/Pods/nanopb/pb_encode.c:129-171 | the announced size is the size of what follows |
| PbEncoder.EncodeSubmessage | Journey/Pods/nanopb/pb_encode.c:600-648 | the counting pass and the writing pass agree, the length prefix is the body's length, and the changed-size error is unreachable |
| PbEncoder.EncodeField | Journey/Pods/nanopb/pb_encode.c:271-349 | required, optional, repeated and oneof fields |
| PbEncoder.EncodeMessage | Journey/Pods/nanopb/pb_encode.c:451-473 | a counting and a writing stream both advance by exactly the specified encoding, at any nesting depth |
| PbEncoder.GetEncodedSize | Journey/Pods/nanopb/pb_encode.c:480-489 | the size of a message is that of its encoding |
| PbFieldIter.FieldIter.Begin | Journey/Pods/nanopb/pb_common.c:8-18 | starts at the first field |
| PbFieldIter.FieldIter.Next | Journey/Pods/nanopb/pb_common.c:20-76 | the next field, or around to the first; data place, size place and count of required fields are always those of the current field |
| PbFieldIter.FieldIter.Find | Journey/Pods/nanopb/pb_common.c:78-97 | found if and only if some field has the tag, from wherever the search starts |
| PbReader.IStream.DecodeVarintLoop | Journey/Pods/nanopb/pb_decode.c:173-229 | the varint loops with their overflow checks |
| PbReader.IStream.DecodeTag | Journey/Pods/nanopb/pb_decode.c:251-275 | tag, end of message or failure, as the rest of the input decides |
| PbReader.IStream.SkipWire | Journey/Pods/nanopb/pb_decode.c:277-287 | skips as the specification says; that this passes over exactly one field of any type is PbRoundTrip.UnknownIsSkipped |
| PbReader.IStream.MakeSubstream | Journey/Pods/nanopb/pb_decode.c:322-335 | a limited stream over the same buffer |
| PbReader.IStream.CloseSubstream | Journey/Pods/nanopb/pb_decode.c:337-350 | the parent goes on after the substream |
| PbReader.DecodeNumberValue | Journey/Pods/nanopb/pb_decode.c:1165-1260 | number types with their casts and range checks |
| PbReader.DecodeBlobValue | Journey/Pods/nanopb/pb_decode.c:1262-1379 | bytes, strings and fixed-length bytes with their bounds |
| PbReader.DecodeSubmessage | Journey/Pods/nanopb/pb_decode.c:1334-1356 | nested messages, merged or started from defaults |
| PbReader.DecodePackedArray | Journey/Pods/nanopb/pb_decode.c:374-402 | packed arrays, with the overflow error |
| PbReader.DecodeStaticField | Journey/Pods/nanopb/pb_decode.c:356-429 | one field into the structure |
| PbReader.DecodeFields | Journey/Pods/nanopb/pb_decode.c:852-917 | the loop over fields in whatever order they come computes the specified decoding, unknown fields skipped |
| PbReader.CountRequired | Journey/Pods/nanopb/pb_decode.c:919-935 | counts the required fields by walking the iterator round |
| PbReader.CheckRequired | Journey/Pods/nanopb/pb_decode.c:937-949 | the bitmap comparison as it is written |
| PbReader.DecodeNoinit | Journey/Pods/nanopb/pb_decode.c:852-953 | decoding any input into any structure is the specified function, about which PbRoundTrip.MessageMerges is |
| PbReader.PbDecode | Journey/Pods/nanopb/pb_decode.c:955-967 | the same from defaults, about which PbRoundTrip.OtherSchema is |
| PbDecoder.RequiredCheckIs | Journey/Pods/nanopb/pb_decode.c:919-950 | with up to 63 required fields the check passes exactly when all were seen, except at 32, where it also needs a shift by 32 to give zero |
| PbDecoder.CompleteMessageRefused | Journey/Pods/nanopb/pb_decode.c:946-949 | where a shift by 32 changes nothing, a complete message with 32 required fields is refused |
| PbRoundTrip.NumberBack | Journey/Pods/nanopb/pb_decode.c:1165-1260 | every number within its type comes back |
| PbRoundTrip.BlobBack | Journey/Pods/nanopb/pb_decode.c:1262-1379 | every byte string within its bounds comes back |
| PbRoundTrip.UnknownIsSkipped | Journey/Pods/nanopb/pb_decode.c:277-287 | a field whose tag the reader does not know, of any type and with any contents, is passed over: decoding goes on as if it had not been there |
| PbRoundTrip.PackedMerges | Journey/Pods/nanopb/pb_decode.c:374-402 | the items of a packed array go behind those there |
| PbRoundTrip.EachMerges | Journey/Pods/nanopb/pb_decode.c:403-413 | so do items that carry a tag each, of any type |
| PbRoundTrip.PackedOrNot | Journey/Pods/nanopb/pb_decode.c:374-413 | numbers sent one by one with a tag each are read as if they had been sent packed |
| PbSchemas.ChooseIsNext | Journey/Pods/nanopb/pb_decode.c:415-424 | choosing the oneof member that was sent clears the others, of which none was |
| PbRoundTrip.MessageEncodes | Journey/Pods/nanopb/pb_encode.c:451-473 | a message within its bounds can be encoded |
| PbRoundTrip.MessageMerges | Journey/Pods/nanopb/pb_decode.c:852-967 | into whatever the structure holds, with any schema that understands the writer: decoding a message succeeds, consumes exactly the encoding and merges the message, at every depth |
| PbRoundTrip.RoundTrip | Journey/Pods/nanopb/pb_decode.c:852-967 | for any nested schema and any message within its bounds, decoding what encoding wrote succeeds, consumes exactly that and restores the message (PbRoundTrip.MergeIs) up to values that are not present |
| PbRoundTrip.OtherSchema | Journey/Pods/nanopb/pb_decode.c:852-967 | forward and backward compatibility: a reader whose schema, at any depth, lacks fields of the writer or has optional ones the writer lacks decodes the fields both know and gets defaults for the others |
| PbRoundTrip.ConcatenationMerges | Journey/Pods/nanopb/pb_decode.c:852-967 | two encodings one after the other decode to the second message merged into the first |
| PbRoundTrip.MergeIs | Journey/Pods/nanopb/pb_decode.c:356-429 | what merging is, slot by slot: a value sent replaces the one there, a submessage is merged into the one there unless it is an array item or a oneof member, array items go behind those there, and what was not sent stays, unless another member of its oneof was sent |
| PbWire.ReadsWhatFits | Journey/Pods/nanopb/pb_decode.c:1165-1230 | for every varint of 64 bits and every integer type: it is read as the number it stands for if and only if that fits the field |
| PbWire.ShortNegativeIsRead | Journey/Pods/nanopb/pb_decode.c:1175-1187 | a negative number of at most 32 bits is read from the five bytes of its 32-bit form as from the ten bytes it is written in |
| PbWire.EncodingGuide | Journey/Pods/nanopb/pb_encode.c:494-600 | the byte sequences that the Protocol Buffers encoding guide gives as examples, and one of each fixed width |
| PbRoundTrip.NothingDecodes | Journey/Pods/nanopb/pb_decode.c:946-949 | with exactly 32 required fields and a shift by 32 that is not zero, no input at all decodes |

## Left out

- Manual compaction, seek statistics, compaction scores and read sampling: in `Engine` and `Storage` any inputs that are closed may be compacted at any time; `Background` keeps the conditions that decide whether work is scheduled.
- A flush in the middle of a running compaction (`db_impl.cc` lines 918-926): the deletion of obsolete files it ends with is modelled there, the flush itself as a step before or after the compaction.
- The interleaving of file numbers: log numbers and the numbers of a job's outputs only have to be fresh; that one counter hands out both is modelled in `VersionSets` and not in `Storage`.
- The comparator name check when a manifest is recovered, and corrupt internal keys, which the engine skips or reports.
- I/O errors: a failed append, sync, insertion or background step is an outcome in `CommitProtocol` and `Background`; elsewhere operations succeed. Power loss, where bytes already appended disappear, is not modelled.
- Reading a log from an offset other than zero, and skipping the rest of a record that goes with it.
- Reuse of the last log file and of the manifest on opening, an option that is off by default; recovery always starts new ones.
- The block format of tables, the table cache, filters, iterators over tables and their merging: a table is its sorted sequence of entries, and a merged input is the sorted sequence of all of them.
- Retention.HeldTablesStay: between crashes, since a crash ends whoever held a version.
- DamagedLogs.FindsItsWay: says that the records behind the damage come last; what is made of the damaged blocks themselves is DamagedLogs.NothingIsMadeUp.
- Storage.CrashRecovers: states what is rebuilt in terms of whole log records; that cut bytes give whole records is Logs.CutLogReads and LogRecovery.CutLogRecovers.
- SkipLists.Interleave: says what a search that ends has found, for any finite schedule; the sequential searches are shown to end, a search overtaken by insertions for ever is not bounded. Each pointer load and store is one atomic step; memory ordering below that is not modelled.
- MemTables.MemTable.Get: the length-prefixed layout of an entry in the arena is replaced by the entry itself.
- GroupCommit.BuildBatchGroup: sizes are unbounded numbers, so that the sum of batch sizes never wraps around.
- PbRoundTrip.OtherSchema: a field both schemas know has the same type, size and array bound in both; only submessages may differ.
- PbRoundTrip.RoundTrip: asks that the encoding is shorter than 2^32 bytes, which structures with 32-bit sizes cannot exceed by much; values under a false has-flag, and values of oneof members not chosen, come back as defaults.
- nanopb pointers and allocation, callbacks, extensions, custom streams and proto3 fields without a has-flag.
- `repair.cc`, `c.cc`, `dumpfile.cc`, the file-name and port layers, and everything of the application itself: user interface, image loading and network glue with nothing to prove.
