# GojiDB, modelled and verified

GojiDB is a key-value store in the Bitcask style: data files that only grow, an index in memory
that points into them, and around these a write-ahead log with transactions, compaction,
snapshots, caches, expiry, and a compressor with its own container formats. This project models
those parts in Dafny and proves what a user relies on.

- **Bytes on disk.** `Bytes`, `Framing`, `Entry`: big- and little-endian fields, streams of
  self-delimiting records, the 19-byte entry header. `Codec` is the compression-tag contract. `Formats`
  spells out every format, byte by byte, in literal numbers and without the decoders.
- **The store.** `Store` gives every operation of db.go and snapshot.go as a step on data files
  (byte strings), index and snapshots. `Simulation`, `StoreSteps` and `StoreRuns` relate each
  reachable state to a plain map, in one relation that also says what a rebuild would find; a reopening
  there is one with the log off, a rebuild of the index. `StoreTheorems` and `TornWrites` draw the
  consequences, `CorruptEntries` those of the checksum, `Expiry` and `Rotation` those of the clock and of
  the size limit. `Database` is the object itself: methods and loops, each proved to take exactly the
  step of that name.
- **The log and transactions.** `Wal` (frames, cuts, interleaved writers), `Replay` (what replaying
  does, in which orders, how often), `Recovery` (what restarts do to a database), `Transactions`
  (Commit as a step machine over files and log), `CommitLog` (what it leaves there), `Crashes` (a
  crash at any byte of it), `ConcurrentCommits` (the same for any number of interleaved commits and
  plain writes), `Sessions` (whole lives of a transaction object), `LoggedRuns` (whole runs of a
  database with its log), `WalManager` and `TransactionObject` (the objects).
- **Compression containers.** `Decimal`, `MixedMode`, `ChunkedModes`, `ChunkWorkers`, `SmartChoice`,
  `DamagedContainers` (containers that were cut, or whose fields do not fit).
- **Expiry heap.** `TtlHeap` (Go's container/heap written out over item objects that carry their
  index) and `TtlManager`.
- **Caches and reads.** `Lru`, `ReadPath`, `ReplacedFiles` and `BlockCacheObject` (the block cache
  against the files),
  `BatchRead`, `BatchSchedules` and `BatchWorkers` (batched reads over reused buffers),
  `ConcurrentMap` (the sharded index).

Where the code promises something it does not keep, the model follows the code, a lemma gives the
exact condition under which the promise holds, and another a small input on which it fails
(`Counterexamples`, unless another module is named):

- A successful Put survives a rebuild of the index if and only if its key is shorter than 65536 bytes,
  its value is not `__DELETED__`, and its timestamp is not older than the key's record
  (`StoreTheorems.PutRecoverableIff`; `MarkerIsLost`). PutWithTTL reads the clock before it takes the
  lock, so two concurrent Puts of a key can violate the last condition even with a good clock. With a
  log, every restart finds such a Put if and only if each logged transaction leaves the key alone, or
  puts the same value and the Put had no expiry (`Recovery.PutSurvivesRestartsIff`;
  `LaterPutIsReverted`).
- ListKeys says it returns the keys that have not expired, but counts the last second differently
  from Get (`StoreTheorems.ListedReadsIff`; `ListedUnreadable`).
- A snapshot brings a key back as it was if and only if no SetTTL on it was still only in memory
  (`StoreTheorems.SnapshotRoundTrip`; `SnapshotForgetsExpiry`).
- expireKey runs after the read that scheduled it and does not look again: a value put in between is
  removed. If only reads follow, that is unnoticed if and only if the key does not read when it runs
  (`StoreTheorems.ExpireSeenIff`; `ExpiryTakesNewValue`); whatever may follow, if and only if the key is
  not live in the index, for SetTTL does not look at the expiry either
  (`StoreTheorems.ExpireUnnoticedIff`; `RevivedOrGone`).
- The log is never truncated, so each start replays every committed transaction in it. A clean restart
  gives all readers what they would get without the replay, in every iteration order, if and only if no
  later write changed what such a transaction left, expiry included (`Recovery.RestartsKeepReadsIff`;
  `LaterPutIsReverted`, `LaterExpiryIsLost`). The order of replay is immaterial if
  and only if transactions agree on common keys (`Replay.ConfluentIff`; `OrderDecides`).
- A log that was cut inside a record makes recovery fail, and opening the database with it
  (`Wal.CutLog`, `Crashes.CrashAtomicity`).
- Commit stops half-way exactly if some Put has an empty key; its log already commits the whole
  transaction (`Transactions.CommitOutcome`; `HalfCommitted`).
- Rollback writes no record that recovery heeds. A rolled back transaction is replayed if and only if
  Commit had been called on it, which can have failed with nothing applied
  (`Sessions.RolledBackReplayedIff`; `Sessions.RolledBackIsReplayed`).
- A Commit is all or nothing in what recovery issues if and only if it is the first of its transaction
  object or has at most one operation: on an object committed before, in vain or not, recovery also
  replays whatever part of the interrupted Commit was logged (`Sessions.AllOrNothingIff`;
  `Sessions.RetriedCommitTorn`).
- The parallel container loses the tail of the input unless it needs at most `maxChunks` chunks or
  its length is a multiple of `maxChunks` (`ChunkedModes.ParallelRoundTripIff`; `ParallelTailLost`).
- The compression cache evicts an oldest entry in every map order if and only if the empty input is not
  the single oldest of several (`SmartChoice.EvictsOldestIff`; `YoungerEvicted`).
- The parallel and the stream container cut anywhere are refused; the mixed container cut behind a chunk or
  inside a header is accepted and decodes to the chunks before the cut (`DamagedContainers.MixedCut`).
- `MaxFileSize` is kept by Put if every entry fits a file, and by BatchPut if the batch does and compression
  lengthens no value. Delete and expiry never open a new file and can pass the limit
  (`Rotation.RunWithin`, `Rotation.DeleteGrows`).
- BatchPut does not clear the block cache: which keys still read right is `ReadPath.BatchPutReadsIff`
  (`BatchPutMisread`). Compact and RestoreFromSnapshot replace the files under it:
  `ReplacedFiles.CompactReadsIff` and `ReplacedFiles.RestoreReadsIff` say which keys read right, and that
  all do if no block of a replaced file is cached (`CompactMisread`).
- BatchGet hands out slices of a reused buffer for uncompressed values; when its answers are right in
  every schedule is `BatchSchedules.BatchGetIff` (`BatchGetClash`).

## Assumptions

- snappy, zstd, gzip, CRC-32 and JSON are parameters. `Codec.Lawful` is the round trip of the three
  algorithms; `Wal.LawfulJson` is the round trip of JSON for records whose key and transaction id are
  valid text. SHA-256 over block keys is taken to be injective.
- Input and output succeed, and each operation runs alone under the lock the source takes. Map
  iteration orders, worker orders and schedules are arbitrary: they are parameters or nondeterministic
  choices, and the theorems hold for all of them.
- Crash atomicity is claimed for synced log writes (`WALSyncWrites`), where each record is in the file
  when WriteRecord returns (`WalManager.WALManager.Valid`), and for keys that are valid text, which JSON
  gives back unchanged. The buffered mode is modelled in the log writer, without such a claim.
- Clock readings are parameters. Theorems about whole runs ask that they do not go backwards and,
  where the code narrows lengths to 16 or 32 bits, that lengths fit.
- The results about the store hold with the smart compressor off, which is how a rebuild runs; with it
  on, tombstones carry a tag that does not match their encoding (entry.go:66, db.go:612).

## Model

| member | source | states |
|---|---|---|
| Codec.CompressRoundTrip | entry.go:59-165 | the tag that standard compression returns names the decoder that restores the data |
| Codec.TombstoneDecodes | db.go:608-612 | a tombstone, tagged with the configured type instead of the returned one, still decodes to the deletion marker |
| Entry.HeaderLayout | entry.go:174-179 | each field's byte range in the 19-byte header |
| Entry.CrcCoversTheRest | entry.go:225-258 | the checksum is taken over exactly the stored bytes behind it |
| Entry.SealVerifies | entry.go:225-258 | an entry sealed by a writer passes the rebuild's checksum test, even if its sizes were truncated |
| Entry.ReadSerialized | entry.go:167-223 | reading a serialized entry, with anything behind it, gives it back cut or padded to its 16- and 32-bit sizes |
| Entry.CutIsNotRead | entry.go:185-223 | no proper prefix of an entry reads as an entry |
| Entry.AppendEntry | db.go:931-972 | appending an entry to a file of whole entries adds exactly that entry to a scan, at the old length |
| Entry.TornTail | db.go:931-972 | cut at any byte, a file scans as its longest prefix of whole entries at their true offsets |
| Entry.SerializeEntry | entry.go:167-183 | the byte-array writer produces exactly the serialized form |
| Formats.PutBytes | db.go:167-203 | the bytes a Put appends: CRC of the rest, time stamp, expiry, key size, value size, tag, key, stored value, all numbers big-endian |
| Formats.DeleteBytes | db.go:604-629 | the bytes a Delete appends: the same, with the stored marker text as value, no expiry, and the configured tag |
| Formats.CompressIs | entry.go:59-103 | types 1 to 3 are applied to non-empty data and returned as the tag; everything else is stored as it is under tag 0 |
| Formats.DecompressIs | entry.go:106-165 | tags 1 to 3 name their decoder; any other tag takes the data as they are |
| CorruptEntries.CorruptAppend | db.go:943-947 | an entry at the end of the newest file whose checksum does not match leaves the rebuilt index as it was |
| CorruptEntries.CorruptSkipped | db.go:913-974 | from any reachable state, append any mixture of intact and corrupt entries: every key reads, at every time, as on the plain map after the intact ones alone |
| CorruptEntries.DamagedWrite | db.go:943-947 | the last write damaged in place: its key reads, after opening, what it read before that write |
| Framing.ScanConcat | db.go:927-972 | a read loop over a stream of whole records continues seamlessly behind any prefix of whole records |
| Framing.ScanTorn | db.go:931-941 | for any self-delimiting format, a cut stream yields exactly the longest prefix of whole records |
| Simulation.RebuildAppend | db.go:877-974 | to a rebuild, an append to the newest file is one more entry at the end, under the timestamp rule |
| Simulation.AppendHolds | db.go:197-230 | an entry no older than its key's record keeps index, rebuilt index, files and plain map in agreement |
| Simulation.RotateHolds | db.go:997-1013 | rotation changes nothing that a reader or a rebuild can see |
| StoreSteps.WriteHolds | db.go:197-230 | a write makes the key mean the new value and expiry, in memory and in the files |
| StoreSteps.BuryHolds | db.go:1019-1044 | burying a key removes it from the plain map, in memory and in the files |
| StoreSteps.SetTTLHolds | db.go:680-693 | SetTTL changes the expiry in memory and not the one a rebuild finds |
| StoreSteps.RebuiltHolds | db.go:877-911 | a rebuilt index has the meaning of the files: the same values with the expiries written to files |
| StoreSteps.CompactHolds | db.go:1087-1254 | compaction in any key order keeps exactly the unexpired live keys, with their values, and makes memory expiries durable |
| StoreSteps.GetFromMeaning | db.go:531-588 | in agreement, Get answers exactly as the plain map does, expiry included |
| StoreRuns.PutHolds | db.go:154-253 | Put, with its rotation, is an insert into the plain map, or nothing for the empty key |
| StoreRuns.BatchPutHolds | db.go:256-347 | BatchPut with its pre-rotation and running position inserts every item with a non-empty key, without expiry |
| StoreRuns.DeleteHolds | db.go:591-662 | Delete and expiry remove the key; a key already deleted changes nothing |
| Expiry.ReadsUntil | db.go:171-176 | a value put with a positive expiry reads exactly while the second of the clock is before that of the time of the Put plus the expiry |
| Expiry.ReadsForEver | db.go:171-179 | put without expiry a value reads at every time; put with a negative one, not from the second of the Put on |
| Expiry.SetTTLReads | db.go:680-693 | after SetTTL a live key reads exactly until the second of the call plus the expiry, or at every time if that is not positive |
| Rotation.PutRotatesIff | db.go:191-196 | a Put goes to the next file iff the active one plus header, key and stored value would pass the limit; that file has grown by exactly those bytes and no other has changed |
| Rotation.BatchPutRotatesIff | db.go:256-347 | a batch goes to the next file, as a whole, iff it has something to write and its estimate on uncompressed values would pass the limit; that file has grown by exactly its entries |
| Rotation.PutWithin | db.go:191-203 | a Put takes a file past the limit only with an entry larger than the limit, and then alone in its file |
| Rotation.BatchPutWithin | db.go:265-284 | a batch keeps the limit if its estimate fits a file and no value grows when compressed |
| Rotation.DeleteGrows | db.go:591-662 | Delete and expiry append to the active file whatever its size |
| Rotation.RunWithin | db.go:154-347 | in every run of such Puts and batches, SetTTL, reopening and snapshots no file passes the limit |
| StoreRuns.StepRepresents | db.go:154-1254 | one step of the store is one step of the plain map, snapshots included |
| StoreRuns.RunRepresents | db.go:154-1254 | with the log off, every run of Put, BatchPut, Delete, expiry, SetTTL, Compact, reopen, snapshot and restore means what it means on a plain map |
| StoreRuns.StartRepresents | db.go:40-107 | a new database is in that relation, so every reachable state is |
| StoreRuns.RecoveryEqualsMemory | db.go:877-974 | a rebuild finds the index in memory: same keys, deletions and timestamps, same records for live keys but for an expiry that is only in memory |
| StoreTheorems.PutRecoverableIff | db.go:154-253 | a Put's index record, expiry included, is what the next rebuild of the index finds iff key size, value and timestamp meet three checkable conditions |
| StoreTheorems.TornRebuild | db.go:913-974 | with the active file cut at any byte, a rebuild gives the index of its longest prefix of whole entries |
| StoreTheorems.TornServes | db.go:913-974 | an append cut short by a crash, in an old file or a new one, leaves a database that opens with the data as before it |
| TornWrites.CutServes | db.go:913-974 | from any reachable state, cut the active file anywhere behind it: the database opens as the plain map after exactly the writes wholly below the cut |
| TornWrites.OperationsAppend | db.go:154-347 | Put, each item of BatchPut, Delete and expiry are, behind their rotation, the appends that CutServes counts |
| StoreTheorems.ExpireSeenIff | db.go:715-721 | if only reads follow, an expiry step goes unnoticed iff the key does not read at that moment |
| StoreTheorems.ExpireUnnoticedIff | db.go:680-721 | no run of operations and read after it can tell an expiry step from none iff the key is not live in the index |
| StoreTheorems.ListedReadsIff | db.go:665-678 | listed are exactly the keys that read and the live keys in their last second, and these do not read |
| StoreTheorems.CompactPreservesReads | db.go:1047-1254 | from the time of compaction on, every read returns what it returned before |
| StoreTheorems.CompactRebuilds | db.go:1102-1139 | one file remains, with each kept key once, in order, at its indexed offset; rebuilding it gives the new index |
| StoreTheorems.CompactRecords | db.go:1087-1139 | exactly the keys not deleted and not past their expiry are kept, each with its time stamp and expiry |
| StoreTheorems.SnapshotRoundTrip | snapshot.go:24-114 | after any further run, restoring gives the map at creation; a key reads as then iff no SetTTL on it was pending |
| Database.SortedIds | db.go:895-903 | file ids come out complete and in strictly increasing numeric order |
| Database.GojiDB.constructor | db.go:74-79 | rebuilding the index and opening the newest file, created if the directory is empty; the rest of NewGojiDB is `TransactionObject.NewGojiDB` |
| Database.GojiDB.RebuildKeyDir | db.go:877-911 | the loops over files in numeric order compute the rebuilt index and the newest id |
| Database.GojiDB.ProcessFile | db.go:913-974 | the read loop ends on every input and enters exactly the scanned entries, in order |
| Database.GojiDB.IndexEntry | db.go:943-970 | an entry is entered unless its checksum fails or the index has a newer one |
| Database.GojiDB.RotateActiveFile | db.go:997-1013 | the next id becomes active and its file exists |
| Database.GojiDB.AppendToActive | db.go:197-203 | the entry goes to the end of the active file and its start is returned |
| Database.GojiDB.Get | db.go:555-588 | read from the file: the value, or which of the errors, empty key, missing, expired, unreadable |
| Database.GojiDB.PutWithTTL | db.go:154-253 | takes exactly the Put step; fails exactly on the empty key; the record has the second of the first clock reading, an expiry at the second of the later reading plus the ttl (0 without, the present second for a negative one), and lies in the next file iff the active one had no room for it |
| Database.GojiDB.BatchPut | db.go:256-347 | takes exactly the BatchPut step, with the position carried along equal to the end of the file |
| Database.GojiDB.Delete | db.go:591-662 | takes exactly the Delete step; fails exactly on the empty key and on keys the index has never seen |
| Database.GojiDB.ExpireKey | db.go:715-721 | takes exactly the expiry step |
| Database.GojiDB.SetTTL | db.go:680-693 | takes exactly the SetTTL step; fails exactly on missing and deleted keys; the expiry is the second of the clock plus the ttl, or none |
| Database.GojiDB.Compact | db.go:1047-1254 | the rewriting loop takes exactly the Compact step for the given iteration order |
| Database.GojiDB.CreateSnapshot | snapshot.go:24-72 | the copying loop stores all data files under the id and changes nothing else |
| Database.GojiDB.RestoreFromSnapshot | snapshot.go:76-114 | an existing snapshot's files replace the data files and the index is rebuilt; an unknown id changes nothing |
| Wal.ReadWritten | wal.go:150-173 | a framed record reads back, whatever follows |
| Formats.FrameBytes | wal.go:150-173 | a record on disk: the length of its JSON in four bytes, big-endian, and the JSON |
| Formats.TransactionRecords | wal.go:203-239 | the records of a transaction: type 3, one of type 1 or 2 for each operation in order, type 4, all with its id |
| Wal.CutLog | wal.go:262-291 | a log cut at any byte reads as the records before the cut if it is at a record boundary, and fails everywhere else |
| Wal.ParseTorn | wal.go:262-291 | whole records and then a part of one more cannot be read |
| Wal.ParseUndecodable | wal.go:277-285 | a whole record whose JSON does not decode makes the log unreadable, whatever follows |
| Wal.LogRoundTrip | wal.go:262-291 | a whole log reads back as written |
| Wal.ProgramPrefix | wal.go:411-456 | of a transaction's records cut anywhere, recovery accepts only the whole, with its operations in order |
| Wal.InterleavingKeepsOrder | wal.go:150-173 | however records interleave, a transaction's records in the log are a prefix of its own, in order |
| Wal.InterleavingRecovered | wal.go:203-291 | recovery replays a transaction's program iff its tagged commit was logged, with exactly its own operations, and no other id; objects that commit twice or roll back are in `Sessions` |
| Replay.ApplyOpsLook | wal.go:446-455 | operations leave at each key what the last one naming it leaves |
| Replay.ReplayInLook | wal.go:411-459 | after replay in any order, the last transaction touching a key decides it |
| Replay.ConfluentIff | wal.go:412 | the iteration order does not matter iff transactions touching a common key agree on it |
| Replay.DisjointAgree | wal.go:412 | transactions on pairwise disjoint keys agree |
| Replay.ReplayTwice | wal.go:411-459 | a second replay leaves what it alone would leave; under the same order, or agreement, it changes nothing |
| Replay.UntaggedAddNothing | wal.go:287-290 | untagged records do not change which transactions the log commits |
| Replay.CommittedIff | wal.go:411-446 | of any log: a transaction is replayed iff tagged records of type 3 and 4, and none of type 5, are in it |
| Recovery.RecoveryKeepsDataIff | wal.go:411-459 | replay keeps all values and expiries, in every order, iff no later write changed what a logged transaction left |
| Recovery.RestartsKeepReadsIff | wal.go:242-303 | in every clean restart every key reads at every time as without the replay, iff the data on file are settled in that sense |
| Recovery.PutSurvivesRestartsIff | db.go:40-107 | a Put that a rebuild finds is what every restart with replay finds iff each logged transaction leaves the key alone or puts the same value, the Put having no expiry |
| Recovery.LiveTwice | wal.go:411-459 | a second replay leaves, expiries included, what it alone would leave |
| Recovery.RecoveryIdempotent | wal.go:242-303 | recover, and recover again from the files and the log the first recovery left: under the same order or agreement every key reads as after the first |
| Transactions.ApplyTxsHold | transaction.go:75-84 | issuing operations to the store is applying them to the plain map |
| Transactions.RecoveredValues | wal.go:242-303 | on values, reopening and replaying the log is the replay on plain maps |
| Transactions.LoggingPhase | wal.go:203-239 | until the tagged commit is logged, only the log has grown |
| Transactions.CommittedInShape | wal.go:262-291 | at every point of a commit the log commits what it did before, plus this transaction once its tagged commit is in |
| Transactions.CommitOutcome | transaction.go:64-100 | Commit applies everything iff no Put has an empty key, otherwise everything before the first such Put; the log commits all either way |
| CommitLog.CommitIs | transaction.go:64-100 | a whole Commit, record by record: the operations before the first Put with an empty key are applied in order; the log gains the tagged program, one untagged record for each accepted operation, and the final note iff Commit got through |
| Crashes.ApplyTxsServe | wal.go:446-455 | replay into files with a torn tail reads as the replay on the plain map |
| Crashes.CrashAtomicity | transaction.go:64-100 | crash Commit at any byte, open from the bytes on disk: with a log record cut it refuses, otherwise each key reads as before the commit or as after all of it, decided by the tagged commit record |
| ConcurrentCommits.RunStore | transaction.go:75-84 | after any interleaving of commit steps and plain writes the store means the operations written so far, in order |
| ConcurrentCommits.CommittedNow | wal.go:411-456 | after any interleaving the log commits exactly the commits whose tagged commit is in, with their own operations, and what it did before |
| ConcurrentCommits.NextIsLast | transaction.go:64-100 | one step forward in the interleaved machine is the step that the single commit takes back, but for its clock reading |
| ConcurrentCommits.ConcurrentAtomicity | transaction.go:64-100 | any number of commits and plain writes interleaved step by step and crashed at any byte: each commit is all there or not at all on the keys nothing else names |
| LoggedRuns.RunStands | db.go:40-1254 | every run with the log on, transactions and restarts with replay included, means what it means on a plain map and a plain journal |
| LoggedRuns.RunReads | db.go:531-588 | from a new database on, every read after such a run is the plain map's |
| Sessions.RunReplayed | transaction.go:40-120 | after any run of Put, Delete, Commit and Rollback on a transaction object, others logging between and inside them, recovery replays it iff Commit was called at all, with the operations queued at each Commit |
| Sessions.RolledBackReplayedIff | transaction.go:102-120 | a rolled back transaction is replayed iff Commit had been called before |
| Sessions.CrashedCommitReplayed | transaction.go:64-100 | a Commit cut anywhere: recovery replays the earlier batches and, only if there were any, the part of this one that was logged |
| Sessions.AllOrNothingIff | transaction.go:64-100 | a Commit is all or nothing in what recovery issues, wherever it stops and whoever else logs, iff it is the first of its object or has at most one operation |
| Sessions.RolledBackIsReplayed | transaction.go:64-120 | queue a Put with an empty key and a Put, commit in vain, roll back: the next start replays both |
| Sessions.RetriedCommitTorn | transaction.go:64-100 | a failed Commit called again and cut: a key comes back with a value neither before nor after it |
| WalManager.TxRecordsAreProgram | wal.go:203-239 | the records WriteTransaction makes are a program that recovery treats as one transaction |
| WalManager.WALManager.BufferedWrite | wal.go:166-173 | file and buffer together grow by exactly the data, the file never shrinks, and data that fit the buffer leave it alone |
| WalManager.WALManager.WriteRecord | wal.go:150-200 | the framed record is added to the log, at once on disk under synced writes, in the buffer alone if it fits and writes are not synced, and counted |
| WalManager.WALManager.WriteTransaction | wal.go:203-239 | begin, the operations in order and commit are added, all tagged |
| WalManager.WALManager.ReadTransactions | wal.go:262-291 | reports an error iff the log does not parse, otherwise the tagged records by transaction |
| WalManager.Digest | wal.go:414-446 | the flags and the operation list decide completeness and operations of a group as specified |
| TransactionObject.Issue | wal.go:447-454 | Put or Delete on a database, with the cases it refuses |
| TransactionObject.IssueLogged | db.go:197-223 | the data file first, then the untagged record, none for a refused operation |
| TransactionObject.Transaction.Put | transaction.go:40-45 | the operation is queued last |
| TransactionObject.Transaction.Delete | transaction.go:47-52 | the operation is queued last |
| TransactionObject.Transaction.Commit | transaction.go:64-100 | runs exactly the steps of the commit machine, to its end or to the first Put with an empty key; under synced writes all its records are in the file |
| TransactionObject.Transaction.Rollback | transaction.go:102-120 | only an untagged note is logged, and the operations are dropped: the Rollback step of `Sessions` |
| TransactionObject.IssuedIsFlat | wal.go:412-456 | skipping incomplete groups on the way is replaying the committed transactions in the same order |
| TransactionObject.ReplayTransactions | wal.go:411-459 | the replay loop issues every complete group's operations, group after group, and logs one untagged record for each accepted one, in order |
| TransactionObject.NewGojiDB | db.go:40-107 | on whatever bytes are on disk it fails iff the log cannot be read, and otherwise is the rebuild and replay of `Crashes.Open` for some iteration order, the log having grown by one untagged record for each accepted operation |
| Decimal.AtoiPrint | smart_compression.go:803 | Atoi undoes %d for every length an int can hold, and no digit is a colon |
| Formats.AtoiIs | smart_compression.go:988-995 | Atoi accepts exactly decimal digits, with one sign before them or none, whose value fits 64 bits |
| Formats.PrintIsDecimal | smart_compression.go:803 | %d prints the digits of the number, most significant first and without a leading zero |
| Decimal.IndexAfter | smart_compression.go:975-985 | the first colon behind colon-free bytes is found there |
| MixedMode.ReadFrameHeader | smart_compression.go:973-1010 | a chunk's header is parsed correctly whatever bytes, colons included, the chunk and the rest have |
| MixedMode.MixedRoundTrip | smart_compression.go:769-1028 | for every input, chunk size and per-chunk algorithm, decoding restores the input |
| MixedMode.CompressMixedMode | smart_compression.go:769-815 | the chunking loop produces exactly the container |
| MixedMode.DecompressMixedMode | smart_compression.go:965-1028 | the decoding loop ends on every input with data, an error or a slice-bounds panic as specified |
| Formats.MixedBytes | smart_compression.go:769-815 | the mixed container: byte 1, then each piece (of 64 KiB unless configured), compressed with the algorithm chosen for it, behind that algorithm's digit and the stored length in decimal, each followed by a colon |
| DamagedContainers.MixedHeaderDecides | smart_compression.go:965-1028 | whatever a chunk's header says: a size that is no number or reaches past the end is an error, a negative one a panic, an unknown algorithm means none |
| DamagedContainers.MixedCut | smart_compression.go:965-1028 | cut anywhere: the chunks before the cut if it is behind a chunk or inside a header, otherwise an error |
| DamagedContainers.UnmarkedPass | smart_compression.go:965-1092 | data that do not begin with the byte of a form come out of its decoder as they went in |
| ChunkedModes.JobsCover | smart_compression.go:839-857 | the chunks are consecutive pieces of the input, up to chunks times size |
| ChunkedModes.PlanCoversIff | smart_compression.go:819-837 | the planned chunks reach the end of the input iff no merging is needed or the merge is even |
| ChunkedModes.ParallelDecodes | smart_compression.go:818-1087 | the parallel decoder returns exactly the part of the input the chunks reach |
| ChunkedModes.ParallelRoundTripIff | smart_compression.go:818-1087 | the whole input comes back iff it needs at most maxChunks chunks or its length is a multiple of maxChunks |
| ChunkedModes.StreamRoundTrip | smart_compression.go:609-1147 | the stream form always brings the whole input back |
| Formats.StreamBytes | smart_compression.go:609-665 | the stream container: byte 3, the number of pieces in four bytes, little-endian, the algorithm chosen for the whole input, then each piece compressed with it behind original and stored length |
| Formats.ParallelBytes | smart_compression.go:818-882 | the parallel container: byte 2, the number of pieces, then each piece behind the algorithm chosen for it and its two lengths |
| DamagedContainers.StreamCut | smart_compression.go:1090-1147 | a stream container cut anywhere is refused |
| DamagedContainers.ParallelCut | smart_compression.go:1031-1087 | a parallel container cut anywhere is refused |
| DamagedContainers.OnePieceDecodes | smart_compression.go:1090-1147 | a piece with any fields is accepted iff it decodes, under the named algorithm, to data of the length written |
| ChunkWorkers.MakeJobs | smart_compression.go:839-857 | the queueing loop cuts the input into the planned chunks |
| ChunkWorkers.CollectJobs | smart_compression.go:589-665 | for every order in which workers finish and the collector collects, the bytes are the same |
| ChunkWorkers.CompressParallel | smart_compression.go:818-882 | produces exactly the parallel container |
| ChunkWorkers.CompressStream | smart_compression.go:609-665 | produces exactly the stream container |
| ChunkWorkers.DecompressParallelMode | smart_compression.go:1031-1087 | the decoding loop returns what the parallel format means, or an error |
| ChunkWorkers.DecompressStreamMode | smart_compression.go:1090-1147 | the decoding loop returns what the stream format means, or an error |
| SmartChoice.ParallelPath | smart_compression.go:228-231 | a parallel result decodes to its input iff the coverage condition holds |
| SmartChoice.EvictsOldestIff | smart_compression.go:502-510 | the evicted entry is an oldest one in every map order iff the empty key is not the single oldest of several |
| SmartChoice.VictimIsFirstOldest | smart_compression.go:502-510 | without the empty key the victim is the first of the oldest entries on the way |
| SmartChoice.CompressionCache.FindOldest | smart_compression.go:502-510 | the scan loop computes the victim of the order in which it visits the map |
| SmartChoice.CompressionCache.Set | smart_compression.go:496-520 | when full, exactly the scan's victim goes; then the entry is stored; the size stays bounded |
| SmartChoice.SmartCompressor.CompressWithSmartChoice | smart_compression.go:201-273 | path by path: a hit returns the cached pair; data not worth it, or without enough gain, come back raw; long data go to the mixed, parallel or stream container, in that order of preference, uncached; all else is compressed with the chosen algorithm; what was decided is cached, a victim of the scan going first. In every run the returned tag's decoder restores the input, for the parallel tag exactly under its coverage condition |
| TtlHeap.UpStep | ttl.go:82-92 | moving a too small element up leaves a heap but for its new place |
| TtlHeap.DownStep | ttl.go:82-143 | moving a too large element to its smaller child leaves a heap but for its new place |
| TtlHeap.RootIsLeast | ttl.go:131-135 | the first element of a heap is its least |
| TtlHeap.ExpiryHeap.Swap | ttl.go:33-37 | two items change places and know it; all others stay |
| TtlHeap.ExpiryHeap.Up | ttl.go:92 | sifting up ends in a heap of the same items, positions right |
| TtlHeap.ExpiryHeap.Down | ttl.go:103-138 | sifting down ends in a heap, or reports that it moved nothing and all is well below |
| TtlHeap.ExpiryHeap.Fix | ttl.go:82 | one changed item is sifted back into a heap of the same items |
| TtlHeap.ExpiryHeap.Push | ttl.go:39-43 | the heap gains exactly the item |
| TtlHeap.ExpiryHeap.Remove | ttl.go:45-53 | the heap loses exactly the item at that position, whose index becomes -1 |
| TtlManager.TTLManager.Add | ttl.go:71-93 | inserts the key or updates its expiry, nothing else |
| TtlManager.TTLManager.Remove | ttl.go:96-107 | removes the key, nothing else |
| TtlManager.TTLManager.ProcessExpiredKeys | ttl.go:125-143 | fires due keys in order of expiry, keeps the others unchanged, and leaves none that is due |
| TtlManager.PassIsExact | ttl.go:125-143 | so the fired keys are exactly those due, and the rest is the original map without them |
| Lru.RunOrdered | cache.go:42-112 | after any run the list is in descending order of last touch, no key twice, holds the last values set, and has at most max(1, capacity) items |
| Lru.HitIsLastSet | cache.go:42-55 | a hit returns the last value set |
| Lru.EvictsLeastRecent | cache.go:58-92 | a Set on a full list evicts one item, the least recently touched, and otherwise none |
| Lru.LRUCache.Get | cache.go:42-55 | a hit moves the element to the front; hits and misses are counted |
| Lru.LRUCache.Set | cache.go:58-82 | map and list change together as the recency list specifies |
| Lru.LRUCache.EvictOldest | cache.go:85-92 | the last element leaves map and list |
| Lru.LRUCache.Remove | cache.go:95-103 | the key leaves map and list |
| Lru.LRUCache.Clear | cache.go:106-112 | map and list are empty |
| ReadPath.HitAgrees | db.go:822-830 | a cached block gives a live key the bytes in the file |
| ReadPath.ReadDataAgrees | db.go:805-875 | a read through the cache returns what the file has and leaves the cache in agreement |
| ReadPath.ReadCaches | db.go:805-875 | which reads are answered from the block and which from the file, and what is the most recent block afterwards |
| ReadPath.ExpireKeepsCacheOk | db.go:1019-1044 | an expiry, which appends without clearing, keeps every cached block right |
| ReadPath.CachedReadsAgree | db.go:805-875 | in every run of Put, Delete, expiry, SetTTL and Get, every live key reads through the cache as from its file |
| ReadPath.WritesClear | db.go:154-253 | every accepted Put and Delete empties the block cache; of the other operations only Get changes it |
| ReadPath.BatchPutReadsIff | db.go:256-347 | after a whole BatchPut, rotation included, a key in it reads right iff no cached block covers its new bytes or they are all zero; every other key reads right |
| ReplacedFiles.CompactReadsIff | db.go:1047-1254 | after Compact a kept key, now in file 1, reads right through the cache iff the old file 1, as a covering block caught it, had the same bytes there; all do if no block of file 1 is cached |
| ReplacedFiles.RestoreReadsIff | snapshot.go:76-114 | the same after RestoreFromSnapshot for each live key and its restored file |
| BlockCacheObject.ReadData | db.go:805-875 | on the real cache object, data and cache change as specified |
| BlockCacheObject.Get | db.go:555-588 | Get through the block cache answers as Get from the files, errors included, and leaves the cache in agreement |
| BatchRead.ServedRightIff | db.go:471-528 | a worker's result is right iff it has memory of its own or its bytes survive in the reused buffer |
| BatchSchedules.BatchGetIff | db.go:350-528 | every answer is Get's in every schedule (sort ties, files over workers, order of files) iff each byte handed out is what any file may leave there last |
| BatchSchedules.TopByOffset | db.go:477-510 | in order of offset, a buffer byte comes from the farthest request that reaches it |
| BatchSchedules.UncompressedClash | db.go:512-528 | for two different uncompressed one-byte values in one call, a schedule and its wrong answers |
| BatchWorkers.SortByOffset | db.go:477-479 | the same requests, in order of offset |
| BatchWorkers.ProcessFileTask | db.go:471-510 | the worker has served exactly the file's requests, in some order of offset |
| BatchWorkers.GroupRequests | db.go:358-390 | each file's requests in list order, duplicates included, and empty results for exactly the keys without a value |
| BatchWorkers.BatchGet | db.go:350-450 | gives the answers of some schedule, for each key asked for and no other; they are Get's at that instant, or empty, if the requests are undisturbed |
| ConcurrentMap.MergeAt | concurrent.go:91-106 | a key is in the whole map exactly when it is in its own shard, with that value |
| ConcurrentMap.SizesAddUp | concurrent.go:155-163 | the shard sizes add up to the size of the whole map |
| ConcurrentMap.ConcurrentMap.Get | concurrent.go:99-106 | the whole map's value, or none |
| ConcurrentMap.ConcurrentMap.Set | concurrent.go:109-115 | the whole map changes at the key alone, which is kept in the shard its hash names |
| ConcurrentMap.ConcurrentMap.Delete | concurrent.go:118-124 | the whole map loses the key alone |
| ConcurrentMap.ConcurrentMap.Size | concurrent.go:155-163 | the cardinality of the whole map |
| ConcurrentMap.ConcurrentMap.Range | concurrent.go:127-138 | visits entries of the map, none twice, all of them unless stopped, and stops at once |
| Counterexamples.MarkerIsLost | db.go:943-970 | a value equal to the deletion marker reads back until the next restart |
| Counterexamples.ListedUnreadable | db.go:665-678 | in its last second a key is listed and does not read |
| Counterexamples.SnapshotForgetsExpiry | snapshot.go:24-114 | SetTTL, snapshot, restore: the expiry is gone |
| Counterexamples.ExpiryTakesNewValue | db.go:715-721 | a value put between the expired read and the scheduled removal is lost |
| Counterexamples.RevivedOrGone | db.go:680-721 | an expired key that SetTTL brings back, unless the removal has run |
| Counterexamples.HalfCommitted | transaction.go:64-100 | a Put with an empty key in the middle: the first half is applied, the log commits all |
| Counterexamples.OrderDecides | wal.go:412 | two transactions with different values at one key: the iteration order decides |
| Counterexamples.LaterPutIsReverted | wal.go:411-459 | commit a value, put another, restart: the committed value is back |
| Counterexamples.LaterExpiryIsLost | wal.go:411-459 | commit a value, put it again with an expiry, restart: the key reads after its expiry |
| Counterexamples.ParallelTailLost | smart_compression.go:818-837 | three bytes, chunks of one, two workers: two bytes come back |
| Counterexamples.YoungerEvicted | smart_compression.go:502-510 | the empty input cached first: the younger entry goes |
| Counterexamples.BatchPutMisread | db.go:256-347 | Put, Get, BatchPut into the same block: the new key reads as zeros |
| Counterexamples.CompactMisread | db.go:1163-1254 | a cached block, an expiry and a compaction: one key reads as another |
| Counterexamples.BatchGetClash | db.go:350-528 | two one-byte values put uncompressed into a new database and read in one batch: a possible wrong answer |

## Left out

- Get's shortcut through the key cache (db.go:539-550): it looks blocks up by value position while they are stored by block start, so it hits only for a value position that is a multiple of 4096 whose block is cached, and then decompresses the whole block in place of the value.
- `SmartCompressor.Decompress` (smart_compression.go:668-720) guesses the format and ignores the tag; the tagged decoders are modelled instead.
- Entropy, redundancy and gain judgements (smart_compression.go:338-406) are floating point; the choices they make are arbitrary in the model.
- The dictionary (smart_compression.go:522-575) and the hit counts of cache entries (482-493) only count and never change what is compressed.
- compressStream called directly on an input no longer than one chunk (smart_compression.go:610-613); its one caller excludes that.
- A stream or parallel call without a running worker pool, which would wait forever (smart_compression.go:152-154, 648).
- `TimeWheel` (ttl.go:165-313) is not used by the store; starting the clean-up functions as goroutines is reduced to the list of fired keys.
- Background compaction and its trigger (db.go:245-251), periodic log flushing, checkpoints, metrics, the command line and printing.
- Log writes that are not synced: a crash can then lose records of operations already in the data files; crash atomicity is claimed for synced writes only.
- Database.GojiDB.Get: reads the file directly; reading through the block cache is BlockCacheObject.Get.
- Real goroutine scheduling and data races, among them BatchGet's workers writing one result map without a lock; steps are atomic and in arbitrary order.
- Crashes inside a compaction, between the removal of the old files and the renaming of the new one (db.go:1197-1212).
- Writes made after a torn-tail recovery: the file is reopened for appending without truncation (db.go:983-995).
- File ids are unbounded; their wrap-around after 2^32 rotations is not modelled.
- Database.GojiDB: an index record is a value in the map rather than a shared pointer, so its updates in place appear as map updates.
