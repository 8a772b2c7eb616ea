# A verified model of the teleno node's storage, audit, backup and production logic

This project models six components of the teleno node in Dafny and proves the
properties that their design rests on.

- **Block store** (`SkipList`, `BlockStore`). Blocks form a forest of forks. Each
  stored block carries pointers 1, 2, 4, ... blocks down, computed by walking the
  pointers already stored. The reference is the plain walk along `header.previous`.
- **Replay auditor** (`JournalCodec`, `BucketJournal`, `JournalPipeline`,
  `JournalBuild`, `DeltaReplay`, `AuditWalk`, `AuditVerdict`, `AuditCandidates`,
  `SourceAudit`). A reader, any number of parsers and a writer fill bucketed journal files
  over bounded queues. A backward walk then picks the canonical chain among fork
  candidates, replays every state delta and classifies every root.
- **Snapshot repository and SFTP mirror** (`SnapshotRepository`, `LocalRepository`,
  `SftpCommand`, `RemoteMirror`, `BackupRoundTrip`). Objects are files named by their
  hash; a snapshot becomes visible by a rename. Every single file-system change is a
  step of a recorded history, and the theorems speak about every state of it.
- **Block producer** (`Eligibility`, `BlockProducer`). Greedy fill under resource
  bounds, the loop that drops failed transactions and proposes again, proof-of-burn
  eligibility and turns.
- **Restore recovery hold** (`RecoveryHold`). Two files that survive power losses and
  keep production off after a restore.
- **Account history** (`HistoryKeys`, `AccountHistory`). A big-endian keyed index that
  answers like a plain log per address.

`Bytes`, `Listing`, `Sequences`, `Arithmetic` and `Options` hold what they share.

Hashing, Merkle trees, signatures, protobuf and JSON serialization, the chain's answers
and the clock are parameters. Where a statement needs them to behave (a hash without
collisions, a parse that undoes a serialization), that is an explicit hypothesis.
Imperative code is modelled by classes and methods with loops, each proved against a
specification function or an outright property.

Findings, each stated as a lemma or a contract with its exact condition:

- `add_block` at an odd height never looks at the parent, so an orphan is stored; a new
  block that is not turned away keeps the index well-formed exactly when its parent is
  stored one height lower.
- A height range past the head raises an exception that the query does not catch.
- Retention can remove the snapshot just stored and leave `latest.json` dangling,
  exactly when enough greater names are listed.
- A stored snapshot reuses existing objects unchecked, and an upload skips objects of
  equal size unchecked: each is correct exactly when no reused object was corrupt.
  A restore checks every object, so a corrupt one fails the restore and is never staged.
- A failed removal may delete `files.json` and leave `COMPLETE`. The snapshot is still
  listed, and its objects are collected: a listed snapshot stays fully backed exactly
  while its file list is readable.
- Uploading a snapshot whose directory already exists remotely always fails, so a retry
  after the snapshot rename cannot succeed.
- Rewriting a remote object that a visible snapshot needs always passes through a state
  that breaks the snapshot, unless the sizes agree and nothing is written. An upload is
  crash-safe exactly when no local object has a remote namesake of another size that a
  visible snapshot mentions, and every object the new snapshot needs ends up correct.
- Deleting the latest remote snapshot leaves `latest.json` dangling on the way.
- An operation name that starts with a dash does not survive printing and parsing.
- A restore writes its marker last and does not sync it, and a start removes the marker
  before it has turned production off. Every start respects the hold exactly when no
  restore stops before the marker is written, no power loss takes a marker that is not
  yet durable, and no start is killed between removing the marker and its end. In the
  last case the next start with the explicit flag produces although no start ever ran as
  an observer.
- Account-history keys are an address and a number with nothing in between. The index
  holds the log of every indexed address exactly when no address starts with another
  one and no counter key starts with an address; addresses of one length, none mistaken
  for "meta:", always qualify.
- A failed store whose clean-up fails too leaves its partial directory behind, and a
  later store under the same name then fails.

## Model

| member | source | states |
|---|---|---|
| SkipList.GetPreviousHeights | src/block_store/skip_list.hpp:25-38 | The loop returns the heights H - 2^i for every i up to the trailing zeros of H |
| SkipList.PreviousHeightsPoint | src/block_store/skip_list.hpp:25-38 | Entry i of the previous heights lies exactly 2^i below |
| SkipList.GetPreviousHeightIndex | src/block_store/skip_list.hpp:54-73 | Returns the longest stored jump that does not pass the goal, or the invalid-argument error exactly when the goal is not lower |
| SkipList.BestJumpUnique | src/block_store/skip_list.hpp:54-73 | There is only one longest jump that does not pass the goal |
| SkipList.FullStrideRaises | src/block_store/skip_list.hpp:54-73 | Taking the longest pointer strictly raises the number of trailing zeros |
| SkipList.ShortStrideLeaves | src/block_store/skip_list.hpp:54-73 | Taking a shorter pointer leaves exactly its exponent as the trailing zeros, so exponents then strictly fall |
| SkipList.LogarithmicLookup | src/block_store/block_store.cpp:76-104 | From height H, at most 2*floor(log2 H)+1 jumps reach any lower height |
| BlockStore.LookupRefinesParentWalk | src/block_store/block_store.cpp:69-105 | On a well-formed index, looking up height t returns the id reached by following header.previous H-t times, and never throws |
| BlockStore.LookupOutcome | src/block_store/block_store.cpp:69-105 | Every outcome of a lookup: missing block, target above the block, or the ancestor |
| BlockStore.AddKeepsIndex | src/block_store/block_store.cpp:301-388 | Adding a block whose parent is stored one height lower (or at height 1) keeps every pointer equal to the parent walk, over all forks |
| BlockStore.AddKeepsIndexExactly | src/block_store/block_store.cpp:329-371 | The index stays well-formed if and only if the block was already stored, is turned away, or extends a stored parent |
| BlockStore.RejectedExactly | src/block_store/block_store.cpp:329-371 | add_block turns a block away exactly at even heights whose parent is missing or more than two heights lower |
| BlockStore.OrphanIsStored | src/block_store/block_store.cpp:338-342 | At odd heights a block with a missing parent is stored, and a lookup through it throws |
| BlockStore.RunKeepsIndex | src/block_store/block_store.cpp:301-388 | After any admissible sequence of add_block calls the index is well-formed and every block is stored |
| BlockStore.RunKeepsHighest | src/block_store/block_store.cpp:301-388 | After any sequence of add_block calls the highest-block metadata names a stored block of maximal height |
| BlockStore.RunHoldsFirst | src/block_store/block_store.cpp:301-388 | After any sequence of add_block calls on an empty store an id is stored if and only if some call for it was not turned away, and its record carries the block and the receipt of the first such call |
| BlockStore.RunLookupIsParentWalk | src/block_store/block_store.cpp:69-105 | Whole runs from an empty store: every lookup from every stored block is the parent walk |
| BlockStore.FillWalksParents | src/block_store/block_store.cpp:107-162 | fill_blocks returns the block and its ancestors one parent at a time |
| BlockStore.RangeQuery | src/block_store/block_store.cpp:232-299 | Every outcome of a height-range query: empty, the uncaught exception past the head, or exactly the n ancestors ascending |
| BlockStore.RangeIsLinked | src/block_store/block_store.cpp:232-299 | Consecutive items of a range are parent and child |
| BlockStore.RangeShows | src/block_store/block_store.cpp:107-162 | Each item of a range shows the stored block exactly when blocks were asked for, and the stored receipt exactly when receipts were |
| BlockStore.BlockStore.constructor | src/block_store/block_store.cpp:19-24 | A new store is empty |
| BlockStore.BlockStore.Initialize | src/block_store/block_store.cpp:168-181 | Sets the genesis topology only when there is none |
| BlockStore.BlockStore.GetAncestorIdAtHeight | src/block_store/block_store.cpp:69-105 | The loop equals the recursive lookup on any index, within the logarithmic number of jumps |
| BlockStore.BlockStore.FillBlocks | src/block_store/block_store.cpp:107-162 | The loop equals the recursive downward walk, stopping at the first surprise |
| BlockStore.BlockStore.GetBlocksByHeight | src/block_store/block_store.cpp:232-299 | The query equals its specification on any index, uncaught exception included |
| BlockStore.BlockStore.BuildPointers | src/block_store/block_store.cpp:329-371 | The pointer loop equals its specification, or stops when a lookup throws |
| BlockStore.BlockStore.AddBlock | src/block_store/block_store.cpp:301-388 | A block that is new and not turned away is stored with its receipt and every other record stays; any other call changes no record; on a well-formed index a block is turned away exactly at even heights over a missing or too low parent; the new records and highest block are those of the state machine; index and metadata invariants are kept |
| JournalCodec.FrameDecodes | tools/state_delta_replay_audit.cpp:1108-1129 | A frame whose messages parse decodes to its record |
| JournalCodec.DecodesExactlyFrames | tools/state_delta_replay_audit.cpp:1091-1129 | Bytes decode if and only if they are a frame whose two messages parse |
| JournalCodec.RoundTrip | tools/state_delta_replay_audit.cpp:1091-1129 | Decoding an encoding gives back the record, for all field contents |
| JournalCodec.ExtensionRejected | tools/state_delta_replay_audit.cpp:1108-1129 | Anything accepted is rejected once bytes are appended |
| JournalCodec.PrefixFree | tools/state_delta_replay_audit.cpp:1108-1129 | Every strict prefix of something accepted is rejected |
| JournalCodec.FrameInjective | tools/state_delta_replay_audit.cpp:1091-1106 | Equal frames have equal fields |
| JournalCodec.EncodeRecord | tools/state_delta_replay_audit.cpp:1091-1106 | The appending code builds exactly the frame |
| JournalCodec.DecodeRecord | tools/state_delta_replay_audit.cpp:1108-1129 | The offset-driven reader equals the decoding function, every error included |
| JournalCodec.AppendField | tools/state_delta_replay_audit.cpp:736-740 | Appends the eight-byte length and the bytes |
| JournalCodec.ReadField | tools/state_delta_replay_audit.cpp:742-751 | Reads a length-prefixed field, or reports a short one |
| Bytes.AppendU64 | tools/state_delta_replay_audit.cpp:716-720 | The shifting loop writes the big-endian number |
| Bytes.ReadU64 | tools/state_delta_replay_audit.cpp:722-734 | The shifting loop reads it back, or reports truncation |
| Bytes.BigEndianOrder | src/account_history/account_history.cpp:194-203 | Lexicographic order of equal-width encodings is numeric order |
| BucketJournal.BucketsPartition | tools/state_delta_replay_audit.cpp:1798-1806 | A height lies in a bucket's range if and only if it is the bucket of that height: the buckets partition 1..N |
| BucketJournal.ParseUndoesEncode | tools/state_delta_replay_audit.cpp:1808-1852 | Parsing any run of encoded records followed by anything gives the records, then what follows |
| BucketJournal.DamageIsNamed | tools/state_delta_replay_audit.cpp:1808-1852 | After any run of good records, a record cut short is refused with the error of the field it was cut in, a record of another bucket as out of range, and anything else as a bad magic |
| BucketJournal.ReadBucket | tools/state_delta_replay_audit.cpp:1808-1852 | On any file: loads exactly when the file parses with all heights in range, and groups payloads per height in file order; otherwise the error is the first fault in file order |
| BucketJournal.BucketReadsBack | tools/state_delta_replay_audit.cpp:1808-1852 | The file of a bucket holds that bucket's records, in range |
| BucketJournal.ReplayJournal.constructor | tools/state_delta_replay_audit.cpp:1397-1434 | One file with its magic per bucket |
| BucketJournal.ReplayJournal.FlushBucket | tools/state_delta_replay_audit.cpp:1577-1587 | Moves the buffer to the end of the file |
| BucketJournal.ReplayJournal.Append | tools/state_delta_replay_audit.cpp:1588-1601 | File plus buffer hold each bucket's records in write order, whatever the flush threshold |
| BucketJournal.ReplayJournal.Finish | tools/state_delta_replay_audit.cpp:1629-1637 | Afterwards the files alone hold everything |
| BucketJournal.ReplayJournal.LoadBucket | tools/state_delta_replay_audit.cpp:1808-1852 | Loads every bucket of a finished journal |
| BucketJournal.ReplayJournal.PayloadsAtHeight | tools/state_delta_replay_audit.cpp:1673-1691 | Returns exactly that height's payloads in write order |
| JournalPipeline.ReachedInv | tools/state_delta_replay_audit.cpp:1458-1637 | What every interleaving of reader, parsers and writer keeps |
| JournalPipeline.NothingLostOrDuplicated | tools/state_delta_replay_audit.cpp:1458-1637 | A finished run without a recorded error has written exactly the multiset of eligible records, and no source record was malformed |
| JournalPipeline.ErrorsHaveCauses | tools/state_delta_replay_audit.cpp:1458-1637 | If no step throws and no source record is malformed, no reachable state has a recorded error or is about to record one |
| JournalPipeline.UndisturbedRunsComplete | tools/state_delta_replay_audit.cpp:1458-1637 | Every run over a well-formed source that nothing interrupts and that goes on as long as it can ends finished, without an error, with every eligible record written |
| JournalPipeline.QueuesStayBounded | tools/state_delta_replay_audit.cpp:780-834 | Both queues stay within their capacity in every reachable state |
| JournalPipeline.NeverStuck | tools/state_delta_replay_audit.cpp:1458-1637 | In every reachable unfinished state some thread can act without throwing, including after a failure has closed both queues |
| JournalPipeline.EveryRunEnds | tools/state_delta_replay_audit.cpp:1458-1637 | No run takes more than 10 * records + 6 * parsers + 13 steps |
| JournalBuild.JournaledRecordDecodes | tools/state_delta_replay_audit.cpp:1516-1561 | What is journaled for a source record fits the file format and decodes to its first non-empty id, its header and its pruned receipt |
| JournalBuild.ParseRawMeans | tools/state_delta_replay_audit.cpp:1519-1552 | By the fields of the record: it is journaled if and only if it parses, lies between 1 and the required height, is complete and has its header at that height; it is malformed, and it is skipped, exactly under the stated conditions; what is journaled carries the first non-empty of record id, block id and database key |
| JournalBuild.EligibleIsExpected | tools/state_delta_replay_audit.cpp:1508-1561 | The eligible records of a height are, in source order, exactly the encodings of the records that have to be journaled there |
| JournalBuild.ExpectedHas | tools/state_delta_replay_audit.cpp:1508-1561 | Every record that has to be journaled is among those expected at its height |
| JournalBuild.JournalHoldsSource | tools/state_delta_replay_audit.cpp:1458-1637 | After a clean run, each height's journal payloads are, as a multiset, the encodings of that height's eligible source records |
| JournalBuild.WriteAndReadBack | tools/state_delta_replay_audit.cpp:1571-1637 | Writing any record order with any bucket size and threshold and loading a height returns its payloads in write order |
| JournalBuild.WrittenComesFrom | tools/state_delta_replay_audit.cpp:1458-1637 | After a clean run every written record fits the format and decodes to an eligible source record of its height |
| JournalBuild.BuildAndLoad | tools/state_delta_replay_audit.cpp:1458-1691 | Build, files and load together: the payloads loaded for a height are, as a multiset, the encodings of the source records that have to be journaled there; every such record is among them, and each decodes to such a record |
| JournalBuild.BoundedQueue.Push | tools/state_delta_replay_audit.cpp:788-801 | Waits exactly when full and open; otherwise appends at the end unless closed; the capacity holds |
| JournalBuild.BoundedQueue.Pop | tools/state_delta_replay_audit.cpp:803-817 | Waits exactly when empty and open; otherwise takes from the front, and reports the end exactly when empty |
| JournalBuild.BoundedQueue.Close | tools/state_delta_replay_audit.cpp:819-826 | Closes and keeps the items |
| DeltaReplay.SortUnique | tools/state_delta_replay_audit.cpp:1942-1976 | If equal keys mean equal pairs, an unstable sort has one possible result |
| DeltaReplay.SimulatedRootUnique | tools/state_delta_replay_audit.cpp:1985-2065 | The simulated root does not depend on iteration order or tie-breaking |
| DeltaReplay.ShortcutIsSimulated | tools/state_delta_replay_audit.cpp:2009-2016 | Without duplicate keys, the shortcut root is a root the full simulation can return |
| DeltaReplay.ShortcutIsExact | tools/state_delta_replay_audit.cpp:1985-2065 | Without duplicate keys, shortcut and simulation return the same root |
| DeltaReplay.EmissionCount | tools/state_delta_replay_audit.cpp:2018-2058 | How often each pair is emitted for a delta, in any iteration order |
| DeltaReplay.ReplayMeans | tools/state_delta_replay_audit.cpp:2018-2036 | Replaying keeps, per key, the value of the last entry for it when that is a put, and a tombstone exactly when some entry removes it, also when a later one sets it again |
| DeltaReplay.PairsAt | tools/state_delta_replay_audit.cpp:1942-1976 | Every entry is hashed under its key with its value, a tombstone like an empty value |
| DeltaReplay.ReplayOfEmission | tools/state_delta_replay_audit.cpp:2018-2058 | Serializing delta (V, R) and replaying it yields (V, R minus the keys of V) |
| DeltaReplay.NormalizedIsFixed | tools/state_delta_replay_audit.cpp:2018-2058 | The normalized delta is a fixed point of serialize and replay |
| DeltaReplay.NormalizedSameEffect | tools/state_delta_replay_audit.cpp:2018-2058 | Normalizing changes nothing about the delta's effect on any state |
| DeltaReplay.DuplicatesComeFromRewrites | tools/state_delta_replay_audit.cpp:2018-2058 | A serialized delta has duplicate keys exactly when some key is both removed and set |
| DeltaReplay.FindDuplicates | tools/state_delta_replay_audit.cpp:1985-2007 | Finds exactly the keys occurring more than once, and counts the surplus entries |
| DeltaReplay.SortByKey | tools/state_delta_replay_audit.cpp:1942-1976 | A sorted permutation |
| DeltaReplay.ComputeRoot | tools/state_delta_replay_audit.cpp:1942-1976 | The Merkle root of a sorted permutation of the entries' pairs |
| DeltaReplay.Simulate | tools/state_delta_replay_audit.cpp:2018-2065 | A root of an emission of the replayed delta |
| DeltaReplay.AnalyzeReplayed | tools/state_delta_replay_audit.cpp:1985-2065 | The simulated root whenever the given serialized root is right or duplicates force the simulation, the given root otherwise, with the exact duplicate counts |
| AuditWalk.CaseAtFinds | tools/state_delta_replay_audit.cpp:253-259 | The first listed case at a height, or none exactly when no case has that height |
| AuditWalk.FindLegacyMask | tools/state_delta_replay_audit.cpp:2589-2609 | The numerically least mask of dropped entries whose rest replays to the signed root; None, for 1 to 20 entries, exactly when no mask does |
| AuditWalk.LegacyDropMeans | tools/state_delta_replay_audit.cpp:2589-2670 | A mismatching block counts as a legacy drop exactly when no known case claims it and replaying it without some entries gives the signed root; the counters are the removes and puts left out |
| AuditWalk.CleanClass | tools/state_delta_replay_audit.cpp:2469-2660 | A classification that raises no failure counter explains the root and counts as accepted once |
| AuditWalk.FailsExactlyOnUncleanBlock | tools/state_delta_replay_audit.cpp:271-276 | The audit has failures if and only if some selected block is not clean |
| AuditWalk.CleanAuditIsSound | tools/state_delta_replay_audit.cpp:2316-2725 | A clean audit selected the ancestors of the tip, every non-tip root is explained, the five accepted counters sum to blocks_checked - 1, and from height 1 it is anchored at genesis |
| AuditWalk.ChainUnique | tools/state_delta_replay_audit.cpp:2398-2448 | With one candidate per id and height, the source head determines the selected chain |
| AuditWalk.WalkSplits | tools/state_delta_replay_audit.cpp:2321-2713 | Walking to a lower height is walking to any height in between and on |
| AuditWalk.DecodeChunk | tools/state_delta_replay_audit.cpp:2323-2396 | Succeeds exactly when every payload of the chunk decodes |
| AuditWalk.WalkChunk | tools/state_delta_replay_audit.cpp:2397-2708 | The loop over a chunk equals the recursive walk |
| AuditWalk.ClassifyBlock | tools/state_delta_replay_audit.cpp:2469-2670 | The cascade of branches equals the classification that AuditVerdict.ClassMeans characterizes, the search over masks included |
| AuditWalk.TakeStep | tools/state_delta_replay_audit.cpp:2397-2705 | The body of the loop over heights equals one step of the walk |
| AuditWalk.RunReplay | tools/state_delta_replay_audit.cpp:2321-2725 | The chunked loop equals the unchunked audit, so the result does not depend on the bucket size |
| AuditVerdict.ClassMeans | tools/state_delta_replay_audit.cpp:2469-2670 | Each of the nine classes if and only if its own condition on the block, the listed case and the signed root holds: ordinary, listed tombstone, duplicate fallback, listed incomplete receipt, listed scar, contradicted case, legacy drop, unexplained, and the right root of a block whose id mismatch is counted elsewhere |
| AuditVerdict.KeptLast | tools/state_delta_replay_audit.cpp:2598-2602 | Entry i is kept exactly when binary digit i of the mask is clear, in order |
| AuditVerdict.DroppedCounts | tools/state_delta_replay_audit.cpp:2610-2660 | The counted drops are as many as the puts, or removes, whose digit is set |
| AuditVerdict.HexRoundTrip | tools/state_delta_replay_audit.cpp:148-195 | Reading the hexadecimal text of any bytes gives the bytes back |
| AuditVerdict.AuditCounts | tools/state_delta_replay_audit.cpp:2397-2725 | Every counter of an audit that ends is the sum, over the selected blocks, of what each contributes by its own fields, the case listed at its height and the root its child signed |
| AuditVerdict.AuditPassesExactly | tools/state_delta_replay_audit.cpp:271-276 | An audit that ends passes if and only if every selected block has the listed id, where a case is listed, and every block below the tip has an accepted root |
| AuditVerdict.HealthyAuditPasses | tools/state_delta_replay_audit.cpp:2316-2725 | If no case is listed below the tip, none contradicts the tip and every replayed root is the one the child signed, the audit passes and all blocks but the tip count as ordinary |
| AuditVerdict.AuditEndsExactly | tools/state_delta_replay_audit.cpp:2397-2725 | The audit ends if and only if every payload decodes and there is a whole selection: the tip, then each time the first candidate with the id the child names, agreeing with its receipt, down to genesis; that selection is unique and is the one reported |
| AuditVerdict.AuditPassesIff | tools/state_delta_replay_audit.cpp:2316-2725 | The audit ends and passes if and only if every payload decodes and some whole selection has the listed ids and accepted roots throughout |
| AuditVerdict.AuditGivesVerdict | tools/state_delta_replay_audit.cpp:2316-2725 | Ending, selection, counters and passing of every audit together |
| AuditCandidates.AnalyzePayload | tools/state_delta_replay_audit.cpp:2346-2379 | A candidate exists exactly when the payload decodes; its computed root, replayed root and duplicate count are those of the decoded entries |
| AuditCandidates.AnalyzeJournal | tools/state_delta_replay_audit.cpp:2326-2389 | Every payload of every height is analyzed in order |
| AuditCandidates.ExplainedByReplay | tools/state_delta_replay_audit.cpp:2469-2660 | An explained root is the only root that replaying the decoded entries can give, or the entries repeat keys and it is their serialized root, or record, replayed root and signed root are a listed exception |
| AuditCandidates.CleanAuditOfPayloads | tools/state_delta_replay_audit.cpp:2316-2725 | A clean audit of raw payloads: every selected block decodes from a payload of its height, links to the one above, and its signed root is explained by replaying its entries |
| AuditCandidates.AuditPayloads | tools/state_delta_replay_audit.cpp:2316-2725 | The chunked audit from its start state, run on raw payloads with the same Merkle tree for candidates and for legacy drops: ends, counts and passes exactly as the candidates of the payloads decide, and a clean one has that verdict |
| SourceAudit.CleanAuditInSource | tools/state_delta_replay_audit.cpp:1458-2725 | A clean audit of a journal built from the source selects eligible source records of the right heights |
| SourceAudit.BuildAndAudit | tools/state_delta_replay_audit.cpp:1458-2725 | For every interleaving of the pipeline, bucket size and threshold: the journal holds exactly the source records that have to be journaled at each height; the audit of it ends, counts and passes exactly as its candidates decide; a clean one selects source records, linked, with every signed root explained by replaying them |
| SnapshotRepository.StepKeepsBacked | src/backup/snapshot_repository.cpp:403-491 | One safe change leaves a fully backed snapshot that stays listed with a readable file list fully backed by the same files |
| SnapshotRepository.BackedStaysBacked | src/backup/snapshot_repository.cpp:403-491 | Over whole runs, between single changes: a snapshot once fully backed that stays listed is fully backed, by the same files, if and only if its file list is still readable |
| SnapshotRepository.LosingTheListUnbacks | src/backup/snapshot_repository.cpp:421-440 | For any backed snapshot, removing the file list first is a safe single change after which it is listed and not backed |
| SnapshotRepository.ObjectsStayNamed | src/backup/snapshot_repository.cpp:458-491 | Over whole runs every stored object keeps hashing to its own name |
| SnapshotRepository.PrunedIsFront | src/backup/snapshot_repository.cpp:403-420 | Retention removes exactly the names with at least `retention` greater ones |
| SnapshotRepository.StagedHasAll | src/backup/snapshot_repository.cpp:968-1097 | Staging a fully backed list restores every file of it and nothing else |
| SnapshotRepository.StagingRestores | src/backup/snapshot_repository.cpp:968-1097 | With a collision-free hash, staging an inventory from any repository that backs it returns the hashed files path by path |
| SnapshotRepository.StagedIsChecked | src/backup/snapshot_repository.cpp:968-1097 | From any objects, whatever is staged passed its hash, and only config.yml can be missing |
| SnapshotRepository.StagingIsHonest | src/backup/snapshot_repository.cpp:968-1097 | With a collision-free hash, staging an inventory from any objects, corrupt or not, gives the hashed files or fails |
| SnapshotRepository.StagingSucceedsExactly | src/backup/snapshot_repository.cpp:968-1097 | From any objects, staging succeeds if and only if every path is safe and every entry but config.yml has an object with its hash |
| SnapshotRepository.StagedContents | src/backup/snapshot_repository.cpp:968-1097 | From any objects, a staged path has exactly the content of the last entry for it whose object is there, and is missing when that object is corrupt or there is none |
| SnapshotRepository.FirstEntryIsFirstPath | src/backup/snapshot_repository.cpp:1355-1388 | The entry that stores a digest is the one of its first source path |
| SnapshotRepository.UnchangedCopies | src/backup/snapshot_repository.cpp:1355-1388 | Files that do not change between hashing and copying always copy |
| LocalRepository.LocalRepository.constructor | src/backup/snapshot_repository.cpp:1319-1321 | The history starts with the repository as found |
| LocalRepository.LocalRepository.CopyOrLinkObject | src/backup/snapshot_repository.cpp:458-491 | Keeps a correct object, drops a corrupt one, and stores content only under its own hash |
| LocalRepository.LocalRepository.Prune | src/backup/snapshot_repository.cpp:403-441 | Removes exactly the pruned snapshots as far as the file system lets it, then exactly the objects no listed snapshot mentions, except those whose removal fails |
| LocalRepository.LocalRepository.BuildInventory | src/backup/snapshot_repository.cpp:229-273 | Every source path once, in order, with hash and size |
| LocalRepository.LocalRepository.StoreObjects | src/backup/snapshot_repository.cpp:1355-1388 | Objects only grow, by correct ones; succeeds if and only if every digest was present or its first file copies with that hash |
| LocalRepository.LocalRepository.Publish | src/backup/snapshot_repository.cpp:1407-1418 | The filled partial directory becomes the snapshot by one rename |
| LocalRepository.LocalRepository.Store | src/backup/snapshot_repository.cpp:1323-1430 | Succeeds if and only if the names are new, there is a file and every missing digest copies; the snapshot is the inventory of the files, it survives retention and latest.json is right exactly when not pruned, and it is fully backed exactly when no reused object was corrupt; after retention exactly the objects that a listed snapshot mentions are left, and those whose removal fails; a failed store leaves what the clean-up of its partial directory leaves |
| LocalRepository.LocalRepository.Delete | src/backup/snapshot_repository.cpp:1118-1224 | Every outcome and exactly when it occurs, failing removals of the directory, of an object and of latest.json included; a deletion removes the snapshot and exactly the objects that only it mentioned, and moves latest.json to the newest one left |
| LocalRepository.LocalRepository.CacheMetadata | src/backup/sftp_uploader.cpp:1806-1829 | Adds a listed snapshot without objects, or fails exactly on an incomplete one or a leftover partial |
| LocalRepository.LocalRepository.FetchMissing | src/backup/public_restore.cpp:904-1000 | Adds only objects that pass size and hash; succeeds if and only if every missing one downloads correctly |
| LocalRepository.LocalRepository.Stage | src/backup/snapshot_repository.cpp:873-1097 | Preflight and staging loop equal the staging function, including the skipped config file |
| LocalRepository.StoredIsBackedExactly | src/backup/snapshot_repository.cpp:1366-1371 | A new snapshot is fully backed if and only if no object it reuses was corrupt |
| LocalRepository.StoredAndRetained | src/backup/snapshot_repository.cpp:1407-1430 | Publishing, retention and collection together leave the described snapshot, exactly the objects still mentioned or stuck, and account for every object |
| LocalRepository.FailureKeepsDirs | src/backup/snapshot_repository.cpp:1424-1429 | A failed store touches no directory but its own partial one, and none when its clean-up goes through |
| LocalRepository.CollectionKeepsBacked | src/backup/snapshot_repository.cpp:421-440 | Collection, whatever removals fail, changes nothing for a snapshot it keeps |
| LocalRepository.CollectionSweeps | src/backup/snapshot_repository.cpp:421-440 | When retention removes anything, no object is left that no listed snapshot mentions, unless its removal fails; otherwise every object stays |
| LocalRepository.GarbageIsReclaimed | src/backup/snapshot_repository.cpp:1145-1208 | A deletion drops an object if and only if the deleted snapshot mentioned it and no snapshot still listed does |
| LocalRepository.RunOperations | src/backup/snapshot_repository.cpp:1118-1430 | The recorded history is an execution of the given stores with retention, deletes, cachings and fetches, any two neighbouring states of which differ by one single change; in each of its states a snapshot once fully backed that stayed listed is fully backed exactly while its list is readable, and every object keeps its own hash |
| SftpCommand.Quote | src/backup/sftp_uploader.cpp:195-206 | The loop escapes quotes and backslashes and adds the quotes |
| SftpCommand.Parse | src/backup/sftp_uploader.cpp:562-632 | The cursor loops equal the recursive reading of the command, both errors included |
| SftpCommand.RoundTrip | src/backup/sftp_uploader.cpp:195-206 | Parsing a printed command returns it, for all arguments, if and only if the operation is a non-empty word not taken for the dash |
| SftpCommand.PrintNormalizes | src/backup/sftp_uploader.cpp:562-632 | Printing what any string parsed to parses to the same command |
| SftpCommand.PrintInjective | src/backup/sftp_uploader.cpp:195-206 | Different printable commands print differently |
| SftpCommand.DashedOperation | src/backup/sftp_uploader.cpp:562-577 | No name with a leading dash survives, for any name and arguments; a word after the dash comes back as the flag and the word |
| SftpCommand.EveryWriting | src/backup/sftp_uploader.cpp:562-632 | A command with any number of blanks wherever they may stand, each argument quoted or bare, is read as its flag, operation and argument values |
| SftpCommand.OpenQuoteRefused | src/backup/sftp_uploader.cpp:588-618 | A command whose last quote stays open is refused, whatever comes before |
| RemoteMirror.WriteIsHarmlessExactly | src/backup/sftp_uploader.cpp:1114-1124 | When sizes differ, all states of rewriting an object keep visible snapshots backed if and only if none mentions it |
| RemoteMirror.UploadedHasAll | src/backup/sftp_uploader.cpp:1108-1162 | Once every object has its size, the mirror has every object of the snapshot with correct content |
| RemoteMirror.UploadedIsBackedExactly | src/backup/sftp_uploader.cpp:1114-1124 | From any mirror, the uploaded snapshot is correct if and only if no needed object was there with the right size and wrong content |
| RemoteMirror.TargetsInPlace | src/backup/sftp_uploader.cpp:1108-1162 | Once every object has its size, the new snapshot's objects are right exactly when the mirror has them all |
| RemoteMirror.CorrectObjectsAreSafe | src/backup/sftp_uploader.cpp:1108-1162 | An upload from a repository of correct objects to a mirror of prefixes is safe |
| RemoteMirror.UploadKeepsPrefixes | src/backup/sftp_uploader.cpp:1108-1162 | Uploads of correct objects, wherever they stop, leave a mirror of beginnings of correct objects |
| RemoteMirror.RewriteBreaks | src/backup/sftp_uploader.cpp:1114-1124 | A rewrite that changes the size of an object a visible snapshot needs passes through a state that breaks it |
| RemoteMirror.UnsafeShows | src/backup/sftp_uploader.cpp:2282-2332 | An upload that ends in a good mirror had every object of the new snapshot right |
| RemoteMirror.RemoteMirror.PutObject | src/backup/sftp_uploader.cpp:1108-1162 | Skip, or truncate and write byte by byte: a write that goes through passes through every prefix, and each state is good when no visible snapshot mentions the object |
| RemoteMirror.RemoteMirror.RenameSnapshot | src/backup/sftp_uploader.cpp:1039-1049 | Fails when both names exist; when the reply is lost after the rename, a vanished source with an existing destination counts as done |
| RemoteMirror.RemoteMirror.Publish | src/backup/sftp_uploader.cpp:2316-2324 | Fills the partial directory and renames it; fails when the destination exists, and succeeds when it is new and nothing fails |
| RemoteMirror.RemoteMirror.PublishLatest | src/backup/sftp_uploader.cpp:2326-2329 | Replaces latest.json through the partial file; it is never half written |
| RemoteMirror.RemoteMirror.UploadOnce | src/backup/sftp_uploader.cpp:2282-2332 | One run through the command list, where any operation may fail or take effect and lose its reply: good states only if the upload is safe, which it stays |
| RemoteMirror.RemoteMirror.Upload | src/backup/sftp_uploader.cpp:1242-1293 | Crash safety, exactly: from a mirror with every visible snapshot backed, a safe upload keeps that in every state of every attempt, keeps latest.json absent or naming a visible one, and leaves the next upload safe however it ends; without faults only a safe upload does; uploads of correct objects leave only beginnings of correct objects; with no faults it succeeds if and only if the directory is new; the final objects are those of the size rule; an upload that fails without its snapshot being visible has met a failing operation in each of the allowed attempts |
| RemoteMirror.RemoteMirror.Delete | src/backup/sftp_uploader.cpp:2517-2674 | The outcome is decided by the mirror and the flag unless an operation fails; at every point all visible snapshots stay backed; latest.json dangles on the way exactly when it named the deleted one; a finished deletion removes exactly the snapshot and the objects that only it mentioned |
| RemoteMirror.RemovedKeepsLatest | src/backup/sftp_uploader.cpp:2632-2656 | A finished deletion leaves latest.json absent or naming a visible snapshot |
| RemoteMirror.RunMirror | src/backup/sftp_uploader.cpp:1242-2674 | Under any faults, any sequence of uploads from repositories of correct objects and of deletions, started soundly, keeps every visible snapshot backed in every state between single changes, and without deletions keeps latest.json right too |
| BackupRoundTrip.Fetch | src/backup/sftp_uploader.cpp:2702-2789 | Over any connection, with retries: fetches the requested snapshot or the one latest.json names; succeeds if and only if it is offered, its metadata gets through and can be cached, space suffices, some attempt delivers every missing object, and the first such attempt passes size and hash; ready afterwards |
| BackupRoundTrip.Retry | src/backup/sftp_uploader.cpp:1242-1293 | The retry loop uses the first attempt that works; it gives up only when every allowed attempt, and at least one, has failed |
| BackupRoundTrip.StoreAndUpload | src/backup/sftp_uploader.cpp:2395-2436 | Once it succeeds the mirror announces the inventory of the files, with every object correct when the stores held none corrupt; it succeeds when the store can be made and nothing fails |
| BackupRoundTrip.FetchAndStage | src/backup/snapshot_repository.cpp:968-1097 | Whatever the stores hold and the connection delivers, what is staged is the hashed files, all but config.yml; from a correct mirror all of them are staged |
| BackupRoundTrip.BackUpAndRestore | src/backup/sftp_uploader.cpp:2739-2788 | From any three stores, corrupt or not, over any connection: what the second node stages is what the first hashed, path by path, and only config.yml can be missing; with the conditions for success of each half |
| BackupRoundTrip.RoundTrip | src/backup/sftp_uploader.cpp:2395-2789 | With unchanged files, new names, correct stores and no faults, store, upload, fetch and stage return exactly the files |
| Eligibility.DecodeBigEndian | src/block_production/block_producer.cpp:52-76 | The shifting loop computes the value modulo the type's range, for any length |
| Eligibility.DividedComparison | src/block_production/block_producer.cpp:511-513 | Comparing after dividing by the stake is comparing before it |
| Eligibility.DifficultyMet | src/block_production/block_producer.cpp:500-514 | True exactly when the top 128 bits are below stake times floor((2^128-1)/difficulty) |
| Eligibility.WinnersAreStakeTimesQuota | src/block_production/block_producer.cpp:500-514 | The number of winning proof values is min(values, stake * quota) |
| Eligibility.EligibilityMonotone | src/block_production/block_producer.cpp:500-514 | More stake or an easier difficulty never loses a win |
| Eligibility.EligibilityProportional | src/block_production/block_producer.cpp:500-514 | Until the quota is exhausted, wins are additive in the stake |
| Eligibility.NextTimeQuantum | src/block_production/block_producer.cpp:412-427 | The first multiple of the step after both times |
| BlockProducer.FillBlock | src/block_production/block_producer.cpp:297-355 | The chosen transactions are a subsequence in which each is taken exactly when it fits on top of those before it, and the pass stops exactly where a lower bound is reached, the attempts are used up or the list ends |
| BlockProducer.GreedyUnique | src/block_production/block_producer.cpp:297-355 | A greedy fill has only one possible result |
| BlockProducer.UsedTotals | src/block_production/block_producer.cpp:337-350 | The three resources are summed apart over the chosen transactions, own and system use together |
| BlockProducer.ShareRoundsDown | src/block_production/block_producer.cpp:313-318 | A bound is the percentage of the limit, rounded down |
| BlockProducer.FillWithinBounds | src/block_production/block_producer.cpp:337-350 | A greedy fill is within all three upper bounds |
| BlockProducer.SubsequenceUsesLess | src/block_production/block_producer.cpp:389-391 | Dropping transactions never raises the use |
| BlockProducer.DropFailed | src/block_production/block_producer.cpp:389-391 | Deleting from the back keeps exactly the transactions that did not fail, in order |
| BlockProducer.SetMerkleRoot | src/block_production/block_producer.cpp:357-371 | The root matches the transactions; nothing else of the header changes |
| BlockProducer.LeavesAt | src/block_production/block_producer.cpp:357-371 | Transaction i contributes leaf 2i, of its header, and leaf 2i+1, of its signatures |
| BlockProducer.SubmitBlock | src/block_production/block_producer.cpp:373-410 | Goes on exactly after a rejection with failed indices, with the next round's block |
| BlockProducer.ProposeUntilSettled | src/block_production/block_producer.cpp:199-204 | Ends within transactions + 1 proposals, each with matching root, id and signature and following from the one before; the removed count is right |
| BlockProducer.RoundsPositions | src/block_production/block_producer.cpp:373-410 | Every proposal is a subsequence of the first |
| BlockProducer.NextBlock | src/block_production/block_producer.cpp:279-295 | Extends the head, not earlier than it or now, with its state root, the signer and the configured proposals; its transactions are the greedy fill of the pending list |
| BlockProducer.ProduceFederated | src/block_production/block_producer.cpp:189-210 | The first proposal is the greedy fill of the pending list; every proposal is sealed, drawn from the list within all three bounds, and extends the head with all its header fields; produced exactly when the last one got a receipt |
| BlockProducer.TakeTurn | src/block_production/block_producer.cpp:231-277 | Proposes exactly when the quantum is due and its proof wins, each proposal following from the one before; otherwise the turn is put off to exactly the next quantum |
| BlockProducer.NextBundle | src/block_production/block_producer.cpp:478-498 | A bundle is a greedily filled block on the head it was asked for, with its seed, difficulty and stake and exactly the next quantum after both times; none exactly when the chain cannot answer |
| BlockProducer.RoundsStayBuilt | src/block_production/block_producer.cpp:231-277 | Every proposal of a turn is drawn within the bounds of the bundle's block and extends the same head |
| BlockProducer.PobProducer.Refresh | src/block_production/block_producer.cpp:212-230 | The bundle is kept exactly while its head is the chain's head; a new one is a filled block on that head |
| BlockProducer.PobProducer.Attempt | src/block_production/block_producer.cpp:231-277 | A turn with the kept bundle: proposes exactly when due and winning, first the filled block itself, always within the bundle's bounds and head; the next quantum is exact |
| BlockProducer.PobProducer.ProduceOnce | src/block_production/block_producer.cpp:212-277 | Keeps the bundle while the head has not moved and rebuilds it otherwise, throwing exactly when it cannot; proposes exactly when the quantum is due and its proof wins; the first proposal is a greedy fill, and every proposal carries the quantum's time and proof, is drawn within all three bounds and extends the current head |
| RecoveryHold.NodeFiles.Restore | src/backup/snapshot_repository.cpp:1226-1317 | The database is in place and the marker exists, unsynced, unless the restore stopped before it |
| RecoveryHold.NodeFiles.ConsumeMarker | src/core/restore_startup.cpp:53-73 | Wherever it stops, the marker is there or the hold is durable |
| RecoveryHold.NodeFiles.Start | src/core/restore_startup.cpp:40-88 | The production decision and the files left, wherever it stops |
| RecoveryHold.NodeFiles.LosePower | src/core/restore_startup.cpp:68-71 | Each unsynced change is kept or lost |
| RecoveryHold.NodeFiles.WriteBack | src/backup/snapshot_repository.cpp:1226-1317 | Either file may become durable on its own |
| RecoveryHold.FinishedStart | src/core/restore_startup.cpp:40-88 | A start that is not stopped produces exactly when configured, without a marker, and without a hold or with the flag; it leaves a hold exactly after a marker or an unreleased hold |
| RecoveryHold.FinishedStartIsDurable | src/core/restore_startup.cpp:53-79 | After a start that is not stopped and that consumed a marker or released a hold, a power loss changes nothing: the marker is gone, and the hold is set exactly after a marker |
| RecoveryHold.HoldIsRespected | src/core/restore_startup.cpp:40-88 | In any sequence of restores, stopped starts, write-backs and power losses that exposes no restore, no start enables production after a restore until a start found the marker and ran with production off, and a later one with the explicit flag found no marker |
| RecoveryHold.ExposureBreaks | src/core/restore_startup.cpp:40-88 | After a restore that stopped before its marker, a power loss that took it, or a start killed right after removing it, the next explicit start produces |
| RecoveryHold.KilledStartBreaks | src/core/restore_startup.cpp:53-73 | A start killed after removing the marker decided nothing, and the next explicit start produces |
| RecoveryHold.HoldIsExact | src/core/restore_startup.cpp:40-88 | Every start at every point of a run respects the hold if and only if no restore of the run is exposed |
| RecoveryHold.Run | src/core/restore_startup.cpp:40-88 | The log of any sequence of restores, stopped starts, write-backs and power losses is the one its actions determine, and it respects the hold when no restore is exposed |
| HistoryKeys.RecordOrder | src/account_history/account_history.cpp:34-36 | Record keys of an address are ordered by sequence number |
| HistoryKeys.OutsideCompares | src/account_history/account_history.cpp:46-50 | A key that does not start with an address compares alike with all keys under it |
| HistoryKeys.MetaOutside | src/account_history/account_history.cpp:155-158 | Counter keys never start with an address of the chain's form |
| HistoryKeys.OneLengthIsApart | src/account_history/account_history.cpp:34-36 | The keys of two addresses of one length, neither mistaken for "meta:", never mix |
| HistoryKeys.SeekForward | src/account_history/account_history.cpp:41-58 | Each step of the iterator is the next record of the address |
| HistoryKeys.SeekBackward | src/account_history/account_history.cpp:60-78 | Each backward step is the previous record |
| HistoryKeys.SeekForPrevStart | src/account_history/account_history.cpp:63 | SeekForPrev stands on the record, or on the last one before it |
| AccountHistory.CollectAddresses | src/account_history/account_history.cpp:95-122 | Exactly the non-empty signer, payers, payees and contracts |
| AccountHistory.LogIsNumbered | src/account_history/account_history.cpp:129-137 | Sequence numbers run 0..n-1 in block order |
| AccountHistory.LogIsComplete | src/account_history/account_history.cpp:87-149 | The log of an address names exactly the blocks that concern it, each once, in block order, with number, height and id |
| AccountHistory.LimitMeans | src/account_history/account_history.cpp:28-31 | No limit means 500, up to 500 is granted, more is cut to 500, and a limit beyond 32 bits is first reduced modulo 2^32 |
| AccountHistory.AnswerAt | src/account_history/account_history.cpp:33-78 | Record i of an answer is the one i places above the start, or below the start or the last record, and an answer ends only at its limit or at the end of the log |
| AccountHistory.AnswerEmpty | src/account_history/account_history.cpp:33-78 | An answer is empty exactly when nothing is asked for, the log is empty, or an ascending query starts past its end |
| AccountHistory.HoldsAllIsExact | src/account_history/account_history.cpp:155-192 | Any database that holds the log of every indexed address shows the addresses to be separate, when no record of those logs reads as a counter |
| AccountHistory.TaggedTellsApart | src/account_history/account_history.cpp:171-192 | A serialization that begins with a non-zero tag byte, as protobuf does, never reads as a counter of fewer than 2^56 blocks |
| AccountHistory.PrefixedAddressMixes | src/account_history/account_history.cpp:34-50 | When one indexed address continues another, no database holds both logs, whatever the serialization |
| AccountHistory.OneLengthIsSeparate | src/account_history/account_history.cpp:34-50 | Addresses of one length, none mistaken for "meta:", are all separate |
| AccountHistory.EncodeSeq | src/account_history/account_history.cpp:194-203 | The byte-filling loop writes the big-endian number |
| AccountHistory.DecodeSeq | src/account_history/account_history.cpp:205-213 | The loop reads it, or gives zero for a short string |
| AccountHistory.AccountHistory.constructor | src/account_history/account_history.cpp:10-13 | An empty index agrees with empty logs |
| AccountHistory.AccountHistory.NextSequence | src/account_history/account_history.cpp:155-169 | Returns the stored counter, or zero, and stores its successor |
| AccountHistory.AccountHistory.AddRecord | src/account_history/account_history.cpp:155-192 | Writes the next counter and the numbered record, on any database |
| AccountHistory.AccountHistory.HandleBlock | src/account_history/account_history.cpp:87-149 | After any accepted block the database holds exactly the plain log of every address separate from the indexed ones |
| AccountHistory.AccountHistory.ScanForward | src/account_history/account_history.cpp:41-58 | A forward scan of a separate address is the limited slice of its log from the start number |
| AccountHistory.AccountHistory.ScanBackward | src/account_history/account_history.cpp:60-78 | A reverse scan of a separate address is the limited slice downwards from the start number or the last record |
| AccountHistory.AccountHistory.GetAccountHistory | src/account_history/account_history.cpp:19-81 | Every query of a separate address is the matching slice of its plain log, of at most 500 records without a limit or with a larger one, and of at most the limit otherwise |
| AccountHistory.IndexBlocks | src/account_history/account_history.cpp:87-149 | After any sequence of accepted blocks the logs of all indexed addresses are held if the addresses are separate, and only if they are when no record of those logs reads as a counter |
| AccountHistory.IndexAndQuery | src/account_history/account_history.cpp:19-149 | After any sequence of accepted blocks, any query of a separate address is the matching slice of the plain log, forward, reverse and limited |

## Left out

- RocksDB, libssh, HTTP, OpenSSL, protobuf and JSON parsing are foreign calls: maps, byte strings and parameters stand for them.
- Wrap-around near 2^64 of heights, byte sums, sequence numbers and limit percentages is not modelled; numbers are unbounded or bounded by a precondition.
- Condition-variable wake-ups of the bounded queues are taken as the guards they wait for; lost wake-ups are not modelled.
- BucketJournal.ReplayJournal.FlushBucket: models a working disk; a failed write is a `Throw` of the writer in JournalPipeline instead.
- The workers that decode and hash a chunk in parallel are modelled as one sequential pass, since they share no state.
- AuditWalk.RunReplay: the final-block fields, which repeat the first selected block, the log lines and the sample heights of the statistics are not part of the result.
- The height-index replay path of the auditor, which keeps the first record per height, is not part of this model.
- manifest.json, the public bootstrap publication and the digest-length check of object paths are not modelled; a snapshot's directory name stands for its id.
- RemoteMirror.RemoteMirror.Upload: the local repository does not change during an upload, and no other client writes to the mirror meanwhile.
- RemoteMirror.RemoteMirror.Upload: when faults stop after the snapshot rename, success is not claimed, because a retry cannot succeed then.
- BackupRoundTrip.Fetch: object transfers may deliver anything, but metadata files arrive as they are or not at all; the restore-space estimate is the parameter `spaceOk`.
- LocalRepository.LocalRepository.Store: copies and removals may fail; writing the metadata files and renaming them does not.
- RecoveryHold.NodeFiles.Restore: begins when the restored database is in place; the preserving and moving of directories before that is not modelled.
- AccountHistory.IndexBlocks: where a record could read as a counter, whether counter keys and addresses may mix unnoticed is left open; the serialization in use has no such record.
- BlockProducer.ProposeUntilSettled: failed indices are in range and strictly ascending, as the chain reports them.
- Backup service threads, the admin server, RPC gateways, configuration, command line, result printers, metrics, peer scoring, the schedule parser and access policies are not part of this model.
