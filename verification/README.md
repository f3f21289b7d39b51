# mkmq: a verified model of the broker core

mkmq is a Kafka-compatible broker. Each partition is a log of record sets, kept as
aligned frames in rolling segment files with an index beside them, replicated to
followers over an RPC layer. This project models that core in Dafny and proves what
the rest of the broker relies on.

- **Partition log** (`LogFormat`, `LogLayout`, `PartitionLog`, `LogRuns`). A log is a
  memory state and a disk, the disk a map from segment base to bytes. The class
  `PartitionLogShard` appends, serves fetches and recovers. Every run of appends keeps the
  state equal to the image of a layout, a sequence of segments each a run of frames, and
  everything else is proved on layouts.
- **Recovery** (`Recovery`, `RecoveryProofs`). Scanning the segments rebuilds what the
  appends left; a torn tail loses exactly the frames that are not whole; trusting the index
  file ends in the same state as the scan.
- **Life after a crash** (`StaleTail`, `CrashRuns`). A restart leaves the bytes of a torn tail in the
  file and later appends write over them; appends, reads and further restarts are proved for such logs.
- **Fetch** (`Fetch`, `FetchProofs`). One merged device read per run of entries returns what
  reading one entry at a time returns, and that is the stretch of history asked for.
- **Record batches** (`Bytes`, `Crc32c`, `Crc32cVectors`, `RecordBatch`, `RecordBatchProofs`, `BatchChain`). Stamping offsets
  in place and counting records are two walks with different guards; when they agree is
  stated exactly. Batches are those of the Record Batch section of the Apache Kafka protocol
  documentation; the checksum is that of section 12.1 of RFC 3720.
- **Replication** (`Replication`, `ReplicationProofs`, `ReplicationLimits`, `Broker`). A state
  machine over leader, followers and a set of messages that may be lost, delayed, duplicated
  and reordered.
- **Group commit** (`GroupCommit`). A step machine for shared fsyncs and segment swaps.
- **RPC client** (`HandlePools`, `RpcLedger`, `RpcPeers`, `MercuryClient`). Coalesced address
  lookups, handle pools, timeouts racing callbacks, and shutdown, with every foreign call a
  nondeterministic result. A ledger of all handles, promises and bulk regions must balance
  after every event.
- **Wire format** (`Wire`, `ReplicationCodec`) and **configuration** (`Config`, `Reload`,
  `PartitionTable`).

## Main results

| result | theorem |
|---|---|
| Every follower is a prefix of the leader, at an entry boundary, in every run | `ReplicationProofs.PrefixSafety` |
| An acknowledged produce, and all before it, is on every follower whose acceptance no crash followed | `ReplicationProofs.AcksAllSafety`, `ReplicationProofs.EveryAckHolds` |
| A dispatched produce is safe if and only if the leader admits it | `ReplicationLimits.DispatchSafeIff` |
| A high-watermark fetch shows only what every follower holds, if a produce completes only as the last entry; over all runs that guard is exact | `ReplicationLimits.HighWatermarkVisibility`, `ReplicationLimits.CompletionGuardIff` |
| A lagging follower catches up, by rounds and by runs of the protocol | `ReplicationLimits.CatchUpConverges`, `ReplicationLimits.CatchUpRun` |
| Recovery rebuilds the history if and only if it has no empty record set | `RecoveryProofs.RecoveryEqualsHistory` |
| Recovery by index equals recovery by scan, for any index prefix and any truncation | `RecoveryProofs.FastEqualsScan` |
| A torn tail loses exactly the frames that are not whole | `RecoveryProofs.TornTail` |
| Over appends, crashes and restarts a log stands on its whole record sets; a restart finds them if and only if nothing parses behind them | `CrashRuns.LifeStands`, `CrashRuns.RestartIff` |
| Merged reads equal per-entry reads, failures included, and both return the history | `Fetch.ReadRecordsFromIndex`, `FetchProofs.FetchReturnsHistory` |
| The log invariant holds after every run of requests | `LogRuns.RunsKeepInvariant` |
| The stamping and the counting walk agree if and only if no short batch is left | `RecordBatchProofs.WalksAgreeIff` |
| A completed append was flushed, given guarded swaps; a swap is harmless if and only if every exposed append is durable already | `GroupCommit.GroupCommitSafety`, `GroupCommit.SwapSafeIff` |
| Each promise is resolved once and with what its event brought, each handle has one owner, over every interleaving | `MercuryClient.Client.Run` |
| The word-wise checksum is the polynomial remainder, and CRC32C | `Crc32c.Compute`, `Crc32cVectors.CheckValue` |
| Counts and stamped offsets are those of the batches' own deltas | `BatchChain.ChainCount`, `BatchChain.ChainRewrite` |
| Decoders accept exactly the encodings | `ReplicationCodec.AppendExact` and its siblings |
| Reload chains only grow; table lookup is a map over this shard's partitions | `Reload.ReloadChain`, `PartitionTable.BrokerShard.ApplyAll` |

## Hypotheses

They are explicit in the statements, as `requires` clauses or as guards on steps. The code
depends on them and does not enforce them everywhere.

- Record sets are nonempty where recovery is claimed; `RecoveryEqualsHistory` shows that this is
  exactly what is needed.
- Record sets are shorter than 2^31 bytes and offsets stay below 2^63 (`Storable`).
- The DMA writes of one partition complete in offset order, and a rollover does not overlap
  another append: an append is one step of `PartitionLogShard`.
- The write alignment is constant and at least 20 bytes (`LogFormat.Alignment`).
- Batches are well formed for the stamping results: each at least 61 bytes, together tiling the
  buffer (`RecordBatchProofs.WellFormed`, which implies `CrcInBounds`). What happens otherwise is
  exact in `WalksAgreeIff`, `CountConcatIff` and `ReadsInsideIff`.
- A restart finds nothing that parses behind the frames it knows, for the runs of `CrashRuns`; the
  condition is exact, and the code does not check it.
- In replication the leader is fixed, is in the ISR and does not crash, record sets are well
  formed, and the leader admits what it dispatches (`Replication.GoodStep`).
- A segment swap starts only with no write and no scheduled flush on the old segment
  (`GroupCommit.Guarded`).
- The address a lookup resolves is read once, before its waiters are started.
- A configuration comes from the parser, so a partition carries its topic's name
  (`Config.Parsed`).

Where code and documentation differ, the code is followed: README.md:192-194 and DESIGN.md:17-19
say that a restart scans the segments, while `recover` first trusts an index file that covers them
(src/partition_log_shard.cpp:275-300).

## Model

| member | source | states |
|---|---|---|
| `Bytes.PutGetLe` | src/broker_shard_detail.hpp:34-50 | a little-endian field reads back its signed value |
| `Bytes.LeExact` | src/broker_shard_detail.hpp:34-50 | a little-endian field reads as v exactly if it is the field of v |
| `Bytes.LeOrder` | src/broker_shard_detail.hpp:34-50 | little-endian fields have the least significant byte first |
| `Bytes.PutGetBe` | src/kafka_protocol.cpp:27-48 | a big-endian field reads back its signed value |
| `Bytes.GetPutBe` | src/protocol/wire.cpp:46-74 | every big-endian field is the encoding of the signed value read from it |
| `Bytes.BeOrder` | src/kafka_protocol.cpp:27-41 | big-endian fields have it last |
| `Bytes.RoundUp` | src/broker_shard_detail.hpp:31-33 | at least the value, less than one alignment above it |
| `Bytes.RoundUpFormula` | src/broker_shard_detail.hpp:31-33 | the quotient formula is the least multiple reached by repeated addition |
| `Crc32c.AbsorbIsFeed` | src/crc32c.cpp:7-30 | dividing the whole message polynomial gives what the bit-serial shift register gives |
| `Crc32c.AbsorbConcat` | src/crc32c.cpp:11-28 | the checksum may be taken piece by piece |
| `Crc32c.ThreeForms` | src/crc32c.cpp:7-30 | polynomial, bit-at-a-time and byte-at-a-time checksums are equal on every input |
| `Crc32c.WordBits` | src/crc32c.cpp:11-28 | a little-endian word holds the bits of its bytes in message order |
| `Crc32c.AbsorbWord` | src/crc32c.cpp:11-28 | one checksum instruction over a word extends the remainder by the word's bytes |
| `Crc32c.Compute` | src/crc32c.cpp:7-30 | the loop over 8, 4 and 1 bytes equals the polynomial definition |
| `Crc32cVectors.GeneratorIs` | src/crc32c.cpp:12-25 | the generator is x^32 and the bits of 0x1EDC6F41 below it |
| `Crc32cVectors.SoftwareForm` | src/crc32c.cpp:7-30 | on every input the checksum is the complement of the right-shifting loop with 0x82F63B78 started at all ones |
| `Crc32cVectors.CheckValue` | src/crc32c.cpp:7-30 | the checksum of "123456789" is 0xE3069283 |
| `RecordBatch.EstimateRecordCount` | src/partition_log_shard.cpp:910-936 | the counting walk, at least one for a nonempty set, as a function of the bytes |
| `RecordBatch.WriteField` | src/kafka_protocol.cpp:27-48 | an in-place write changes exactly its field |
| `RecordBatch.StampInPlace` | src/kafka_protocol.cpp:397-413 | one batch is stamped in place, bytes before and after kept, and its record count returned |
| `RecordBatch.RewriteRecordBatchOffsets` | src/kafka_protocol.cpp:389-415 | on any bytes: true exactly when no visited batch is below 21 bytes, and then the in-place loop gave the chain of stamped batches; false where the source reads outside the buffer |
| `RecordBatchProofs.CountedIsStampedPlusLeftover` | src/partition_log_shard.cpp:910-936 | the counting walk is the stamping walk continued on what that leaves |
| `RecordBatchProofs.WalksAgreeIff` | src/partition_log_shard.cpp:910-936 | offsets stamped equal offsets reserved if and only if the set is empty, or its first batch is stamped and no short batch is left over |
| `RecordBatchProofs.ShortBatchDisagrees` | src/kafka_protocol.cpp:398-404 | a 40-byte batch is counted and not stamped |
| `RecordBatchProofs.WellFormedWalk` | src/kafka_protocol.cpp:389-415 | on well-formed chains both walks give the same count |
| `RecordBatchProofs.RewriteKeepsCount` | src/kafka_protocol.cpp:389-415 | stamping keeps the chain well formed and its count unchanged |
| `RecordBatchProofs.RewriteStamps` | src/kafka_protocol.cpp:389-415 | batch bases are consecutive from the base and end at base plus count, and each stored checksum is right |
| `RecordBatchProofs.RewriteChangesOnlyFields` | src/kafka_protocol.cpp:389-415 | no byte outside base-offset and checksum fields changes |
| `RecordBatchProofs.RewriteTwice` | src/kafka_protocol.cpp:389-415 | stamping at b and then at c is stamping at c |
| `RecordBatchProofs.ReadsInsideIff` | src/kafka_protocol.cpp:407-409 | the checksum reads, with their 64-bit wrapped length, stay inside the buffer if and only if no visited batch is below 21 bytes |
| `RecordBatchProofs.ShortBatchReadsOutside` | src/kafka_protocol.cpp:398-408 | a 57-byte buffer whose first length field is 1 is stamped and its checksum read leaves the buffer |
| `RecordBatchProofs.CountConcat` | src/partition_log_shard.cpp:910-936 | counts add over concatenated well-formed sets |
| `RecordBatchProofs.CountConcatIff` | src/partition_log_shard.cpp:910-936 | for any bytes, counts add if and only if the walk from what the first part leaves uncounted finds the count of the second, and one more where the first held no batch |
| `RecordBatchProofs.TiledConcatIff` | src/partition_log_shard.cpp:910-936 | behind batches that tile their buffer counts add exactly for sets that begin with a batch |
| `RecordBatchProofs.ShortSetsDoNotAdd` | src/partition_log_shard.cpp:910-936 | two ten-byte sets count one each and one together |
| `BatchChain.ChainCount` | src/partition_log_shard.cpp:910-936 | the count of a chain laid out from a description is the sum of its deltas plus one each, at least one a batch |
| `BatchChain.OneBatch` | src/kafka_protocol.cpp:398-404 | a single batch is stamped exactly from 57 bytes on and counted always |
| `BatchChain.ChainRewrite` | src/kafka_protocol.cpp:389-415 | stamping the bytes of a chain gives the bytes of the chain with base and checksum fields as described |
| `BatchChain.RestampAt` | src/kafka_protocol.cpp:407-411 | batch i is stamped with the offset at which it starts |
| `BatchChain.NextBase` | src/kafka_protocol.cpp:410-411 | a batch starts one past base plus delta of the one before it |
| `BatchChain.Described` | src/kafka_protocol.cpp:389-415 | every well-formed record set is the bytes of a description |
| `LogFormat.ParseWhole` | src/partition_log_shard.cpp:447-497 | a whole frame on disk is recovered, with its base and bytes, exactly when it is not empty |
| `LogFormat.ParseTorn` | src/partition_log_shard.cpp:447-497 | a frame cut anywhere by the end of the file is not recovered |
| `LogFormat.ParseExact` | src/partition_log_shard.cpp:447-497 | on any file the scan takes in a frame exactly if the bytes hold its header, its records and room for the whole of it |
| `LogFormat.ParseStopsIff` | src/partition_log_shard.cpp:447-497 | on any file the scan stops exactly where the bytes hold no frame |
| `LogFormat.FrameFields` | src/partition_log_shard.cpp:576-588 | where magic text, base, length, records and padding are in a frame |
| `LogFormat.HeaderRoundTrip` | src/partition_log_shard.cpp:576-596 | a frame header is recognised by the reader's check of magic, base and length |
| `LogFormat.HeaderExact` | src/partition_log_shard.cpp:796-804 | a block passes the reader's check exactly if it begins with the header written for that frame |
| `LogFormat.EntryRoundTrip` | src/partition_log_shard.cpp:847-873 | an index entry decodes to itself, or is refused when empty or reversed |
| `LogFormat.EntryExact` | src/partition_log_shard.cpp:847-863 | any block decodes to an index entry exactly if it begins with that entry's magic and fields, in order and not empty |
| `LogFormat.EntryFields` | src/partition_log_shard.cpp:865-873 | where magic text and fields are in an index entry |
| `LogFormat.IndexRoundTrip` | src/partition_log_shard.cpp:302-345 | an index file written entry by entry reads back as those entries, from any slot |
| `LogLayout.AppendRefines` | src/partition_log_shard.cpp:576-619 | one append on positions and bytes is one extension of the layout |
| `LogLayout.RunIsLayout` | src/partition_log_shard.cpp:534-619 | every run of nonempty appends is the image of a valid layout with the same log end |
| `LogLayout.RunIsPacked` | src/partition_log_shard.cpp:534-574 | a segment is sealed only when the first frame of the next did not fit |
| `Recovery.WholeFramesMaximal` | src/partition_log_shard.cpp:447-497 | the frames counted as whole are the most that fit in the kept bytes |
| `Recovery.ScanTorn` | src/partition_log_shard.cpp:438-506 | for every cut of a segment file the scan finds the entries of exactly its whole frames |
| `RecoveryProofs.ListingOf` | src/partition_log_shard.cpp:403-436 | the sorted listing of a layout's files is its segment bases in order |
| `RecoveryProofs.ScanLayout` | src/partition_log_shard.cpp:373-401 | scanning a layout's files rebuilds its whole memory state |
| `RecoveryProofs.RecoveryEqualsHistory` | src/partition_log_shard.cpp:373-401 | the scan rebuilds entries, segment table, log end, active segment, write and index position if and only if no appended set was empty |
| `RecoveryProofs.TornTail` | src/partition_log_shard.cpp:438-506 | for every length of the last segment the scan gives the state of the whole frames kept |
| `RecoveryProofs.CutLayout` | src/partition_log_shard.cpp:302-345 | every nonempty prefix of the index entries is the index of a layout cut from the real one |
| `RecoveryProofs.AcceptedFiles` | src/partition_log_shard.cpp:347-371 | when the coverage check accepts, the files on disk are exactly those the index describes |
| `RecoveryProofs.FastEqualsScan` | src/partition_log_shard.cpp:275-371 | for any index prefix and any truncation or loss of files, even of files with other bytes behind their frames, recovery ends in the state of the full scan |
| `Fetch.FindIndexForOffset` | src/partition_log_shard.cpp:677-688 | bisection returns the first entry whose last offset is not below the offset |
| `Fetch.ReadExact` | src/partition_log_shard.cpp:794-806 | a read of an entry returns records exactly if the file holds the frame with those bytes where the entry says |
| `Fetch.GrowRun` | src/partition_log_shard.cpp:755-785 | a run stays in one segment, visible and within the limit, and its total covers its frames |
| `Fetch.ReadRun` | src/partition_log_shard.cpp:794-813 | cutting a run's frames from the buffer stays inside it and equals reading them one by one, or a bad header makes both fail |
| `Fetch.RunFails` | src/partition_log_shard.cpp:790-806 | a run with one frame that is short or corrupt makes the per-entry reader fail too |
| `Fetch.ReadRecordsFromIndex` | src/partition_log_shard.cpp:743-816 | whatever the files hold, the merged reader fails exactly when the per-entry reader does and else returns the same bytes |
| `Fetch.ReadableSucceeds` | src/partition_log_shard.cpp:743-816 | on a readable index the per-entry reader, and so the merged one, never fails |
| `FetchProofs.LayoutReadable` | src/partition_log_shard.cpp:743-816 | every layout's index is readable |
| `FetchProofs.ReadsFrames` | src/partition_log_shard.cpp:743-816 | the per-entry reader over the disk is the same reader over the frames |
| `FetchProofs.FetchReturnsHistory` | src/partition_log_shard.cpp:743-816 | after any run of nonempty appends a read returns the record sets of the history that the query admits |
| `PartitionLog.PartitionLogShard.constructor` | src/partition_log_shard.cpp:42-60 | start on any directory: the restarted log, with its active segment file created if missing |
| `PartitionLog.EmptyStart` | src/partition_log_shard.cpp:42-60 | start on an empty directory gives the fresh log |
| `PartitionLog.PartitionLogShard.NoteIndexEntry` | src/partition_log_shard.cpp:818-834 | the entry is added and the segment table extended or its last row raised |
| `PartitionLog.PartitionLogShard.EnsureSegmentForWrite` | src/partition_log_shard.cpp:534-574 | a new segment at the base offset exactly when the frame does not fit a nonempty one |
| `PartitionLog.PartitionLogShard.WriteRecordSet` | src/partition_log_shard.cpp:576-653 | memory and disk become those of the written frame and index entry |
| `PartitionLog.PartitionLogShard.Append` | src/partition_log_shard.cpp:116-164 | NoError if and only if the size fits, the queue has room and acks is -1, 0 or 1; each error exactly under its first failing test; the log is appended to or untouched; the high watermark follows only without followers |
| `PartitionLog.PartitionLogShard.AppendReplica` | src/partition_log_shard.cpp:166-205 | NoError if and only if the size fits, the base is the own log end and the queue has room; each error exactly under its first failing test; high watermark and lag follow the leader's |
| `PartitionLog.PartitionLogShard.MarkReplicatedThrough` | src/partition_log_shard.cpp:254-259 | the high watermark becomes the larger of itself and the offset, capped at the log end; the lag is what is left and the partition is no longer degraded |
| `PartitionLog.PartitionLogShard.Fetch` | src/partition_log_shard.cpp:207-226 | out of range outside [0, log end]; else exactly the per-entry read up to the visible end, or an exception exactly when that fails |
| `PartitionLog.PartitionLogShard.FetchForReplica` | src/partition_log_shard.cpp:228-242 | out of range outside [0, log end]; else exactly the per-entry read up to the log end, or an exception exactly when that fails |
| `PartitionLog.PartitionLogShard.Recover` | src/partition_log_shard.cpp:275-300 | memory of the index, which then stays, exactly when it covers the segments; else memory of the scan and an index written anew from it; segment files untouched |
| `PartitionLog.PartitionLogShard.RecoverFromIndex` | src/partition_log_shard.cpp:302-345 | the memory is that of the readable leading entries |
| `PartitionLog.PartitionLogShard.RecoveredIndexCoversSegments` | src/partition_log_shard.cpp:347-371 | true exactly when segment table and files match in order and size |
| `PartitionLog.PartitionLogShard.RecoverFromSegments` | src/partition_log_shard.cpp:373-401 | the memory is that of the scan, the index the image of its entries |
| `PartitionLog.PartitionLogShard.RecoverSegmentFile` | src/partition_log_shard.cpp:438-506 | the entries of one file are added in order, up to the first frame that is not whole |
| `PartitionLog.PartitionLogShard.ListSegmentFiles` | src/partition_log_shard.cpp:403-436 | all segment bases, increasing |
| `LogRuns.ServedIsRun` | src/partition_log_shard.cpp:116-205 | refused requests leave no trace: a run of requests is the run of its accepted sets |
| `LogRuns.RunsKeepInvariant` | src/partition_log_shard.cpp:116-205 | entries cover [0, log end) without gap or overlap, frames tile each segment to the end of its file, bases increase and name the first entry, each segment fits or holds one frame; table, log end, active segment and positions are those the entries give |
| `LogRuns.RunIndexReadable` | src/partition_log_shard.cpp:621-664 | the index file a run leaves decodes to the run's entries |
| `LogRuns.CleanRestart` | src/partition_log_shard.cpp:275-300 | restart after any run rebuilds the memory the run ended with |
| `LogRuns.CrashRestart` | src/partition_log_shard.cpp:275-371 | restart after any crash of a run is the scan of what is left |
| `LogRuns.TornReadable` | src/partition_log_shard.cpp:743-816 | after a torn tail the recovered index is readable over the torn files |
| `StaleTail.AppendStands` | src/partition_log_shard.cpp:576-619 | an append to a log with stale bytes behind its frames, in the active or in a reused file, gives the memory and the leading frames of one more record set |
| `StaleTail.ReadStands` | src/partition_log_shard.cpp:743-816 | such a log is readable and a read returns the record sets of its history |
| `StaleTail.ScanKeys` | src/partition_log_shard.cpp:373-401 | scanning such files finds exactly the layout's entries if and only if no file shows a frame behind them, a file of no segment at its start |
| `StaleTail.CutScanIff` | src/partition_log_shard.cpp:438-506 | for every cut of the active file the scan rebuilds exactly the whole frames if and only if nothing parses behind the layout |
| `StaleTail.TornIsPrefix` | src/partition_log_shard.cpp:438-506 | what a crash leaves of a run is the layout of a prefix of its history, of all of it if no frame was cut |
| `CrashRuns.RestartIff` | src/partition_log_shard.cpp:275-371 | any restart, after any cut and with any readable index prefix, rebuilds the whole record sets if and only if no file parses behind the write position its segment table row has, and then stands on them |
| `CrashRuns.LifeStands` | src/partition_log_shard.cpp:116-205 | over any run of appends, crashes and restarts that meet that condition the log stands on a history made of appended sets and kept prefixes |
| `CrashRuns.StaleFrameReturns` | src/partition_log_shard.cpp:347-371 | one append, a crash inside its frame and a smaller append give a log of which a clean restart finds one record set too many |
| `ReplicationProofs.ConcatCounts` | src/partition_log_shard.cpp:910-936 | a fetched stretch of leader sets counts as many offsets as the sets do |
| `ReplicationProofs.CoversMeaning` | src/broker_shard.cpp:773-801 | a follower built from whole stretches holds the leader's first sets byte for byte and ends at that boundary |
| `ReplicationProofs.ServeAtBoundary` | src/partition_log_shard.cpp:228-242 | a replica fetch at a boundary returns whole following entries, at least one if there is one |
| `ReplicationProofs.StepSafe` | src/broker_shard.cpp:332-411 | every step keeps the replication invariant |
| `ReplicationProofs.RunSafe` | src/broker_shard.cpp:332-411 | every run keeps the replication invariant |
| `ReplicationProofs.PrefixSafety` | src/broker_shard.cpp:332-362 | in every run each follower holds exactly the leader's first n sets, for some n |
| `ReplicationProofs.EveryAckHolds` | src/partition_log_shard.cpp:177-195 | in every run every follower that has not crashed since it acknowledged a produce holds its record set and all before it |
| `ReplicationProofs.AcksAllSafety` | src/broker_shard.cpp:364-391 | for every produce acknowledged to its client now or earlier, every follower accepted it, and holds it and all before it if one of its acknowledgements is of its present incarnation |
| `ReplicationLimits.DispatchSafeIff` | src/broker_shard.cpp:359-362 | the message of a produce keeps a caught-up follower a prefix if and only if the leader's queue has room and acks is -1, 0 or 1 |
| `ReplicationLimits.FetchExact` | src/partition_log_shard.cpp:743-816 | a fetch begins with the first entry past the offset, takes whole visible entries, the first whatever its size and more within the limit, and stops only where it must |
| `ReplicationLimits.HighWatermarkVisibility` | src/broker_shard.cpp:364-411 | if a produce completes only while it is the last entry and followers lose nothing, then in every run, overlapping or not, what a high-watermark fetch returns is on every follower |
| `ReplicationLimits.QuietVisibility` | src/broker_shard.cpp:364-411 | the code as it is gives the same as long as produces never overlap |
| `ReplicationLimits.CompletionGuardIff` | src/broker_shard.cpp:376-402 | completing entry op of history h keeps the watermark within every follower in all runs if and only if op is the last entry, which the leader can check and the code does not |
| `ReplicationLimits.EarlyCompletionOvershoots` | src/broker_shard.cpp:376-402 | for every admissible history and every entry but the last a run reaches it, ready to complete and overshooting |
| `ReplicationLimits.RoundProgress` | src/broker_shard.cpp:773-811 | a catch-up round of a lagging follower gains at least one entry and never passes the leader |
| `ReplicationLimits.CatchUpConverges` | src/broker_shard.cpp:773-811 | at most as many rounds as entries missing make the logs equal |
| `ReplicationLimits.RoundIsSteps` | src/broker_shard.cpp:773-801 | asked, served and delivered in turn, a follower behind its leader has the log of one catch-up round |
| `ReplicationLimits.CatchUpRun` | src/broker_shard.cpp:773-811 | from every safe state a run of fetch rounds of the protocol ends with the follower holding the leader's log |
| `Broker.Produce` | src/broker_shard.cpp:332-362 | the message of the protocol's Produce step, planned before any I/O, is what the append assigns if it is admitted; stored batches carry their own offsets; on any bytes, and on logs that went through crashes |
| `Broker.FinishReplication` | src/broker_shard.cpp:376-391 | success is the protocol's Complete step, failure its Fail step: watermark, open and acknowledged produces; the log stays |
| `Broker.ReceiveReplicaAppend` | src/partition_log_shard.cpp:166-205 | a follower's answer is the protocol's Deliver step: log, high watermark and acknowledgement |
| `Broker.RestartIsCrash` | src/partition_log_shard.cpp:275-300 | a crash and restart that finds nothing behind is the protocol's Crash step |
| `Broker.CatchUpFollowerPartition` | src/broker_shard.cpp:773-811 | one round on two logs, even with stale tails, is one catch-up round on their histories |
| `GroupCommit.StepInv` | src/partition_log_shard.cpp:875-908 | every guarded step keeps the flush invariant |
| `GroupCommit.RunInv` | src/partition_log_shard.cpp:875-908 | every guarded run keeps the flush invariant |
| `GroupCommit.GroupCommitSafety` | src/partition_log_shard.cpp:875-908 | an append completes only after a finished flush of its own segment that began after its write, and none fails |
| `GroupCommit.StepTracked` | src/partition_log_shard.cpp:875-908 | every step, swaps only when harmless, keeps each append durable or bound to a flush of its own segment |
| `GroupCommit.GuardedIsHarmless` | src/partition_log_shard.cpp:875-908 | guarded runs are harmless runs |
| `GroupCommit.SwapSafeIff` | src/partition_log_shard.cpp:552-574 | no continuation after a swap completes an unflushed append if and only if every append whose flush has not begun is durable already |
| `GroupCommit.OutstandingWriteIsExposed` | src/partition_log_shard.cpp:543-560 | with a write outstanding and no flush scheduled, as the drain leaves it, some continuation completes an unflushed append |
| `HandlePools.TakeCachedHandle` | src/mercury_shard.cpp:256-270 | the newest handle of that RPC id, or none exactly when there is none; other pools unchanged |
| `HandlePools.PutHandle` | src/mercury_shard.cpp:277-288 | the handle joins the end of its RPC id's pool, or is refused exactly at 128; ids stay distinct |
| `RpcLedger.LedgerResolve` | src/mercury_shard.cpp:125-136 | a promise still held was never resolved, and resolving it keeps the ledger balanced |
| `RpcLedger.LedgerAddCall` | src/mercury_shard.cpp:599-624 | a handle in hand is on no call in flight |
| `RpcLedger.ExactlyOnePlace` | src/mercury_shard.cpp:256-311 | every created handle, promise and region is in one pool or call, or was released, exactly once |
| `RpcLedger.NoSharing` | src/mercury_shard.cpp:562-628 | a handle in flight is on no other call, in no pool and not destroyed |
| `RpcLedger.ShutdownReleasesAll` | src/mercury_shard.cpp:534-560 | with no peer and no call left every promise is resolved and every handle destroyed, exactly once |
| `MercuryClient.Client.RecycleHandle` | src/mercury_shard.cpp:271-289 | to its peer's pool if there is room, else destroyed |
| `MercuryClient.Client.DropPeer` | src/mercury_shard.cpp:293-311 | pooled handles destroyed, address gone, entry kept only for a pending lookup |
| `MercuryClient.Client.CleanupClient` | src/mercury_shard.cpp:562-579 | all a resolved call owns is released; its handle is recycled or destroyed, its peer dropped as flagged |
| `MercuryClient.Client.FailClient` | src/mercury_shard.cpp:581-590 | the promise gets the error unless it was resolved before, and the call is released |
| `MercuryClient.Client.StartClientForward` | src/mercury_shard.cpp:592-628 | in flight exactly when a handle could be had and the forward succeeded; else failed with the error of the step that failed, its peer dropped |
| `MercuryClient.Client.TakePendingLookup` | src/mercury_shard.cpp:318-328 | the peer's lookup with its waiters, its empty entry erased |
| `MercuryClient.Client.Timeout` | src/mercury_shard.cpp:125-136 | resolves an unresolved promise and leaves the call in flight |
| `MercuryClient.Client.ForwardCb` | src/mercury_shard.cpp:820-869 | resolves unless timed out: with a payload if and only if the reply carries that payload, with each error if and only if its own reply came; then recycles the handle or drops the peer |
| `MercuryClient.Client.LookupCb` | src/mercury_shard.cpp:871-905 | takes its own lookup; every waiter fails, or is on the wire or failed after the start; the address stays cached if none failed; an orphaned lookup changes nothing |
| `MercuryClient.Client.Forward` | src/mercury_shard.cpp:1021-1113 | sent at once when the address is known, else queued on the peer's single lookup, else failed with the lookup |
| `MercuryClient.Client.Stop` | src/mercury_shard.cpp:534-560 | every waiter fails, lookups are orphaned, calls in flight stay |
| `MercuryClient.Client.Run` | src/mercury_shard.cpp:534-628 | over every interleaving no resolved promise changes, each outcome is explained by the event that brought it, a reply by the completion with that payload of the call then in flight, and the ledger balances; when nothing is left every promise is resolved |
| `Wire.IntExact` | src/protocol/wire.cpp:46-74 | an integer reads as v exactly from the bytes of v |
| `Wire.StringExact` | src/protocol/wire.cpp:91-98 | a string reads as v exactly from its encoding, and only up to 32767 bytes |
| `Wire.BytesExact` | src/protocol/wire.cpp:127-133 | a byte array reads as v exactly from its encoding, and only below 2^31 bytes |
| `Wire.VarintRoundTrip` | src/protocol/wire.cpp:76-89 | a value below 128^n takes at most n bytes and reads back |
| `Wire.Varint32` | src/protocol/wire.cpp:240-246 | every 32-bit value is written in one to five bytes and read back |
| `Wire.VarintKnown` | src/protocol/wire.cpp:240-246 | 300 is 0xAC 0x02: seven bits a byte, least significant first |
| `Wire.CompactStringRoundTrip` | src/protocol/wire.cpp:109-116 | a compact string reads back if its length plus one fits 32 bits |
| `Wire.WireWriter.WriteInt` | src/protocol/wire.cpp:219-238 | the shifting loop appends the big-endian field |
| `Wire.WireWriter.WriteUnsignedVarint` | src/protocol/wire.cpp:240-246 | the loop appends the base-128 digits |
| `Wire.WireWriter.WriteString` | src/protocol/wire.cpp:248-254 | refused above the limit with nothing written, else appended with its length |
| `Wire.WireWriter.WriteBytes` | src/protocol/wire.cpp:277-280 | appended with its length modulo 2^32 |
| `Wire.WireReader.ReadRaw` | src/protocol/wire.cpp:151-156 | exactly the next bytes, or an error when too few are left |
| `Wire.WireReader.ReadInt` | src/protocol/wire.cpp:46-74 | the signed value of the next field, or an error when too few bytes are left |
| `Wire.WireReader.ReadUnsignedVarint` | src/protocol/wire.cpp:76-89 | the base-128 value modulo 2^32, or an error after five digits or at the end |
| `Wire.WireReader.ReadString` | src/protocol/wire.cpp:91-98 | the string grammar on the unread bytes, with both errors |
| `Wire.WireReader.ReadBytes` | src/protocol/wire.cpp:127-133 | the byte-array grammar on the unread bytes, with both errors |
| `ReplicationCodec.AppendExact` | src/broker_shard_detail.cpp:66-85 | a replica append decodes exactly from its encoding within the limits, whatever follows |
| `ReplicationCodec.FetchExact` | src/broker_shard_detail.cpp:95-112 | a replica fetch decodes exactly from its encoding within the limits, whatever follows |
| `ReplicationCodec.FetchResultExact` | src/broker_shard_detail.cpp:114-132 | a fetch response decodes exactly from its encoding within the limits, whatever follows |
| `ReplicationCodec.AppendReplyExact` | src/broker_shard_detail.cpp:87-93 | an append response decodes exactly from its encoding, whatever follows |
| `ReplicationCodec.AppendRoundTrip` | src/broker_shard_detail.cpp:66-85 | a sent replica append decodes to itself with no byte left if and only if its records are below 2^31 bytes |
| `ReplicationCodec.FetchRoundTrip` | src/broker_shard_detail.cpp:95-112 | a sent replica fetch decodes to itself with no byte left |
| `ReplicationCodec.FetchResultRoundTrip` | src/broker_shard_detail.cpp:114-132 | a sent fetch response decodes to itself with no byte left if and only if its records are below 2^31 bytes |
| `ReplicationCodec.AppendFields` | src/broker_shard_detail.cpp:77-85 | where every field of a replica append is |
| `ReplicationCodec.FetchFields` | src/broker_shard_detail.cpp:105-112 | where every field of a replica fetch is |
| `ReplicationCodec.FetchResultFields` | src/broker_shard_detail.cpp:114-121 | where every field of a fetch response is |
| `ReplicationCodec.EncodeReplicaAppend` | src/broker_shard_detail.cpp:77-85 | the layout of the request, or an error for a long topic |
| `ReplicationCodec.DecodeReplicaAppend` | src/broker_shard_detail.cpp:66-75 | the message grammar of the payload, with the first error met |
| `ReplicationCodec.EncodeReplicaFetch` | src/broker_shard_detail.cpp:105-112 | the layout of the request, or an error for a long topic |
| `ReplicationCodec.DecodeReplicaFetch` | src/broker_shard_detail.cpp:95-103 | the message grammar of the payload, with the first error met |
| `ReplicationCodec.EncodeReplicaFetchResponse` | src/broker_shard_detail.cpp:114-121 | the layout of the response |
| `ReplicationCodec.DecodeReplicaFetchResponse` | src/broker_shard_detail.cpp:123-131 | the message grammar of the payload, with the first error met |
| `ReplicationCodec.EncodeReplicaAppendResponse` | src/broker_shard_detail.cpp:87-93 | the layout of the response |
| `ReplicationCodec.DecodeReplicaAppendResponse` | src/broker_shard_detail.cpp:133-145 | the error code of a whole response, or an error for a short one |
| `Config.ValidateConfig` | src/config.cpp:59-115 | accepted if and only if ids and keys are unique, endpoints and names given, and every partition's leader, replicas, ISR and limits are in order |
| `Config.ValidatePartition` | src/config.cpp:80-112 | accepted if and only if the partition's own rules hold |
| `Reload.FindPartitionExact` | src/config.cpp:195-214 | the first-match search is the map from keys to partitions |
| `Reload.FindBrokerExact` | src/config.cpp:216-227 | the first-match search finds an endpoint exactly if it is configured |
| `Reload.OwnerShardIff` | src/broker_shard.cpp:254-273 | router and configuration agree on every partition if and only if no topic name is repeated by a topic with partitions |
| `Reload.ValidateReload` | src/broker_shard_detail.cpp:156-195 | accepted if and only if node, directory, segment size and endpoints stay and every old partition keeps its place |
| `Reload.ReloadKeepsBrokers` | src/broker_shard_detail.cpp:166-177 | equal sizes and unique ids leave the set of endpoints unchanged |
| `Reload.ReloadChain` | src/broker_shard_detail.cpp:156-195 | over any chain of accepted reloads partitions only grow, each keeping shard, replicas, ISR and migration |
| `PartitionTable.LowerBound` | src/broker_shard.cpp:99-108 | bisection finds the first position not below the key |
| `PartitionTable.BrokerShard.FindPartitionLog` | src/broker_shard.cpp:92-116 | hot slot or bisection, the entry the map has for the key, or none exactly when it has none |
| `PartitionTable.BrokerShard.EmplacePartitionLog` | src/broker_shard.cpp:125-146 | an existing entry, or a new log at its sorted place; the hot slot stays sound |
| `PartitionTable.BrokerShard.constructor` | src/broker_shard.cpp:148-164 | the table is the map over exactly this shard's configured partitions |
| `PartitionTable.BrokerShard.ApplyConfig` | src/broker_shard.cpp:207-235 | accepted exactly as the rules allow; the table becomes the map of the new configuration and no log changes identity |
| `PartitionTable.BrokerShard.ApplyAll` | src/broker_shard.cpp:207-235 | after any sequence of reloads the table is the map of the current configuration, which only grew |

## Left out

- PartitionLog.PartitionLogShard.Fetch: requires an index in order (`Fetch.Indexed`), which every log that stands has (`StaleTail.ReadStands`); out of order the merged read would index outside its buffer.
- PartitionLog.PartitionLogShard.FetchForReplica: requires an index in order, for the same reason.
- Broker.Produce: claims nothing of a broker that goes on after a checksum read outside the buffer.
- MercuryClient.Client.LookupCb: captures the resolved address once; the source reads it again through a reference that a failing waiter may have erased.
- MercuryClient.Client.Forward: the loopback path, which calls the local handler directly, and the binding of RPC names to ids are not part of this model.
- MercuryClient.Client.Run: a restart after `stop`, which would bring a new Mercury class under orphaned lookups, and the reference counts of addresses.
- Replication: a leader that changes, crashes or is outside the ISR, for which the code has no protocol; a follower restart that finds stale bytes behind its log (`CrashRuns.StaleFrameReturns`) is outside the Crash step.
- Interleaving inside an append (queue depth above one, index writes completing late) and I/O errors after an offset is assigned: an append is one step, so the queue depth is a parameter of admission.
- Crashes that cut a sealed segment file: `LogRuns.CrashRestart` says what recovery does then, and the log may have a gap.
- Seastar futures, gates, timers and sockets, file names and directory handling, the cache of open segment files and DMA alignment queries.
- The server side of the RPC layer, bulk transfer and Mercury itself.
- Kafka request and response codecs, tagged fields, API tables, metrics, health pings, YAML parsing, the produce timeout and the fetch long poll: plumbing or field lists that would add only easy members.
- `list_offsets`, topic metadata and consumer-group requests.
