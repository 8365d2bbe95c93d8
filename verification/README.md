# Verified model of the pocketkafka broker core

This project models the parts of pocketkafka that keep state and have to agree with something
simpler than themselves, and proves that they do, or exactly when they do. Everything here is a
statement about the model: no part of the broker is executed.

| file | what it models |
|---|---|
| `Bytes.dfy` | big-endian words, 32- and 64-bit wrap-around |
| `Lz4.dfy` | the LZ4 codec: match finder, block decoder, 12-byte header |
| `BatchLog.dfy` | a log file as record batches laid end to end, and `Scan`, the flat reading of a log |
| `OffsetIndex.dfy` | the sparse offset index and its file |
| `Segment.dfy` | a segment: append, indexed read, truncation, recovery from a torn file |
| `Partition.dfy` | a partition: roll, segmented read, truncation, retention, reopening |
| `Idempotence.dfy` | the producer de-duplication in front of the log |
| `RecordBatch.dfy` | the record batch codec the compactor writes and reads with |
| `Compaction.dfy` | which records survive a compaction and what the log means afterwards; reading records in chunks |
| `Compactor.dfy` | plan, second pass, writer; what appends during a compaction do |
| `Swap.dfy` | the manifest-driven file swap, with a crash between any two file operations |
| `Recovery.dfy` | a partition's directory, installing a compaction into it, restarting after a crash |
| `OffsetWal.dfy`, `OffsetStore.dfy` | the committed-offset log and store, and what a crash can lose |
| `Groups.dfy`, `GroupManager.dfy` | the consumer group protocol as a state machine, and the coordinator's objects refining it |
| `Commits.dfy` | a fenced offset commit and the deletion of a group, from request to store |
| `Decimal.dfy`, `Assignment.dfy` | the client's partition assignment and its string packing |

## How it is built

Code that updates things in place is a class or a method with loops (`Segment`, `Partition`,
`CompactWriter`, `Disk`, `Store`, `GroupObject`, `Tracker`, the LZ4 encoder and decoder). Each is
tied by its `ensures` to a function of the old state, and the properties are proved of those
functions: over all inputs, all runs (`After`, `Run`) or all crash points. A segment carries its
batches as ghost state; `Valid` ties them to the bytes of the file and the index.

Protocols are step functions. In `Groups` one step is one critical section under the group's lock,
a blocked join or sync being two; an expiry may fire in any phase, since the source does not look at
the phase again. In `OffsetStore` the memory change and the log write of a commit are separate
steps, any number of commits and removals of a key may be in flight, and a crash is a `Restart` step
between any two others, which may tear the record being written. In `Swap` the number of file
operations before the crash is a parameter.

## What the code does that its design would not suggest

Each of these is kept in the model and has a lemma with the exact condition, or the failing input.

- A record without a key is written back by the compactor with an empty key
  (`pkg/protocol/record_batch.go:49`), so the next compaction drops all but the last of them
  (`Compaction.NullsCollapse`); a second compaction is harmless exactly if at most one survivor has no
  key or the empty one (`Compaction.CompactTwice`). For every other key compaction keeps the latest
  record, but not its timestamp and attributes, which the writer drops
  (`internal/storage/compaction.go:316-321`); `Compaction.Content` is what is compared.
- Compaction looks for the records appended meanwhile in the active segment only. They are all found
  exactly if no roll has come between snapshot and install (`Compactor.TailIsWhole`,
  `Compactor.RollLosesTail`).
- If an I/O error stops the swap halfway, `Compact` removes `compact-tmp`, which may by then hold the
  only copy (`Swap.Disk.InstallFails`, `Swap.StoppedExactly`, `Swap.AbandonLosesAll`). A crash at the
  same place is harmless.
- Segment recovery counts offsets instead of reading them: after a cut inside a batch the reopened
  log ends too early, exactly then (`Segments.CutUnbroken`, `Segments.CutInside`,
  `Partitions.Partition.TruncateTo`). A torn tail of 1 to 11 bytes, or an index file that ends inside
  an entry, is an error (`Segments.OpenSegment`).
- Truncation cuts the log before it empties the index. A crash between the two leaves entries that
  lead past the end of the log, unless none points at the cut or behind it (`OffsetIndex.SoundCut`,
  `OffsetIndex.OwnLookup`, `Segments.CrashInTruncate`). A crash between the log and the index write of
  an append is harmless (`OffsetIndex.SoundAppended`, `Partitions.CrashBeforeIndex`), and so is one
  while the index is rebuilt (`OffsetIndex.SoundTaken`).
- An append checks neither the batch's length field nor its delta (`Segments.LengthDecides`,
  `Segments.CraftedLengths`, `Segments.AppendBackwards`).
- A read below the earliest offset wraps the relative offset; the result is the flat reading exactly
  if the wrapped lookup lands on position 0 (`Partitions.Partition.Read`,
  `Partitions.ReadBelowSkips`).
- Opening the offset log does not cut off a torn record, and what is appended behind it is lost
  (`OffsetStore.CommitShown`, `OffsetStore.TornRunLoses`, `OffsetWal.TornTailHides`).
- A commit changes memory under one lock and writes the log under another. Two commits of a key that
  come to the log in the other order than to memory leave the older value in the files
  (`OffsetStore.ReorderedLoses`), and a deletion that runs to its end between the two halves of a
  commit is undone by the second half (`OffsetStore.LateCommitResurrects`). A restart shows every
  acknowledged change exactly as long as no commit is appended after a later change of its key has
  been acknowledged (`OffsetStore.StepKeeps`, `OffsetStore.CommitKeeps`), and a deletion stays in force
  exactly if no earlier commit of the key is still to be appended
  (`OffsetStore.RemovalNotResurrected`). Deleting a group makes room for such a commit by
  forgetting the group before its offsets (`internal/coordinator/group.go:816-822`); an offset reset
  of a group that is not there takes no lock at all (`internal/coordinator/group.go:825-831`).
- Deleting a group that another deletion has just taken from memory returns before the files are
  clear, and a crash brings the group back (`OffsetStore.AbsentStaysRemoved`).
- Deleting a group that the coordinator does not know, as it knows none after a restart, reports
  success and leaves its committed offsets (`Commits.DeleteGroup`).
- A join that wakes past its deadline when its round is over empties the group, since nobody counts
  as rejoined any more (`Groups.ExpiredWake`).
- Any member's sync stores the assignments it submits, not the leader's alone: a member gets the
  leader's exactly as long as no later sync of the generation names it (`Groups.SyncIs`,
  `GroupManager.AssignmentReaches`).
- A retry of an older sequence is answered with the offset of the latest batch
  (`Idempotence.RetryOfOlder`); a failed sync after an append leads to a duplicate
  (`Idempotence.UnsyncedRepeats`), and so does a retry after a restart, which empties the tracker
  (`Idempotence.RestartRepeats`). A producer that starts again from sequence 0 under a new epoch is
  told its batch is done, and it is never written (`Idempotence.AnsweredWritten`,
  `Idempotence.NewEpochLost`).
- LZ4 is lossless exactly while both lengths fit 32 bits (`Lz4.RoundTripExactly`); a committed offset
  survives the log exactly if its strings fit 16-bit lengths (`OffsetWal.PayloadRoundTrip`).

## Model

| member | source | states |
|---|---|---|
| `Lz4.BlockEncode` | pkg/protocol/compression.go:291-375 | the match finder's output is the serialised greedy parse; it decodes to the input and fits the reserved buffer, whatever the hash function |
| `Lz4.ParseExpands` | pkg/protocol/compression.go:291-375 | whatever candidates the table proposes, expanding the parse gives back the input, overlapping matches included |
| `Lz4.CopyOfMatch` | pkg/protocol/compression.go:459-462 | copying byte by byte from a matching earlier position, even an overlapping one, extends the output by exactly the matched input |
| `Lz4.DecodeSerialize` | pkg/protocol/compression.go:408-468 | decoding the bytes of any block, with extended lengths and an empty last run, gives what the block stands for |
| `Lz4.SerializedSize` | pkg/protocol/compression.go:274-277 | a block of any number of sequences takes at most 256/255 of its expansion and a constant |
| `Lz4.EncodedCorrect` | pkg/protocol/compression.go:274-375 | every input decodes back from its encoding, which never exceeds n + n/255 + 16 bytes |
| `Lz4.AppendSequence` | pkg/protocol/compression.go:317-349 | one token, literals, offset and lengths are what the decoder reads as that sequence, whatever follows |
| `Lz4.AppendLast` | pkg/protocol/compression.go:357-373 | the final literal run, possibly empty, is what the decoder reads as the end |
| `Lz4.ExtendMatch` | pkg/protocol/compression.go:313-316 | the match is extended as far as the input and the limit allow, no further |
| `Lz4.ReadLengthAt` | pkg/protocol/compression.go:414-454 | a length with its extension bytes, or the error of running out of them |
| `Lz4.CopyMatch` | pkg/protocol/compression.go:459-462 | the decoder's copy loop is the overlapping copy |
| `Lz4.BlockDecode` | pkg/protocol/compression.go:408-468 | the decoder's loop computes the block's meaning, cut to the recorded length, with the same errors |
| `Lz4.Compress` | pkg/protocol/compression.go:279-289 | with the source's own hash, the frame is header and block, and decompresses to the input if and only if both lengths fit 32 bits |
| `Lz4.Decompress` | pkg/protocol/compression.go:377-406 | the frame is checked and decoded, error by error |
| `Lz4.FrameAccepted` | pkg/protocol/compression.go:377-406 | decompression gives an output if and only if both are empty, or the input is the frame, magic and both lengths included, around a block that decodes to the output or to more |
| `Lz4.RoundTripExactly` | pkg/protocol/compression.go:279-289 | decompressing a compressed input returns it if and only if both lengths fit 32 bits |
| `Lz4.RoundTrip` | pkg/protocol/compression.go:377-406 | in particular every input whose reserved buffer is below 4 GiB survives |
| `BatchLog.AssignedFields` | internal/storage/segment.go:130-134 | writing the base offset into a batch changes that field and no other |
| `OffsetIndex.IndexFile.MaybeAppend` | internal/storage/index.go:69-93 | an entry is added exactly when the interval has passed, in memory and in the file alike |
| `OffsetIndex.IndexFile.PositionForOffset` | internal/storage/index.go:95-108 | the binary search gives the position of the last entry at or below the relative offset taken as a 32-bit word, else 0 |
| `OffsetIndex.IndexFile.Reset` | internal/storage/index.go:110-117 | no entries are left, in memory or in the file |
| `OffsetIndex.LoadEntries` | internal/storage/index.go:43-67 | loading gives the file's entries, and fails exactly if the file ends inside one |
| `OffsetIndex.EntriesRoundTrip` | internal/storage/index.go:80-93 | what the index has written is what opening it loads |
| `OffsetIndex.DueSound` | internal/storage/index.go:69-93 | appending keeps every entry pointing at the batch it names |
| `OffsetIndex.SoundAppended` | internal/storage/segment.go:136-147 | a batch in the log without its index entry, as a crash between the two writes leaves it, keeps the index sound |
| `OffsetIndex.SoundTaken` | internal/storage/segment.go:246-265 | so do the first entries of an index whose rebuilding a crash has stopped |
| `OffsetIndex.SoundCut` | internal/storage/segment.go:241-247 | a cut log with its old index keeps it sound if and only if no entry points at the cut or behind it |
| `OffsetIndex.OwnLookup` | internal/storage/index.go:95-108 | the lookup of an indexed offset gives the entry's position, so that a stale entry leads past the end of the log |
| `OffsetIndex.LookupLands` | internal/storage/index.go:95-108 | a lookup lands on a batch boundary that has only smaller offsets before it, whichever batches are indexed |
| `OffsetIndex.LookupIsBoundary` | internal/storage/index.go:95-108 | a lookup of any word at all lands on a batch boundary |
| `OffsetIndex.SparseAppend` | internal/storage/segment.go:143-147 | the index of a log grown by a batch is the old index and at most the entry due for it |
| `Segments.Segment.Append` | internal/storage/segment.go:121-149 | takes exactly what the header checks let in, whatever its length field or delta and whatever was taken before; the end grows if and only if the delta is not negative; a well-formed batch keeps a segment in order, without a gap, and the index the function of the batches |
| `Segments.Segment.Read` | internal/storage/segment.go:155-201 | for the segment's own offsets the indexed read is the flat reading of its batches; below them it starts where the wrapped lookup lands |
| `Segments.Segment.ReadFrom` | internal/storage/segment.go:163-200 | from any batch boundary the scan gives the flat reading of the rest |
| `Segments.Segment.CutPosition` | internal/storage/segment.go:220-240 | the cut falls before the first batch that reaches the target |
| `Segments.Segment.RebuildIndex` | internal/storage/segment.go:246-265 | the rebuilt index is the one the batches alone determine |
| `Segments.Segment.TruncateTo` | internal/storage/segment.go:205-267 | exactly the batches wholly below the target stay; the index is the function of them; the segment ends at the target |
| `Segments.SparseSound` | internal/storage/index.go:69-93 | the index that batches determine points truly at every batch it names |
| `Segments.RecoverLog` | internal/storage/segment.go:88-119 | the recovery loop is the specification's walk over the bytes |
| `Segments.RecoverExactly` | internal/storage/segment.go:88-119 | from whole batches and a torn one, recovery keeps exactly the whole ones and counts their offsets, or fails exactly on a tail of 1 to 11 bytes |
| `Segments.SpanFallsShort` | internal/storage/segment.go:107-108 | the recomputed end never exceeds the true one, and equals it if and only if no offset is missing from the batches |
| `Segments.CutUnbroken` | internal/storage/segment.go:205-267 | a cut of a log without gaps leaves none, and so reopens with the right end, if and only if no batch lies across the target |
| `Segments.CutInside` | internal/storage/segment.go:205-267 | one batch of two offsets cut between them ends at 1, and at 0 once reopened |
| `Segments.FalseLength` | internal/storage/segment.go:94-102 | an accepted batch whose length field is not positive or exceeds what follows is lost on reopening, with everything after it |
| `Segments.LengthDecides` | internal/storage/segment.go:94-109 | recovery goes on at the end of an accepted batch if and only if its length field is true; otherwise it stops, goes on inside the batch, or goes on past it inside or after later ones |
| `Segments.CraftedLengths` | internal/storage/segment.go:121-135 | a length of 0 that is accepted and loses the rest of the log, and one that leads recovery into the batch |
| `Segments.CraftedDelta` | internal/storage/segment.go:143-145 | a delta of -3 passes the header checks |
| `Segments.AppendBackwards` | internal/storage/segment.go:121-149 | appending such a batch succeeds and moves the end of the log back by two, so that offsets are given out again |
| `Segments.OpenSegment` | internal/storage/segment.go:30-86 | opens exactly if the index file is whole and the tail readable; it holds the same batches, and is in order again if and only if no offset was skipped and the index points truly |
| `Segments.CrashInTruncate` | internal/storage/segment.go:205-247 | a truncation stopped after the cut and before the index is emptied reopens with the right batches, in order if and only if no offset is missing from them and no index entry points at the cut or behind it |
| `Partitions.Partition.constructor` | internal/storage/partition.go:98-107 | an empty directory opens as an empty log from offset 0 |
| `Partitions.Partition.Roll` | internal/storage/partition.go:249-257 | the log is unchanged; a new empty segment follows at its end |
| `Partitions.Partition.AppendActive` | internal/storage/partition.go:130-135 | the log grows by the batch under the next offset, or nothing changes; a well-formed batch keeps order, continuity and the indexes |
| `Partitions.Partition.Append` | internal/storage/partition.go:121-142 | across a roll too, the log grows by exactly the batch under the next offset, if and only if the header is good and the offset range of the segment written to is not full, whatever was appended before; a well-formed batch leaves no gap and every index the function of its batches |
| `Partitions.Partition.Read` | internal/storage/partition.go:259-321 | an indexed read over segments is the flat reading of the whole log if and only if it starts at or above the earliest offset, asks for nothing, or the wrapped lookup happens to be 0; inside a log without gaps it is not empty and begins with the batch that holds the offset |
| `Partitions.FillingIsShortest` | internal/storage/segment.go:163-199 | the flat reading is a run of whole batches: all of them, or the shortest that reaches the limit |
| `Partitions.ScanHoldsOffset` | internal/storage/segment.go:190-198 | in a log without gaps the flat reading is not empty and begins with the batch that holds the offset |
| `Partitions.ContinuousLog` | internal/storage/partition.go:249-257 | segments without gaps that follow one another make a log without gaps |
| `Partitions.ScanConcat` | internal/storage/partition.go:305-319 | reading to the end of one segment and on from there is reading across the boundary |
| `Partitions.SkipPieces` | internal/storage/partition.go:297-303 | segments that end at or before the offset have nothing to give |
| `Partitions.ReadSegments` | internal/storage/partition.go:296-321 | the loop over segments gives the flat reading of their joined batches |
| `Partitions.ReadIsFlat` | internal/storage/partition.go:296-321 | from the first segment that reaches the offset this is the flat reading of the whole log, or exactly when it is not |
| `Partitions.LateStart` | internal/storage/index.go:95-108 | a reading that starts late is never the flat reading |
| `Partitions.ReadBelowSkips` | internal/storage/partition.go:259-321 | two batches from offset 1 on, read from offset 0: the wrapped lookup misses the first |
| `Partitions.Partition.FindSegment` | internal/storage/partition.go:297-303 | the first segment whose end lies above the offset |
| `Partitions.Partition.KeepBelow` | internal/storage/partition.go:190-200 | the closed segments kept are the prefix that begins below the target |
| `Partitions.Partition.DropAbove` | internal/storage/partition.go:190-218 | the segments kept are those that begin below the target, the last of them active; if there are none, a new one from offset 0 |
| `Partitions.Partition.TruncateTo` | internal/storage/partition.go:179-226 | exactly the batches wholly below the target stay, over any number of segments, and the log ends at the target; a log without gaps stays so if and only if the target is past the end, 0, or above the earliest offset and in no batch; every index stays the function of its batches |
| `Partitions.CutPieces` | internal/storage/partition.go:190-222 | dropping the segments above the target and cutting the last one left is cutting the whole log |
| `Partitions.CutContinuous` | internal/storage/partition.go:202-225 | over segments, a cut leaves no gap if and only if no batch lies across it |
| `Partitions.Partition.RetentionPlan` | internal/storage/retention.go:52-73 | the plan is a prefix of the closed segments: every leading expired one and as many more as the size limit takes |
| `Partitions.RetentionCountIsLeast` | internal/storage/retention.go:52-73 | no shorter prefix satisfies both rules |
| `Partitions.RetentionCountUnique` | internal/storage/retention.go:52-73 | the policy determines the number of segments, so debt and enforcement agree |
| `Partitions.RetentionMeans` | internal/storage/retention.go:52-73 | without limits nothing goes; what a size limit leaves is within it, or the active segment alone; an age limit alone takes exactly the leading segments older than it |
| `Partitions.Partition.RetentionDebt` | internal/storage/retention.go:75-83 | the debt reported is the size of what enforcing the policy removes |
| `Partitions.DebtIsFreed` | internal/storage/retention.go:75-83 | the sizes before are the debt and the sizes left |
| `Partitions.Partition.TotalSize` | internal/storage/retention.go:94-103 | the running total is the sum over all segments |
| `Partitions.Partition.RemoveClosed` | internal/storage/retention.go:105-120 | removing the planned indexes from the highest down removes exactly the prefix |
| `Partitions.Partition.EnforceRetention` | internal/storage/retention.go:42-50 | the planned prefix goes, the active segment and the log end stay, the total size falls by exactly the debt of the plan, and continuity and indexes are kept |
| `Partitions.RetentionKeepsReads` | internal/storage/retention.go:42-50 | every read at or above the new earliest offset is unchanged |
| `Partitions.OpenPartition` | internal/storage/partition.go:62-108 | reopening files that hold segments without gaps restores every segment, the log and its end, also after a torn append; it fails exactly on a tail of 1 to 11 bytes |
| `Partitions.FilesOf` | internal/storage/partition.go:62-108 | the files of a live partition without gaps are such files |
| `Partitions.CrashAndOpen` | internal/storage/partition.go:40-60 | a live partition without gaps, cut by a crash inside an append, reopens with the log and the end it had |
| `Partitions.CrashBeforeIndex` | internal/storage/segment.go:136-147 | cut by a crash after the log write of an append and before its index entry, it reopens with that batch too |
| `Partitions.OpenSegments` | internal/storage/partition.go:87-93 | every segment found is opened as it was |
| `Idempotence.Tracker.ValidateAndAppend` | internal/storage/idempotence.go:27-70 | the reply, the producer table and the log after a request are those of the step that `Idempotence.AnswersByLog` pins to the log |
| `Idempotence.AppendSynced` | internal/storage/partition.go:148-159 | an append that fails to sync has still written its batch |
| `Idempotence.RunKeeps` | internal/storage/idempotence.go:27-70 | over any run with any retries in which no producer's batch is written and then fails to sync, each producer's batches form a gap-free run with epochs that do not fall |
| `Idempotence.StepKeeps` | internal/storage/idempotence.go:27-70 | a step keeps that if and only if it does not write a producer's batch and then fail to sync it |
| `Idempotence.AnswersByLog` | internal/storage/idempotence.go:35-70 | from the producer's last batch in the log alone: an epoch below its own is refused; otherwise the batch is written if and only if the sequence is the next one, or there is none yet; any other is answered as done if its sequence is not above, and as out of order if it is |
| `Idempotence.UnnumberedAppends` | internal/storage/idempotence.go:27-33 | a batch without a producer id is always written and leaves no trace in the table |
| `Idempotence.RetryAppends` | internal/storage/idempotence.go:35-62 | the retry of an appended request is appended again if and only if the append had failed to sync |
| `Idempotence.NoRepeats` | internal/storage/idempotence.go:27-70 | the sequences are consecutive, so none is appended twice, short of 32-bit wrap-around |
| `Idempotence.RetryAnswers` | internal/storage/idempotence.go:64-67 | a request accepted without appending changes nothing and is answered the offset of the producer's last batch, whose sequence is not lower |
| `Idempotence.AnsweredWritten` | internal/storage/idempotence.go:35-67 | a request answered as done has its own batch in the log if and only if it was appended now or the producer's batch of that sequence has its epoch, short of 32-bit wrap-around |
| `Idempotence.NewEpochLost` | internal/storage/idempotence.go:64-67 | after epoch 0, sequence 0, the request with epoch 1, sequence 0 is answered as done and never written |
| `Idempotence.RestartRepeats` | internal/storage/idempotence.go:21-25 | with the tracker emptied by a restart, the retry of a request that is in the log is appended again |
| `Idempotence.RetryOfOlder` | internal/storage/idempotence.go:64-67 | the answer is the retried batch's own offset if and only if it was the producer's latest |
| `Idempotence.UnsyncedRepeats` | internal/storage/partition.go:148-165 | the two requests that put one batch in the log twice |
| `RecordBatches.UvarintRoundTrip` | pkg/protocol/record_batch.go:44-72 | a varint reads back as the number written, whatever follows it |
| `RecordBatches.RecordRoundTrip` | pkg/protocol/record_batch.go:44-72 | a record reads back with every field, an absent key having become an empty one, and nothing of what follows is consumed |
| `RecordBatches.RecordsRoundTrip` | pkg/protocol/record_batch.go:130-142 | any number of records read back in order |
| `RecordBatches.BatchRoundTrip` | pkg/protocol/record_batch.go:74-143 | a batch the compactor writes is well formed, takes one offset per record, and decodes to its records |
| `RecordBatches.ZeroCount` | pkg/protocol/record_batch.go:130-142 | a batch with its record count left at 0 reads back the same |
| `RecordBatches.AssignedRecords` | internal/storage/segment.go:130-134 | placing a batch in the log does not change its records |
| `Compaction.KeptLatest` | internal/storage/compaction.go:120-148 | compaction changes no key's latest record |
| `Compaction.PlannedIsKept` | internal/storage/compaction.go:91-118 | the number planned is the number that survives |
| `Compaction.CompactAlready` | internal/storage/compaction.go:57-60 | as many survivors as records means that every record survives |
| `Compaction.RereadLatest` | pkg/protocol/record_batch.go:44-72 | being written and read back changes the latest record of the empty key only, which inherits the records without a key |
| `Compaction.CompactionKeepsMeaning` | internal/storage/compaction.go:39-75 | survivors followed by the tail give every key the latest content that snapshot and tail gave it |
| `Compaction.NullsCollapse` | pkg/protocol/record_batch.go:44-72 | a log of records without a key survives one compaction and is cut to its last record by the next |
| `Compaction.CompactTwice` | pkg/protocol/record_batch.go:44-72 | a second compaction changes nothing if and only if at most one record that survived the first has no key or the empty one |
| `Compaction.DecodeChunk` | internal/storage/compaction.go:399-419 | the records of a chunk's batches that decode, and the offset after the last of them; it advances if and only if there is one |
| `Compaction.ForEachBatchRange` | internal/storage/compaction.go:392-422 | reading in chunks gives every record from the offset on, each once, or starts late if the segment begins above the offset |
| `Compactor.ForEachBatch` | internal/storage/compaction.go:379-390 | every record of the log, in order |
| `Compactor.PlanRecords` | internal/storage/compaction.go:91-118 | the plan holds the last index of each key and the number of survivors; it gives up exactly when the distinct keys exceed the limit |
| `Compactor.PlanCompaction` | internal/storage/compaction.go:91-118 | the plan is made of the log's own records |
| `Compactor.StageRecords` | internal/storage/compaction.go:131-148 | the writer gets exactly the survivors, in order |
| `Compactor.StageCompaction` | internal/storage/compaction.go:120-153 | the second pass stages exactly the survivors of the log |
| `Compactor.PlanAndStage` | internal/storage/compaction.go:39-68 | gives up exactly on too many key bytes, leaves a compact log alone exactly if every record survives, and stages the survivors otherwise |
| `Compactor.NewCompactWriter` | internal/storage/compaction.go:297-313 | a new writer holds nothing |
| `Compactor.CompactWriter.Add` | internal/storage/compaction.go:315-327 | every record added is written or pending, and less than 500 records and 1 MiB are pending |
| `Compactor.CompactWriter.Flush` | internal/storage/compaction.go:329-358 | nothing is pending and no record is lost |
| `Compactor.WriteBatch` | internal/storage/compaction.go:334-356 | the log grows by the batch's records at dense offsets, a full segment is followed by a new one, and offsets cannot overflow |
| `Compactor.SmallIsWritable` | internal/storage/compaction.go:315-327 | records of up to 1 GiB, of which up to 2 MiB is not key or value, fit the batches wherever the writer cuts them |
| `Compactor.WrittenAppend` | internal/storage/compaction.go:329-358 | the segments written stay gapless from 0 and hold exactly the records flushed |
| `Compactor.AppendedOne` | internal/storage/partition.go:121-142 | an append during a compaction leaves no gap after the snapshot |
| `Compactor.TailIsWhole` | internal/storage/compaction.go:155-167 | the tail read at install is everything appended since the snapshot if and only if the active segment begins at or before the snapshot's end |
| `Compactor.RollLosesTail` | internal/storage/compaction.go:155-167 | a record appended and rolled away between snapshot and install is not found |
| `Swap.Disk.RemoveTmp` | internal/storage/compaction.go:212-219 | removing compact-tmp, in any order and cut anywhere, touches nothing else |
| `Swap.Disk.RemoveOld` | internal/storage/compaction.go:221-234 | removing old files keeps every staged or placed new one, wherever it is cut |
| `Swap.Disk.RenameStaged` | internal/storage/compaction.go:235-242 | the loop is the specification's, operation by operation |
| `Swap.RenamesKeep` | internal/storage/compaction.go:235-242 | moving staged files into place keeps the swap recoverable, wherever it is cut |
| `Swap.RenamesExactly` | internal/storage/compaction.go:235-242 | cut after k renames, exactly the first k names have been renamed |
| `Swap.Disk.MoveFiles` | internal/storage/compaction.go:225-242 | from the untouched state, cut after k operations, the directory is exactly what k removals and renames leave |
| `Swap.Disk.ApplySwap` | internal/storage/compaction.go:210-250 | from any state a crash can leave, wherever it is cut, it leaves such a state again; never back once the manifest was whole, never forward before; given enough operations it finishes |
| `Swap.Disk.Recover` | internal/storage/partition.go:53-55 | after any number of crashes during recovery, the first that finishes leaves exactly the old files, or exactly the new ones with their contents if the manifest was whole |
| `Swap.Disk.StageFiles` | internal/storage/compaction.go:252-259 | every new file is staged with its contents, unless a crash comes before as many operations as there are files |
| `Swap.Disk.Install` | internal/storage/compaction.go:173-189 | a crash anywhere from staging to the end of the swap leaves a recoverable directory: the old files if it comes before the manifest is complete, and otherwise a complete manifest or the new files; without one the directory is exactly the new files |
| `Swap.Disk.InstallFails` | internal/storage/compaction.go:70-73 | an install whose swap gets an error after k operations ends with the directory those k operations leave, compact-tmp gone |
| `Swap.StoppedExactly` | internal/storage/compaction.go:70-73 | that directory is one of the two file sets if and only if k is 0 or covers all removals and renames, or one set happens to be what is left of the other |
| `Swap.SwapDone` | internal/storage/compaction.go:210-250 | with nothing staged and nothing old left, the directory is the new file set |
| `Swap.AbandonedSwap` | internal/storage/compaction.go:70-73 | if neither set is part of the other: if and only if k is 0 or covers all removals and renames |
| `Swap.AbandonLosesAll` | internal/storage/compaction.go:70-73 | an error on the first rename leaves an empty directory |
| `Recovery.ListBases` | internal/storage/partition.go:67-86 | the base offsets of all log files, sorted, each once |
| `Recovery.FindSegments` | internal/storage/partition.go:62-93 | the segments found are exactly those the directory shows |
| `Recovery.OpenDirectory` | internal/storage/partition.go:62-108 | opening a directory gives the log it stores |
| `Recovery.Checkpoint` | internal/storage/partition.go:62-108 | the files of a live partition without gaps are a directory that stores it |
| `Recovery.Restart` | internal/storage/partition.go:40-60 | after a crash during a compaction and any number during recovery, the partition opens with what its directory stores, or with what the new files store if the manifest was whole |
| `Recovery.InstallCrashRestart` | internal/storage/partition.go:40-60 | a live partition, its own directory, an install cut by a crash and any number of restarts: the log and end it had if the crash came before the manifest was complete, counted in file operations, and the compacted ones otherwise |
| `Recovery.Finish` | internal/storage/compaction.go:360-371 | the files left hold gapless segments with exactly the records added |
| `Recovery.InstallTail` | internal/storage/compaction.go:155-167 | the records of the active segment from the snapshot's end on follow the survivors |
| `Recovery.InstallCompaction` | internal/storage/compaction.go:155-196 | without a crash the partition holds exactly survivors and tail, dense from offset 0; with one, the directory is the old one if the manifest was not complete, and recovers to the new files otherwise |
| `Recovery.CompactedLog` | internal/storage/compaction.go:39-75 | without a roll, the compacted log gives every key the latest content that the whole log, appends meanwhile included, gave it |
| `Recovery.InstalledIs` | internal/storage/compaction.go:155-167 | without a roll, what is installed are the survivors of the snapshot followed by everything appended since |
| `Recovery.StageThenAppend` | internal/storage/compaction.go:39-68 | batches that arrive after the snapshot leave the staged survivors as they are and follow the snapshot without a gap |
| `Recovery.Compact` | internal/storage/compaction.go:39-75 | a whole compaction with batches arriving between its critical sections: without a roll, the new files hold the survivors of the snapshot and then everything appended since; without a crash the log is that, dense from offset 0, and every key keeps the latest content of the whole log; with one, the directory is the old one or recovers to the new files, as the manifest decides; without survivors to drop, nothing changes |
| `OffsetWal.PayloadRoundTrip` | internal/coordinator/offset_wal.go:123-219 | a record decodes to itself, every field intact, if and only if its strings fit |
| `OffsetWal.ReplayFile` | internal/coordinator/offset_wal.go:63-104 | the replay loop is the specification's replay, errors included |
| `OffsetWal.ReplayPrefix` | internal/coordinator/offset_wal.go:63-104 | any byte prefix of a log replays without error to exactly the records wholly inside it |
| `OffsetWal.ReplayWhole` | internal/coordinator/offset_wal.go:63-104 | a whole record is replayed and the rest of the file goes on as on its own |
| `OffsetWal.ReplayTorn` | internal/coordinator/offset_wal.go:63-104 | a record cut anywhere ends the replay quietly |
| `OffsetWal.AppendAfterTornTail` | internal/coordinator/offset_wal.go:38-44 | a record appended after one torn byte makes replay fail at the tail |
| `OffsetWal.TornTailHides` | internal/coordinator/offset_wal.go:38-61 | whatever follows a torn tail of any length, replay gives the records before it and no other, if and only if the bytes from the tail on do not pass for a record |
| `OffsetStore.StepKeeps` | internal/coordinator/offset_store.go:94-173 | with any number of commits and removals of a key in flight: a step, torn writes and crashes included, keeps the files at some moment of the key's history in memory no earlier than its last acknowledged change, if and only if it does not append to a torn log, nor append a commit after a later change of its key has been acknowledged |
| `OffsetStore.CrashSafe` | internal/coordinator/offset_store.go:94-173 | wherever a run without such a step is cut, the restart shows each key as memory had it at some moment no earlier than its last acknowledged change, and as memory has it if all its changes are acknowledged |
| `OffsetStore.CommitShown` | internal/coordinator/offset_store.go:136-154 | a commit that returns is shown by the next restart if and only if its log was not torn, or the files held its value already |
| `OffsetStore.CommitKeeps` | internal/coordinator/offset_store.go:136-154 | bringing a commit to the log keeps its key safe if and only if the log is not torn and no later change of the key has been acknowledged |
| `OffsetStore.ReorderedLoses` | internal/coordinator/offset_store.go:100-137 | two commits of a key, appended in the other order than they changed memory: both return, and a restart shows the first |
| `OffsetStore.TornRunLoses` | internal/coordinator/offset_wal.go:38-44 | a crash inside a write, a restart and a commit that returns and is lost |
| `OffsetStore.FileShows` | internal/coordinator/offset_wal.go:63-104 | the file of a state with nothing behind a torn record replays to the state's records without error |
| `OffsetStore.BehindIsHidden` | internal/coordinator/offset_wal.go:63-104 | what lies behind a torn record is not replayed, if and only if the bytes from the tear on do not pass for a record |
| `OffsetStore.RemovalNotResurrected` | internal/coordinator/offset_store.go:164-173 | a removal that has returned, with no change of its key after it, stays in force through every further run and crash if and only if no commit of the key that changed memory before it is still to be appended |
| `OffsetStore.StaysExactly` | internal/coordinator/offset_store.go:94-173 | whatever happens short of a new commit, no restart shows a key, if and only if it is not in memory, not in the files or in a snapshot on its way there, and in no commit still to be appended |
| `OffsetStore.LateCommitResurrects` | internal/coordinator/offset_store.go:100-173 | a commit changes memory, a removal runs to its end, the commit goes on to the log: both have returned and the key is back at the next restart |
| `OffsetStore.AbsentStaysRemoved` | internal/coordinator/offset_store.go:164-173 | a removal that finds nothing in memory returns at once, and the key stays removed through every run if and only if neither the files, nor a snapshot on its way there, nor a commit still to be appended hold it |
| `OffsetStore.StoredMeans` | internal/coordinator/offset_store.go:164-173 | if the files do hold it, another removal of the key has yet to return |
| `OffsetStore.AbsentResurrects` | internal/coordinator/offset_store.go:164-173 | two removals of one key, a crash, and the key is back |
| `OffsetStore.TornAppend` | internal/coordinator/offset_wal.go:46-61 | a record cut by the crash is not seen by the next replay |
| `OffsetStore.ReplayAll` | internal/coordinator/offset_store.go:315-347 | a whole log replays to its records |
| `OffsetStore.Store.CommitMemory` | internal/coordinator/offset_store.go:98-128 | the offsets take every record of the batch, stamped: the last one of each group, topic and partition is there field by field, everything else as it was |
| `OffsetStore.AppliedTook` | internal/coordinator/offset_store.go:100-126 | the last record of each group, topic and partition is there with its offset, metadata, leader epoch and time, and every other offset is as it was |
| `OffsetStore.Store.AppendBatch` | internal/coordinator/offset_wal.go:46-61 | the log grows by the records' encodings, or by the part of them that a failed write puts down |
| `OffsetStore.Store.CommitBatch` | internal/coordinator/offset_store.go:94-154 | memory takes the batch, field by field, even if the write fails; files that could be added to can be added to again after a commit that succeeds; a compaction is started exactly at the threshold, unless one is under way or the store is closed |
| `OffsetStore.Store.Compact` | internal/coordinator/offset_store.go:355-375 | the snapshot alone then gives the offsets back |
| `OffsetStore.Store.CompactAsync` | internal/coordinator/offset_store.go:156-162 | the compaction a commit started, after which the next may start |
| `OffsetStore.Store.Close` | internal/coordinator/offset_store.go:282-297 | closing leaves everything in the snapshot and starts no further compaction |
| `OffsetStore.Store.DeleteGroup` | internal/coordinator/offset_store.go:164-173 | exactly the group's offsets go, from memory and from the files |
| `OffsetStore.Store.PruneOlderThan` | internal/coordinator/offset_store.go:250-280 | exactly the offsets last touched before the cut go, and their number is returned |
| `OffsetStore.OpenStore` | internal/coordinator/offset_store.go:315-347 | opening gives the snapshot with the log replayed over it, the last commit of each group, topic and partition field by field; it fails exactly if the replay does, compacts a long log at once, and otherwise leaves files that can be added to if and only if the log is whole commits and nothing else |
| `OffsetStore.CommitsTook` | internal/coordinator/offset_store.go:315-347 | of the records replayed, the commits count and nothing else; the last one of each key decides |
| `OffsetStore.Reopen` | internal/coordinator/offset_store.go:315-347 | files that can be added to open again, with the same offsets |
| `OffsetStore.FailedWrite` | internal/coordinator/offset_wal.go:46-104 | a write that fails partway leaves a log that replays to exactly the records put down whole |
| `OffsetStore.WholeWhenUntorn` | internal/coordinator/offset_store.go:315-347 | which is so for the store's own log if and only if its last record is not torn |
| `Groups.StepKeeps` | internal/coordinator/group.go:225-311 | every step keeps: join order lists the members without repeats; joined is empty unless preparing and then a strict subset; empty phase means no members; the first in join order leads; assignments are of this round, this generation, by members |
| `Groups.RunKeeps` | internal/coordinator/group.go:225-311 | so does every run of joins, syncs, heartbeats, leaves, expiries, reapings and deletions |
| `Groups.NewGroupInv` | internal/coordinator/group.go:129-155 | a new group satisfies it |
| `Groups.ExpiredWake` | internal/coordinator/group.go:295-305 | a waiter past its deadline leaves exactly those who have rejoined; once the round is over that is nobody, and the group is emptied |
| `Groups.JoinIs` | internal/coordinator/group.go:242-277 | a join that is not answered at once enters its member as it asks, a new one last in order, and completes a round if and only if every member is the joiner or has joined since the rebalance began; otherwise the rebalance is open, joined by exactly those and the joiner, in the old generation and round |
| `Groups.JoinIdIs` | internal/coordinator/group.go:242-261 | a member joins under its own id and anyone else under one that is nobody's |
| `Groups.JoinAtOnce` | internal/coordinator/group.go:236-255 | a join without a protocol changes nothing; one a stable group already knows only refreshes the member |
| `Groups.LeaveIs` | internal/coordinator/group.go:572-613 | the members are exactly the old ones not listed; with some left, a round completes if and only if one was open and all of them had joined it, and otherwise a rebalance begins with nobody joined, in the old generation and round; with nobody left the group is empty in generation 0 |
| `Groups.ReapIs` | internal/coordinator/group.go:869-907 | exactly the members not heard for longer than their session timeout go, and the group then does what it does on a leave, except that an open rebalance keeps those who have joined it and without an overdue member nothing changes |
| `Groups.HeartbeatIs` | internal/coordinator/group.go:545-570 | a heartbeat of a member in its generation outside a rebalance sets the time it was last heard and nothing else, any other changes nothing; the member then survives every reaping within its session timeout of that time and none later |
| `Groups.FencesAgree` | internal/coordinator/group.go:486-500 | during a rebalance every sync, fenced commit and heartbeat of a member is told so; outside one all three accept exactly a member in the group's generation, and say which of the two is wrong |
| `Groups.DeleteIs` | internal/coordinator/group.go:793-812 | a group without members is reset, any other left alone |
| `Groups.TimeoutIs` | internal/coordinator/group.go:346-358 | the first positive one of the three timeouts, and never nothing |
| `Groups.SeniorRun` | internal/coordinator/group.go:254-261 | over any run, of two members that stay the one that came first stays ahead in join order, and the other does not lead |
| `Groups.SyncIs` | internal/coordinator/group.go:502-543 | a sync that is not refused stores for every member the last assignment submitted for it and leaves the others' as they were; the group becomes stable if and only if the sender leads or has its own; a refused sync changes nothing |
| `Groups.AssignmentHeld` | internal/coordinator/group.go:502-543 | an assignment submitted for a member stays in the table through every run in which the member stays in that generation and no other sync names it |
| `Groups.StepMembers` | internal/coordinator/group.go:242-261 | no step admits anyone but the holder of an id issued in that step |
| `Groups.NameFresh` | internal/coordinator/group.go:157-163 | an id is never issued twice |
| `Groups.NeverAgain` | internal/coordinator/group.go:242-261 | an id that has ceased to be a member is never one again |
| `Groups.Fenced` | internal/coordinator/group.go:492-500 | such an id is refused by every later heartbeat, sync and fenced commit of any run |
| `Groups.StepGeneration` | internal/coordinator/group.go:381-400 | a step completes at most one rebalance and counts it, unless it empties the group |
| `Groups.GenerationCountsRounds` | internal/coordinator/group.go:381-400 | while an id stays a member the generation rises by one per completed rebalance |
| `Groups.StaleGenerationRefused` | internal/coordinator/group.go:622-632 | once a rebalance has completed, what a member stamps with an earlier generation is refused |
| `Groups.ProtocolIsPreferred` | internal/coordinator/group.go:421-449 | between rebalances the protocol is the leader's most preferred one that all current members support, else the leader's first |
| `GroupManager.FilterOrderOf` | internal/coordinator/group.go:704-716 | the join order without the removed, in order |
| `GroupManager.SupportsProtocol` | internal/coordinator/group.go:421-449 | whether a member lists the protocol |
| `GroupManager.ChooseProtocolFor` | internal/coordinator/group.go:421-449 | the nested search gives the specification's choice |
| `GroupManager.LeaderSeesMembers` | internal/coordinator/group.go:451-480 | the leader is shown every member, once, in join order, with its instance id and the metadata of the first of its protocols that has the chosen name |
| `GroupManager.JoinTold` | internal/coordinator/group.go:225-311 | a join that is not answered at once waits under its own id if and only if somebody else has yet to join; the last one is told the next generation, the round's protocol and leader, and the members if and only if it leads |
| `GroupManager.AssignmentReaches` | internal/coordinator/group.go:482-543 | once a sync has submitted an assignment for a member, the member's own sync later in that generation, and its waiting one when it wakes, are answered exactly that, unless another sync has named it |
| `GroupManager.WaitsForAssignment` | internal/coordinator/group.go:511-543 | while a round is completing nobody but the leader is answered without an assignment before its time is up; who waits finds the group still completing |
| `GroupManager.LeftIs` | internal/coordinator/group.go:592-598 | a leave reports exactly the listed members, each once |
| `GroupManager.GroupObject.BeginRebalance` | internal/coordinator/group.go:360-379 | preparing, with nobody joined |
| `GroupManager.GroupObject.CompleteJoin` | internal/coordinator/group.go:381-400 | a new round with its leader, protocol and an empty assignment table, or an empty group |
| `GroupManager.GroupObject.ExpireRebalance` | internal/coordinator/group.go:402-414 | whoever has not rejoined is dropped and the round completed without them |
| `GroupManager.GroupObject.FillJoinResponse` | internal/coordinator/group.go:451-480 | the answer to a join, with the member list for the leader only |
| `GroupManager.GroupObject.Rejoin` | internal/coordinator/group.go:270-277 | the join counts, and the last one completes the rebalance, as `Groups.JoinIs` says; the caller waits if and only if it is still open |
| `GroupManager.GroupObject.WakeJoin` | internal/coordinator/group.go:278-311 | a waiter is answered, expires the round, or waits on; one that has been dropped is told so |
| `GroupManager.GroupObject.Sync` | internal/coordinator/group.go:482-543 | assignments are stored only past the fence; the caller is told its refusal or its assignment, and waits exactly while completing without one of its own |
| `GroupManager.GroupObject.WakeSync` | internal/coordinator/group.go:511-543 | a waiter goes on exactly when it has an assignment, the round has changed, or its time is up |
| `GroupManager.GroupObject.Heartbeat` | internal/coordinator/group.go:545-570 | the member is refreshed exactly if it passes the fence |
| `GroupManager.GroupObject.FenceCommit` | internal/coordinator/group.go:621-633 | the refusals of a commit, none without a generation |
| `GroupManager.GroupObject.Leave` | internal/coordinator/group.go:572-613 | the listed members go and are reported, each once and in the order of the request; the others rebalance, an emptied group resets |
| `GroupManager.GroupObject.FindDead` | internal/coordinator/group.go:873-885 | exactly the members past their session timeout |
| `GroupManager.GroupObject.ReapExpired` | internal/coordinator/group.go:869-907 | exactly those members go, and are counted |
| `GroupManager.GroupObject.Delete` | internal/coordinator/group.go:793-823 | only a group without members is deleted, and it is reset |
| `GroupManager.Manager.GetOrCreate` | internal/coordinator/group.go:129-155 | a deleted or missing group is replaced by a new one, any other is returned as it is |
| `GroupManager.Manager.Enrol` | internal/coordinator/group.go:242-267 | a known member keeps its id, any other gets the next one |
| `GroupManager.Manager.JoinLocked` | internal/coordinator/group.go:225-311 | the critical section of a join is the specification's step, with its answers |
| `GroupManager.Manager.JoinGroup` | internal/coordinator/group.go:225-311 | a join works on its group alone and is answered from it: refused without a protocol, kept waiting while the round is open, else told the round under its own id; every group keeps its invariant and no id is in two groups |
| `GroupManager.Manager.SyncGroup` | internal/coordinator/group.go:482-543 | a sync works on its group alone and is told its refusal or its assignment, or waits; every group keeps its invariant |
| `GroupManager.Manager.Heartbeat` | internal/coordinator/group.go:545-570 | so does a heartbeat; an unknown or deleted group answers as an unknown member |
| `GroupManager.Manager.LeaveGroup` | internal/coordinator/group.go:572-613 | so does a leave, which reports exactly the listed members it removed; an unknown or deleted group is left alone |
| `GroupManager.Manager.ReapExpiredSessions` | internal/coordinator/group.go:833-846 | every group is reaped once, in any order, all keep their invariants, and the members dropped are counted |
| `GroupManager.Manager.DeleteGroup` | internal/coordinator/group.go:793-823 | a group without members is reset and forgotten, one with members is refused and unchanged, the others keep their invariants |
| `Commits.OffsetCommit` | internal/coordinator/group.go:615-668 | a fenced commit changes neither memory nor log; after an accepted one every partition of the request has the offset, metadata and leader epoch the request names last for it and the time of the call, and every other offset is as it was; it is answered as a server error if the log could not be written; all partitions are answered alike |
| `Commits.CommitAndReopen` | internal/coordinator/group.go:615-668 | an accepted commit whose records fit the log is in the store opened from the files, field by field |
| `Commits.DeleteGroup` | internal/coordinator/group.go:793-823 | a known group without members is forgotten and exactly its committed offsets go, from memory and files; one with members is refused; an unknown one is reported deleted and keeps its offsets |
| `Decimal.Itoa` | pkg/client/errors.go:17-37 | the buffer filled backwards holds sign and decimal digits |
| `Decimal.FillBackwards` | pkg/client/errors.go:25-31 | the digits end up in order and fit 20 bytes |
| `Decimal.ParseInt` | pkg/client/consumer_group.go:496-505 | the loop is the specification's parse, stopping at the first other character and wrapping at 32 bits |
| `Decimal.ParseDigits` | pkg/client/consumer_group.go:496-505 | printing and parsing is the identity on every non-negative 32-bit number |
| `Decimal.DigitsInjective` | pkg/client/errors.go:17-37 | different numbers print differently |
| `Assignment.PackRoundTrip` | pkg/client/consumer_group.go:481-494 | topic, NUL and decimal split back into the pair if and only if the topic has no NUL and the partition is not negative |
| `Assignment.SplitTopicPartition` | pkg/client/consumer_group.go:485-494 | splitting at the first NUL, or the whole string as topic |
| `Assignment.ToMap` | pkg/client/consumer_group.go:219-226 | the strings are split and grouped by topic |
| `Assignment.HoldingsOfGroup` | pkg/client/consumer_group.go:219-226 | grouping by topic neither loses nor adds a partition |
| `Assignment.CollectAll` | pkg/client/consumer_group.go:191-196 | every partition of every topic, packed |
| `Assignment.Deal` | pkg/client/consumer_group.go:197-206 | each member's share is every n-th of them from its own place on |
| `Assignment.ComputeAssignment` | pkg/client/consumer_group.go:190-212 | through packing and splitting, each member gets its share of the pairs |
| `Assignment.OneOwner` | pkg/client/consumer_group.go:190-212 | every partition of every topic belongs to exactly one of the members |
| `Assignment.DealtToOne` | pkg/client/consumer_group.go:203-206 | the j-th pair goes to the member j modulo their number and nobody else |
| `Assignment.DealtFairly` | pkg/client/consumer_group.go:203-206 | nobody gets anything else, and loads differ by at most one |
| `Assignment.AllPairsDistinct` | pkg/client/consumer_group.go:191-196 | distinct topics give distinct pairs |
| `Assignment.AllPairsContains` | pkg/client/consumer_group.go:191-196 | the pairs dealt are exactly the partitions of the topics |

## Left out

- Partitions.Partition.Append: order, continuity and indexes are stated for a segment limit above 0 and at most 2^32 bytes, the range index positions can address, and for partitions whose batches are all well formed; after any other batch, what the append does to the log and its end.
- Compaction.ForEachBatchRange: only up to the segment's end, which is the only bound it gets under the locks, and only for batches that decode, which the produce path checks before appending (internal/handler/handler.go:228).
- Compactor.CompactWriter.Add: assumes that records the writer may hold together fit one batch of less than 2 GiB, as `Compactor.SmallIsWritable` shows of all but enormous ones; the source does not check.
- Recovery.InstallCompaction: the survivors are taken from the writer's segments as they are at the end; the order in which the writer's file operations reach the disk before the manifest is written is not modelled.
- OffsetStore.CrashSafe: log writes and compactions that fail without a crash are not steps of the state machine; `OffsetStore.Store.CommitBatch` has the failed write, for one caller at a time.
- Reading and truncating with `int32` byte counts that wrap around, as happens with more than 2 GiB in one read.
- Remote (tiered) segments, and file I/O errors other than the ones named above.
- Power loss that reorders or drops writes that were not synced; a crash here keeps every operation before it.
- The checksum, the clock, the member-name prefix, map iteration order and the LZ4 hash are parameters or arbitrary.
- Timers, deadlines and wake-ups: a waiter may wake or expire at any time. Liveness is not claimed.
- A synced assignment is what the table holds when the waiter wakes, which may be a later round's.
- Generation overflow at 32 bits.
- File names other than a segment's two, and the parsing of names; a directory is a map from names to contents.
- JSON encoding of the manifest and of the offset snapshot: a file is absent, torn or whole.
- gzip, the Snappy codec (its encoder and decoder disagree), and rebuilding compressed batches.
- Batch header fields that neither the log nor the compactor reads.
- Offset fetches, group listings, and the handlers, gateways, client networking and configuration around this core.
