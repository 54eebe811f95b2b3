# EmbrFS in Dafny

EmbrFS keeps files as chunks in a lossy vector encoding, together with exact corrections. These modules model the code
around the vector library and prove what it promises: that files come back bit for bit, that concurrent writers lose
nothing, and that the journal survives a crash. The vector operations are arbitrary functions. The only assumption on
decoding is that it returns as many bytes as it is asked for (`Codec.Sized`); for `read_file`, which decodes every
chunk to 4096 bytes, it is also that a shorter decoding is a prefix of a longer one (`Codec.PrefixStable`).
`ProtocolTheorems.ChunkReadCondition` says exactly when a chunk needs the second assumption, and
`PrefixStabilityNeeded` gives a decoder for which the read is wrong without it.

| files | component |
|---|---|
| `Bytes`, `Correction` | chunking; corrections and their cost |
| `Crc`, `JournalFormat`, `JournalLayout`, `Framing`, `JournalReplay`, `JournalReopen` | the write-ahead journal: checksum, binary format, replay, torn files, reopening |
| `GroupCommit`, `GroupCommitProgress` | the group-commit queue as a state machine over threads |
| `Manifest`, `Stores` | the locked manifest, chunk store and correction store |
| `Protocol`, `ProtocolInvariant`, `ProtocolSteps`, `ProtocolRuns`, `ProtocolTheorems`, `ProtocolOutcomes`, `ProtocolProgress` | concurrent write, read and delete: one transition per locked step, any interleaving |
| `VersionedEmbrFS`, `Ranges`, `Holographic`, `Streaming` | the versioned file system as an object, range reads, holographic files, streaming |
| `EmbrFS`, `EmbrFSRefinement`, `EmbrFSObject` | the sequential file system and its refinement of a map from paths to bytes |
| `Delta`, `DeltaNames`, `DeltaShifts` | delta planning, and what a plan does when it is carried out by the chunk identifiers it names |
| `LargeFile`, `InodeTree` | bundle levels, the inode tree of the mounted view |
| `LruCache`, `Sorting`, `HierQuery`, `HierQueryComplete`, `HierQueryCached` | beam search over sub-engrams with caches |
| `PathPrefixes`, `SubEngramIds`, `HierBuild`, `HierBuilder` | building the hierarchy of sub-engrams |

Code that updates state in place is a class or a method with loops, proved against a specification function; the
theorems are about those functions. Concurrency is a state machine: a run is a list of labels, each starting an
operation or letting one thread take its next step.

Some promises do not hold of the code for every input. The model keeps the code as it is and proves exactly when they do:

- a correction is exact when the approximation has the right length or so much differs that the original is kept
  (`Correction.ExactnessCondition`); choosing one panics for some approximations that are too long
  (`Correction.PanicCondition`); it is the cheapest of the three under the condition of `Correction.ChosenCost`;
- a journal operation comes back when no length was narrowed to 32 bits (`JournalFormat.OpRoundTripCondition`), and a
  journal when no payload reached 4 GiB (`JournalReplay.ReplayCondition`);
- a journal that is opened again keeps the earlier transactions when nothing is written to it (`JournalReopen.ReopenCondition`);
- a same-length range replacement is the whole replacement when the stated old bytes are right where nothing changes
  (`Delta.RangeReplaceCondition`);
- a delta plan edits the file when the chunks that change are named rightly, which without an offset index they are not
  (`DeltaNames.PlanByNameCondition`, `DeltaNames.NumbersAreNoNames`, `DeltaShifts`); a planned deletion names the chunks that
  fall away when it ends inside the file (`DeltaShifts.DeleteCondition`);
- the manifest's index stays the inverse of the paths when no update installs an entry under another path
  (`Manifest.ManifestInvariant`);
- a failed operation changes nothing unless it is a `modify_file` of an existing file with unreadable content
  (`EmbrFSRefinement.FailedModification`);
- a crashed journal replays when it does not end inside a payload (`GroupCommit.CrashReplay`);
- a node added below something that is not a directory stays behind unlisted (`InodeTree.AddCondition`);
- an inverted index is aligned when no chunk of the codebook follows a missing one (`HierQuery.IndexAligned`);
- shards hold a prefix's chunks when no other prefix looks like one of them (`HierBuild.CoverageCondition`);
- the loop over bundle levels ends when the bundle size is at least two (`LargeFile.StopsWhen`);
- a query panics when the index cache has no room and a node is expanded (`HierQueryCached.Query`).

## Model

| member | source | states |
|---|---|---|
| Correction.CorrectedPrefixCondition | src/fs/correction.rs:97-145 | Applied to a decoding longer than the one it was computed from, a correction restores the original as a prefix iff the two decodings agree in every byte that it does not overwrite. |
| Correction.CorrectedPrefix | src/fs/correction.rs:97-145 | For every original, equal-length approximation and extension of it, applying the correction gives the original back (as a prefix of a longer decoding). |
| Correction.ExactnessCondition | src/fs/correction.rs:186-241 | For every approximation, longer or shorter ones included, the chosen correction is exact iff the lengths agree or more than half of the bytes differ. |
| Correction.PanicCondition | src/fs/correction.rs:215-232 | Choosing a correction panics iff the decoder returned all of the original, a zero byte and then more than ten but at most half as many differing bytes close together. |
| Correction.PanicExample | src/fs/correction.rs:215-232 | Such an input: twenty-two zero bytes decoded as twenty-three and eleven ones. |
| Correction.CorrectionCost | src/fs/correction.rs:153-161 | A correction costs nothing iff nothing differs, and at most 9d + 7 bytes for d differing bytes, whichever strategy is chosen. |
| Correction.ChosenCost | src/fs/correction.rs:201-241 | The cost by how many bytes differ and how far apart the first and the last of them are, and exactly when it is the least of the three ways to correct them. |
| Correction.ComputeCorrection | src/fs/correction.rs:186-241 | The difference-collecting loop chooses the specified correction, or panics exactly where the slice of the original begins behind its end. |
| Correction.ApplyCorrection | src/fs/correction.rs:97-145 | The loops over the copied buffer carry out the specified correction. |
| Correction.AddThenApply | src/fs/correction.rs:269-300 | What the store recorded for a chunk gives the original back from the recorded approximation, and passes the hash check whatever the hash, iff the lengths agree or more than half of the bytes differ. |
| Correction.CorrectionStore.AddChunk | src/fs/correction.rs:269-282 | Recording a chunk updates the map and the four statistics, after which the chunk can be restored under exactly that condition; or it panics and changes nothing. |
| Correction.CorrectionStore.ApplyTo | src/fs/correction.rs:290-300 | Applies the recorded correction and refuses a result whose hash does not match. |
| Correction.StatisticsExact | src/fs/correction.rs:269-282 | After any run of additions the perfect chunks are those whose decodings agree with them, zero-padded, the corrected ones are the others, and the byte counters are the sums over the chunks added. |
| Correction.RecordsAre | src/fs/correction.rs:269-282 | Exactly the identifiers added have records, each with the correction and hash of its last addition. |
| Crc.BurstChangesCrc | src/fs/versioned/journal.rs:303-324 | Headers and payloads that differ only inside four consecutive payload bytes have different checksums (the CRC-32 of section 8 of RFC 1952). |
| Crc.FiveByteBurstUndetected | src/fs/versioned/journal.rs:303-324 | Four bytes is the most: a concrete five-byte change has the same checksum. |
| ShiftRegister.FoldInjective | src/fs/versioned/journal.rs:308-322 | Feeding the same bytes never merges two different 32-bit register states. |
| ShiftRegister.BurstChangesFold | src/fs/versioned/journal.rs:308-322 | Byte strings that differ, and only inside four consecutive bytes, leave different register states. |
| Crc.Crc32Compute | src/fs/versioned/journal.rs:306-324 | The bitwise loop over header and payload computes the specified checksum, which Crc.CheckValues and Crc.Residue pin down. |
| Crc.Feed | src/fs/versioned/journal.rs:311-320 | The eight-shift inner loop is one step of the register machine. |
| Crc.CheckValues | src/fs/versioned/journal.rs:306-324 | The checksum of nothing is 0 and that of "123456789" is 0xCBF43926, the check value of the CRC-32. |
| Crc.Residue | src/fs/versioned/journal.rs:306-324 | Whatever the data, feeding the four bytes of its checksum, lowest first, after it leaves the register at 0xDEBB20E3. |
| JournalFormat.HeaderRoundTrip | src/fs/versioned/journal.rs:229-288 | A printed header parses back to itself with the checksum of its fields and payload filled in. |
| JournalFormat.OpRoundTrip | src/fs/versioned/journal.rs:353-549 | An operation whose lengths fit 32 bits parses back from its bytes, whatever follows them, consuming exactly those bytes. |
| JournalFormat.OpRoundTripCondition | src/fs/versioned/journal.rs:353-549 | Parsing gives back the printed operation iff no length was narrowed by the 32-bit casts. |
| JournalFormat.OpToBytes | src/fs/versioned/journal.rs:353-402 | The byte-pushing branches print the specified bytes. |
| JournalFormat.OpFromBytes | src/fs/versioned/journal.rs:405-549 | The position-advancing parser computes the specified result, errors included. |
| JournalFormat.IdsFromBytes | src/fs/versioned/journal.rs:478-489 | The loop over chunk identifiers reads every announced identifier, or fails at the first for which data is missing. |
| JournalFormat.HeaderToBytes | src/fs/versioned/journal.rs:229-244 | Prints the fields and then the checksum over them and the payload. |
| JournalFormat.HeaderVerify | src/fs/versioned/journal.rs:291-302 | Accepts a payload iff the recomputed checksum is the stored one. |
| JournalLayout.HeaderResidue | src/fs/versioned/journal.rs:229-244 | In every header written, the stored checksum fed after the other fields and the payload leaves the register at 0xDEBB20E3. |
| JournalLayout.StoredChecksum | src/fs/versioned/journal.rs:240-244 | The checksum is stored with its lowest byte first. |
| JournalLayout.HeaderLayout | src/fs/versioned/journal.rs:229-244 | The bytes "EMBR", version 1 and the committed flag, then number, time and length little-endian at 8, 16 and 24. |
| JournalLayout.OpLayout | src/fs/versioned/journal.rs:353-402 | The tag and the place of every field of every kind of operation. |
| JournalLayout.LeDigit | src/fs/versioned/journal.rs:229-244 | Byte i of a printed number is its ith digit to the base 256. |
| JournalLayout.ParsesWhen | src/fs/versioned/journal.rs:405-549 | The byte strings that parse are exactly those that begin with the printed form of an operation whose lengths fit, which is then the result but for UTF-8 decoding; the error tells empty input, an unknown tag and input cut short apart. |
| JournalLayout.ParsedHeader | src/fs/versioned/journal.rs:247-288 | A header that parses is the one whose fields and checksum the bytes print. |
| Words.ValueOfWord | src/fs/versioned/journal.rs:236-287 | Checksums and their 32-bit values correspond one to one. |
| JournalReplay.ReplayRoundTrip | src/fs/versioned/journal.rs:628-652 | Replay of a single-session journal returns exactly the (transaction, operations) list that was written, in order. |
| JournalReplay.ReplayCondition | src/fs/versioned/journal.rs:739-785 | A journal of any operations replays to what was written iff no payload reached 4 GiB, as long as UTF-8 decoding of a string cut short adds at most two bytes. |
| JournalReplay.CompleteRecordsSpec | src/fs/versioned/journal.rs:739-785 | A record counts as complete at byte n iff it ends by byte n. |
| JournalReplay.TornFile | src/fs/versioned/journal.rs:739-785 | For a file cut at any byte: exactly the complete records if the cut is on a boundary or inside a header, an error if it is inside a payload. |
| JournalReplay.DamagedPayload | src/fs/versioned/journal.rs:291-302 | A burst of at most four changed bytes in a payload makes replay fail with a checksum mismatch, whatever surrounds the record. |
| JournalReplay.CutOp | src/fs/versioned/journal.rs:405-549 | An operation cut short never parses. |
| JournalReplay.NarrowedOp | src/fs/versioned/journal.rs:353-549 | An operation whose length or count was narrowed never parses to itself, whatever follows it and wherever the file is cut. |
| JournalReplay.ReplayFile | src/fs/versioned/journal.rs:739-785 | The read loop computes the specified replay of any bytes whatever. |
| JournalReplay.ParsePayload | src/fs/versioned/journal.rs:772-779 | The loop over one payload parses operation after operation, or fails with the first error. |
| JournalReplay.SerializeOps | src/fs/versioned/journal.rs:635-639 | The loop over the operations concatenates their bytes. |
| JournalReplay.Journal.WriteTransaction | src/fs/versioned/journal.rs:628-652 | Writes exactly one record, under the next transaction number, at the end of those written since the journal was opened or emptied, over what the file held there before; or fails on a closed journal and changes nothing. |
| JournalReplay.Journal.ReplayAll | src/fs/versioned/journal.rs:739-785 | Replays the whole file; on one that was empty when opened that is what was logged since the last checkpoint. |
| JournalReplay.Journal.Checkpoint | src/fs/versioned/journal.rs:788-800 | Empties the file and keeps the transaction counter. |
| JournalReopen.ReopenCondition | src/fs/versioned/journal.rs:584-652 | A journal opened on the file of an earlier session and written to replays both sessions iff one of them wrote nothing: the writer starts at the beginning of the file. |
| JournalReopen.LaterFirst | src/fs/versioned/journal.rs:584-652 | What is replayed after reopening is the later session and then whatever the uncovered rest of the old bytes replays to, or that rest's error. |
| JournalReopen.ReopenedUnreadable | src/fs/versioned/journal.rs:584-652 | A concrete reopened journal of which not even the new transaction can be replayed. |
| Framing.TornFrames | src/fs/versioned/journal.rs:739-785 | The same cut-anywhere statement for any reader that takes one whole frame at a time. |
| GroupCommit.ExactlyOnePlace | src/fs/versioned/journal.rs:654-730 | In every interleaving each drawn transaction is in exactly one place and once: with one thread, in the queue, or in the file. |
| GroupCommit.ContiguousRecords | src/fs/versioned/journal.rs:654-730 | The file and the write buffer are whole records one after another, and at most one thread writes. |
| GroupCommit.AckedIsDurable | src/fs/versioned/journal.rs:654-685 | Every acknowledged transaction is among the synced records. |
| GroupCommit.CrashReplay | src/fs/versioned/journal.rs:739-785 | After a crash the file holds k whole records, all acknowledged ones among them; replay returns exactly these in order iff the file ends on a boundary or inside a header, and otherwise fails. |
| GroupCommitProgress.FlushAlone | src/fs/versioned/journal.rs:699-730 | After any run, a flush by an idle thread that finds the writer free and is left alone empties the queue: all its records are appended in order, synced and signalled, and the file is whole records. |
| GroupCommitProgress.WriterReleased | src/fs/versioned/journal.rs:674-682 | A writer whose record such a flush wrote returns with its next step. |
| GroupCommitProgress.WriterAlone | src/fs/versioned/journal.rs:654-682 | A writer left alone queues its record, and flushes the queue and returns iff the record fills it. |
| GroupCommitProgress.LockReleased | src/fs/versioned/journal.rs:711-718 | Whoever holds the writer gives it back by its own steps, with everything written so far synced. |
| Manifest.ManifestInvariant | src/fs/versioned/manifest.rs:932-1111 | At every moment of a run of add, update, remove and compact the index is the inverse of the entries' paths iff no update of the run installs an entry under another path than its own. |
| Manifest.RunIndexed | src/fs/versioned/manifest.rs:932-1111 | After any run whatever, each path leads to an entry of its own, the counter is the sum of all chunk counts, and the version has not decreased. |
| Manifest.UpdateUnderAnotherPath | src/fs/versioned/manifest.rs:960-1009 | An update of "a" with an entry for "b" goes through: "a" leads to it, "b" is not found, and after a compaction it is the other way round. |
| Manifest.AddFileSpec | src/fs/versioned/manifest.rs:932-957 | Adding succeeds iff the path is new, and then only that path changes; otherwise it reports the current version. |
| Manifest.UpdateFileSpec | src/fs/versioned/manifest.rs:960-1009 | Updating succeeds iff the expected version is the current one, which it otherwise reports, installs the next version and can revive a deleted entry; afterwards the index is still the inverse of the paths iff the new entry carries the path it was installed under. |
| Manifest.RemoveFileSpec | src/fs/versioned/manifest.rs:1012-1039 | Removing succeeds iff the expected version is the current one, which it otherwise reports; it marks the entry and raises its version. |
| Manifest.CompactSpec | src/fs/versioned/manifest.rs:1075-1111 | Compaction succeeds iff the expected version is the current one; it keeps every live entry as it is, forgets the deleted ones, returns their number, and raises the version iff there were any. |
| Manifest.LiveAppend | src/fs/versioned/manifest.rs:1086-1092 | The live entries keep their order. |
| Manifest.VersionedManifest.Get | src/fs/versioned/manifest.rs:913-922 | Looks the entry up through the index, deleted or not. |
| Manifest.VersionedManifest.Add | src/fs/versioned/manifest.rs:932-957 | The locked maps end up in the specified state. |
| Manifest.VersionedManifest.Update | src/fs/versioned/manifest.rs:960-1009 | The locked maps end up in the specified state, for an entry of any path; a valid manifest stays valid iff the update was refused or the paths agree. |
| Manifest.VersionedManifest.RemoveEntry | src/fs/versioned/manifest.rs:1012-1039 | The locked maps end up in the specified state. |
| Manifest.VersionedManifest.CompactFiles | src/fs/versioned/manifest.rs:1075-1111 | Filtering the entries and rebuilding index and counter gives the specified state. |
| Stores.InsertAllSpec | src/fs/versioned/chunk_store.rs:125-178 | A batch extends the map to exactly the keys of the updates, each with a value that the batch gave it. |
| Stores.LastUpdateWins | src/fs/versioned/chunk_store.rs:160-178 | The last update of a key in a batch wins, over earlier ones and over what was stored before; other keys keep what they had. |
| Stores.AllNew | src/fs/versioned/corrections.rs:157-170 | Every update of a batch is new iff its keys are distinct and absent. |
| Stores.CounterExact | src/fs/versioned/corrections.rs:121-170 | A version-checked batch keeps the counter equal to the number of corrections; an unchecked one does iff its keys are distinct and absent. |
| Stores.VersionedChunkStore.Get | src/fs/versioned/chunk_store.rs:68-73 | Returns the chunk under an identifier, if any. |
| Stores.VersionedChunkStore.InsertBatch | src/fs/versioned/chunk_store.rs:125-157 | Inserts the whole batch and raises the version, or reports a version mismatch and changes nothing. |
| Stores.VersionedChunkStore.InsertNewBatch | src/fs/versioned/chunk_store.rs:160-178 | Inserts the whole batch without a version check. |
| Stores.VersionedCorrectionStore.UpdateBatch | src/fs/versioned/corrections.rs:121-154 | Inserts the batch, counting only new keys, or reports a version mismatch and changes nothing. |
| Stores.VersionedCorrectionStore.AddBatch | src/fs/versioned/corrections.rs:157-170 | Inserts the batch, counting every update. |
| ProtocolTheorems.SnapshotReads | src/fs/versioned_embrfs.rs:268-331 | In every interleaving, a reader that fetched a live entry never meets a missing chunk and returns exactly the bytes and version that were current at some moment between its start and its end, however the file changes meanwhile. |
| ProtocolTheorems.ReadableContent | src/fs/versioned_embrfs.rs:268-331 | At every moment each path reads back as its last commit, or is not found. |
| ProtocolTheorems.ContentChanges | src/fs/versioned_embrfs.rs:1319-1325 | A path's readable content changes only in the step that commits a write or delete of that path. |
| ProtocolTheorems.FailuresInvisible | src/fs/versioned_embrfs.rs:1218-1334 | An operation that returned an error never took effect. |
| ProtocolTheorems.VersionChain | src/fs/versioned_embrfs.rs:1224-1333 | Without compaction, the commits on one path carry versions 0, 1, 2, ..., each made on exactly the version it expected, and no operation commits twice. |
| ProtocolTheorems.ReturnedVersion | src/fs/versioned_embrfs.rs:1224-1333 | The version a write computes from the entry it checked, and later returns, is the one that its commit installed, whatever happened in between; its chunks are in the root by then. |
| ProtocolTheorems.UpdatesCompose | src/fs/versioned_embrfs.rs:1224-1333 | k committed read-modify-writes since creation apply the update exactly k times. |
| ProtocolTheorems.NoLostUpdates | src/fs/versioned_embrfs.rs:1224-1333 | After any run a counter file stands at the number of committed increments. |
| ProtocolOutcomes.ReportsAreCommits | src/fs/versioned_embrfs.rs:1218-1334 | When all threads are idle each commit has been reported to its caller exactly once: the successes reported on a path are as many as its commits. |
| ProtocolOutcomes.EverySuccessCounts | src/fs/versioned_embrfs.rs:1218-1334 | When all threads are idle a counter file stands at the number of increments whose callers were told that they succeeded. |
| ProtocolProgress.WriteAlone | src/fs/versioned_embrfs.rs:1218-1334 | After any run, a write begun by an idle thread and not disturbed commits and answers version 0 or the next one iff the path's entry is the expected one, and the path then reads back as written; otherwise it reports the error for its case and no path changes. |
| ProtocolProgress.ReadAlone | src/fs/versioned_embrfs.rs:268-331 | After any run, a read that is not disturbed answers what the path holds at that moment. |
| ProtocolProgress.UpdateAlone | src/fs/versioned_embrfs.rs:1224-1333 | After any run, a read-modify-write that is not disturbed applies the update to what the file holds. |
| ProtocolProgress.RemoveAlone | src/fs/versioned_embrfs.rs:1505-1509 | After any run, a removal that is not disturbed takes effect iff the entry has the expected version. |
| ProtocolProgress.CheckFailsWhen | src/fs/versioned_embrfs.rs:1224-1246 | A write whose entry is the expected one passes its check; any other fails with the error for its case. |
| ProtocolProgress.InsertFailsWhen | src/fs/versioned_embrfs.rs:1288-1296 | Storing the chunks fails iff the write replaces an entry and another batch came between. |
| ProtocolProgress.CorrectFailsWhen | src/fs/versioned_embrfs.rs:1298-1307 | Storing the corrections fails iff the write replaces an entry and another batch came between. |
| ProtocolProgress.CommitFailsWhen | src/fs/versioned_embrfs.rs:1319-1325 | The commit fails iff the path's entry is no longer the one that the check passed. |
| ProtocolProgress.SwapRetriesWhen | src/fs/versioned_embrfs.rs:1982-1996 | The compare-and-swap is tried again iff another write's chunks came into the root since it was read. |
| ProtocolProgress.RemoveFailsWhen | src/fs/versioned_embrfs.rs:1505-1509 | A removal fails iff the path's entry does not have the expected version. |
| ProtocolTheorems.RootIsFold | src/fs/versioned_embrfs.rs:1965-1998 | The root version counts the committed bundles and the root is the fold of bundle over them in commit order, each committed write at most once, with nothing assumed about bundle. |
| ProtocolTheorems.QuiescentRoot | src/fs/versioned_embrfs.rs:1965-1998 | When all threads are idle the root holds every committed write. |
| ProtocolTheorems.CountersExact | src/fs/versioned_embrfs.rs:1330-1333 | The global version counts the successes and the correction counter the stored corrections. |
| ProtocolTheorems.ChunkReadCondition | src/fs/versioned_embrfs.rs:292-311 | A stored chunk is read correctly iff decoding to 4096 bytes agrees with decoding to its real length wherever its correction does not overwrite. |
| ProtocolTheorems.PrefixStabilityNeeded | src/fs/versioned_embrfs.rs:292-309 | A concrete decoder that is not prefix-stable makes the read of a one-byte chunk wrong. |
| ProtocolRuns.RunInv | src/fs/versioned_embrfs.rs:1218-1334 | Every state of every run, whatever the interleaving, satisfies the invariant of the stores, the manifest, the root and all threads. |
| ProtocolRuns.NeverStuck | src/fs/versioned_embrfs.rs:268-331 | In every state each thread can take its next step: chunks it is about to look up are there and its loop positions are in range. |
| ProtocolSteps.SwapKept | src/fs/versioned_embrfs.rs:1982-1996 | The compare-and-swap succeeds exactly on the root that the thread started from and keeps the invariant. |
| ProtocolSteps.CommitKept | src/fs/versioned_embrfs.rs:1319-1325 | The manifest commit keeps every thread's and the shared state's invariant. |
| VersionedFS.VersionedEmbrFS.ReadFile | src/fs/versioned_embrfs.rs:268-331 | Returns the committed bytes and version of a live path, or that it is not found. |
| VersionedFS.VersionedEmbrFS.ReadRange | src/fs/versioned_embrfs.rs:363-395 | Returns the slice of the committed bytes and the version, or that the path is not found. |
| VersionedFS.VersionedEmbrFS.WriteFile | src/fs/versioned_embrfs.rs:1218-1334 | Succeeds iff no version is expected and the path has no entry, or the path's entry has the expected version; it then commits the data under version 0 or the next one. In every other case it reports the error for that case and nothing readable changes. |
| VersionedFS.VersionedEmbrFS.DeleteFile | src/fs/versioned_embrfs.rs:1505-1509 | Deletes iff the expected version is the current one; otherwise nothing readable changes. |
| VersionedFS.VersionedEmbrFS.BundleChunksToRoot | src/fs/versioned_embrfs.rs:1965-1998 | Bundles the chunks into the root in order, raises the root version by exactly one, and keeps the file version it was given. |
| VersionedFS.VersionedEmbrFS.AllocateChunkId | src/fs/versioned_embrfs.rs:1942-1944 | Returns the next identifier, which has stood for nothing before, and moves the counter past it. |
| VersionedFS.VersionedEmbrFS.EncodeChunks | src/fs/versioned_embrfs.rs:1250-1286 | Numbers, encodes and corrects every chunk for the two batches. |
| Holographic.EncodeFile | src/fs/versioned_embrfs.rs:1580-1625 | Hands one chunk and one correction per 64-byte block to the stores, each computed from its own slices. |
| Holographic.ReadReversible | src/fs/versioned_embrfs.rs:1699-1738 | Returns the corrected blocks put together, or the first chunk that is missing. |
| Holographic.CorrectSlice | src/fs/versioned_embrfs.rs:1721-1732 | Overwrites exactly one block of the decoded buffer by its correction. |
| Holographic.HolographicRoundTrip | src/fs/versioned_embrfs.rs:1553-1738 | Whatever the encoder loses, reading what a write stored gives exactly the written bytes. |
| EmbrFSRefinement.RunRefinesMap | src/fs/embrfs.rs:1135-1827 | Any run of additions, removals, modifications and compactions followed by extraction gives the files of the same run on a plain map, for any decoder; and the next operation reports what the map would. |
| EmbrFSRefinement.OpRefines | src/fs/embrfs.rs:1135-1574 | One operation changes the map it stands for, and reports, exactly as the map operation does. |
| EmbrFSRefinement.CompactionInvisible | src/fs/embrfs.rs:1333-1574 | Compaction changes nothing that can be extracted. |
| EmbrFSRefinement.CompactionSpec | src/fs/embrfs.rs:1333-1574 | After any run, compaction leaves exactly the live entries, in order and under their paths and sizes, each with as many chunks as its content has pieces, numbered from zero; no other chunk or correction is left. |
| EmbrFSRefinement.OperationEffects | src/fs/embrfs.rs:1135-1574 | When each operation reports which error, and what it then does to the files that can be extracted. |
| EmbrFSRefinement.ChunksAccountedFor | src/fs/embrfs.rs:901-1092 | At all times the chunk lists concatenate to 0..total, exactly these chunks are stored and corrected, the statistics count them all, and the root bundles them in order. |
| EmbrFSRefinement.ExtractModel | src/fs/embrfs.rs:1658-1827 | Extraction writes exactly the map that the entries stand for. |
| EmbrFSRefinement.FailedModification | src/fs/embrfs.rs:1269-1287 | After any run, an operation reports an error and yet changes what is extracted iff it modifies an existing file with content that cannot be read; it loses that file and no other. |
| EmbrFSRefinement.FailedModificationLosesFile | src/fs/embrfs.rs:1269-1287 | An empty file is added, a modification of it fails, and the file is gone. |
| EmbrFSObject.FileSystem.AddFile | src/fs/embrfs.rs:1135-1160 | Carries out the specified addition on the object. |
| EmbrFSObject.FileSystem.RemoveFile | src/fs/embrfs.rs:1199-1235 | Carries out the specified removal on the object. |
| EmbrFSObject.FileSystem.ModifyFile | src/fs/embrfs.rs:1269-1287 | Carries out the specified modification on the object. |
| EmbrFSObject.FileSystem.Compact | src/fs/embrfs.rs:1333-1574 | Leaves the entries of the live files alone, in order and under their paths and sizes, each with as many chunks as its content has pieces; the chunks are numbered from zero, exactly these are stored and corrected, and no file changes. |
| EmbrFSObject.FileSystem.ExtractAll | src/fs/embrfs.rs:1658-1827 | Returns the files that a run on a plain map would have. |
| EmbrFSObject.FileSystem.Ingest | src/fs/embrfs.rs:901-1092 | Stores one file's chunks and appends its entry, or fails to read it and changes nothing. |
| EmbrFSObject.ExtractFile | src/fs/embrfs.rs:1658-1827 | Decoding, correcting and concatenating the chunks of an entry gives the specified bytes. |
| Ranges.IndexTiles | src/fs/versioned/manifest.rs:722-744 | The index built from chunk sizes tiles the file. |
| Ranges.OneChunk | src/fs/versioned/manifest.rs:783-818 | Exactly one chunk of a tiling contains a given in-range offset. |
| Ranges.BuildOffsetIndex | src/fs/versioned/manifest.rs:722-744 | The accumulating loop builds the specified index. |
| Ranges.FindChunkAtOffset | src/fs/versioned/manifest.rs:783-818 | The binary search finds the chunk that contains the offset, and nothing iff the offset is past the end. |
| Ranges.ChunksForRange | src/fs/versioned/manifest.rs:824-862 | The loop lists exactly the overlaps of the range with the chunks, in order; without an index it lists every chunk with no sizes. |
| Ranges.IndexedReadIsSlice | src/fs/versioned_embrfs.rs:398-448 | The indexed read is the slice [offset, offset + length) of the file, or fails with the first overlapping chunk that is missing. |
| Ranges.ReadRangeWithIndex | src/fs/versioned_embrfs.rs:398-448 | The loop over the overlaps reads the specified bytes or fails with the first missing chunk. |
| Ranges.ReadRangeSequential | src/fs/versioned_embrfs.rs:451-516 | The skipping loop returns the slice, or fails with the first missing chunk among those that start before its end. |
| Ranges.ReadRange | src/fs/versioned_embrfs.rs:363-395 | Either way the same slice is returned, not found iff there is no live entry, and an error iff a chunk that is looked at is missing. |
| Ranges.ReadSliceSpec | src/fs/versioned_embrfs.rs:363-395 | The slice has as many bytes as there are from the offset on, up to the length asked for, and each is the file's byte at its place. |
| Streaming.StreamingIngester.IngestBytes | src/fs/streaming.rs:254-268 | Adds the data to the input; the pending chunks stay the whole chunks of the input so far. |
| Streaming.StreamingIngester.ProcessChunk | src/fs/streaming.rs:388-457 | Numbers, encodes and corrects one chunk. |
| Streaming.StreamingIngester.Finalize | src/fs/streaming.rs:275-385 | Succeeds in exactly the same cases, under version 0 or the next one, and then stores the canonical chunking of everything ingested, however it was split across calls, changing no other path; otherwise it reports the error for that case and changes nothing. |
| Streaming.Committed | src/fs/streaming.rs:254-385 | The committed chunks are the canonical chunking of the concatenated input. |
| Streaming.AllStored | src/fs/streaming.rs:309-333 | Inserting the batches makes each identifier lead to its own chunk and correction, because no two are the same. |
| Streaming.StoredHolds | src/fs/streaming.rs:785-823 | For any decoder, each stored chunk of a file, decoded at its own size and corrected, is the chunk of the input. |
| Streaming.StreamingDecoder.DecodeNextChunk | src/fs/streaming.rs:785-823 | Decodes the next listed chunk at its own size and corrects it, fails if it is not in the store, and ends after the last. |
| Streaming.StreamingDecoder.ReadNBytes | src/fs/streaming.rs:862-901 | Returns the next n bytes of the file or what is left, and advances by exactly those; fails only at a chunk that is missing. |
| Streaming.ReadInPieces | src/fs/streaming.rs:862-901 | Any sequence of reads on a fresh decoder gives consecutive slices of the file up to its end, or stops at a missing chunk. |
| Streaming.IngestThenRead | src/fs/streaming.rs:254-901 | The round trip: however the input is split across calls, if the path's entry is the expected one a fresh decoder returns consecutive slices of the concatenated input, whatever numbers of bytes are asked for; if not, the error for that case is reported. |
| Delta.EditsByChunk | src/fs/delta.rs:330-355 | Editing the file byte by byte is editing every chunk by the changes that fall into it, in order, repeated positions included. |
| Delta.EditedByte | src/fs/delta.rs:330-355 | An edited byte has the value of the last change at its position, and every other byte keeps its own. |
| Delta.PlanByteReplace | src/fs/delta.rs:313-329 | Plans the one change in the one chunk it falls into, or nothing past the end. |
| Delta.PlanMultiByteReplace | src/fs/delta.rs:330-355 | The grouping loop plans each chunk's changes once and in order. |
| Delta.PlanRangeReplace | src/fs/delta.rs:357-399 | Plans the differing bytes of a same-length replacement by chunk. |
| Delta.RangeReplaceCondition | src/fs/delta.rs:357-399 | Applying only the differing bytes is the whole replacement iff the file holds the stated old byte wherever that equals the new one. |
| Delta.PlanAppend | src/fs/delta.rs:449-485 | Plans to fill the last chunk and where the new chunks begin. |
| Delta.AppendIsChunking | src/fs/delta.rs:449-485 | The filled last chunk and the new chunks are the canonical chunking of the longer file. |
| Delta.AppendOffsets | src/fs/delta.rs:449-485 | Every new chunk lies at the offset that the plan gives it. |
| Delta.PlanTruncate | src/fs/delta.rs:487-511 | Plans which chunk to cut and which to drop. |
| Delta.TruncateIsChunking | src/fs/delta.rs:487-511 | The kept chunks, the last one cut, are the canonical chunking of the shorter file. |
| Delta.ShiftKeepsPrefix | src/fs/delta.rs:402-447 | Chunks before the first changed byte are unchanged, so only those from there on need re-encoding. |
| Delta.PlanInsert | src/fs/delta.rs:402-426 | Names the chunks from the insertion's on and announces the chunks by which the file grows. |
| Delta.PlanDelete | src/fs/delta.rs:428-447 | Names the chunks from the deletion's on, and as removed those beyond the size less the length. |
| Delta.AnalyzeDelta | src/fs/delta.rs:303-515 | Each kind of change is planned as specified for it. |
| DeltaNames.PlanByNameExact | src/fs/delta.rs:518-523 | Carried out on the chunks it names, a plan gives the edited file iff under each chunk's own name it has the effect of that chunk's changes. |
| DeltaNames.PlanByNameCondition | src/fs/delta.rs:518-523 | As long as no chunk is mistaken for another of the file, it does iff every chunk whose bytes change is named rightly. |
| DeltaNames.AllEditsCondition | src/fs/delta.rs:518-523 | All edits of a file work by name iff every chunk of it is named rightly. |
| DeltaNames.PlanIsEdit | src/fs/delta.rs:330-399 | With right names a plan edits its file and no chunk of another. |
| DeltaNames.RangePlanIsSplice | src/fs/delta.rs:357-399 | With right names the plan of a same-length replacement gives the chunks of the spliced file iff the file holds the stated old byte wherever that equals the new one. |
| DeltaNames.IndexNames | src/fs/delta.rs:518-523 | With an offset index built over the entry every chunk is named rightly. |
| DeltaNames.NumbersAreNoNames | src/fs/delta.rs:518-523 | Without one, and with identifiers from one on, every chunk is named wrongly. |
| DeltaNames.FirstFileMisnamed | src/fs/delta.rs:518-523 | The plan for the first byte of the first file written, with identifiers 1 and 2 and no index, loses the edit. |
| DeltaNames.WrongByteEdited | src/fs/delta.rs:518-523 | The plan for byte 64 of the same file changes byte 0. |
| DeltaNames.SwappedNames | src/fs/delta.rs:518-523 | Wrong names need not show: two equal chunks with swapped names and the same edit come out right. |
| DeltaShifts.AppendByName | src/fs/delta.rs:449-485 | Carried out by name, the append plan gives the chunks of the longer file iff the chunk that it fills up, if any, is named rightly. |
| DeltaShifts.TruncateByNameCondition | src/fs/delta.rs:487-511 | Unless a chunk is mistaken for another of the file, the truncation carried out by name gives the chunks of the shorter file iff those from the cut on are named rightly. |
| DeltaShifts.InsertByNameCondition | src/fs/delta.rs:402-426 | Unless a chunk is mistaken for another of the file, re-encoding the named chunks and filling the new ones gives the chunks of the file with the insertion iff every chunk that changes is named rightly. |
| DeltaShifts.DeleteCondition | src/fs/delta.rs:428-447 | With right names, the chunks named as removed are exactly those that the shorter file no longer has iff size less length and the bytes really left need equally many chunks, as they do when the deletion ends inside the file. |
| DeltaShifts.DeletePastEnd | src/fs/delta.rs:428-447 | Deleting 50 bytes at offset 90 of 100 names a chunk as removed that still holds bytes. |
| DeltaShifts.DeleteByNameCondition | src/fs/delta.rs:428-447 | With right names for the removed chunks and none mistaken for another, the deletion carried out by name gives the chunks of what is left iff the chunk counts agree and every kept chunk that changes is named rightly. |
| InodeTree.RunKeepsTree | src/fs/fuse_shim.rs:305-498 | Any run of proper additions keeps the maps one tree: paths and inodes inverse, every non-root inode listed once in its parent, nlink 2 plus the subdirectories. |
| InodeTree.AddInv | src/fs/fuse_shim.rs:357-420 | A canonical path with only directories above it is added iff it is new: under a fresh entry of the kind asked for, last in its parent's list, with directories created above it and nothing else new; all that was there keeps its number, path, kind and place. A refusal changes nothing. |
| InodeTree.AddCondition | src/fs/fuse_shim.rs:357-498 | Adding a new canonical path keeps one tree iff only directories are above it; otherwise it fails after leaving an unlisted inode behind. |
| InodeTree.CreateInv | src/fs/fuse_shim.rs:370-418 | The create-then-link step keeps the tree. |
| InodeTree.LookupAgrees | src/fs/fuse_shim.rs:547-554 | Looking up a name in a directory is looking up the joined path. |
| InodeTree.ParentAgrees | src/fs/fuse_shim.rs:557-574 | The parent that the path leads to is the one and only directory that lists the inode. |
| InodeTree.WalkAgrees | src/fs/fuse_shim.rs:501-554 | Walking the components ends at the inode of the whole path. |
| InodeTree.PathParts | src/fs/fuse_shim.rs:1570-1603 | A canonical path is its parent joined with its file name. |
| InodeTree.EngramFS.constructor | src/fs/fuse_shim.rs:305-335 | The initial maps hold the root alone. |
| InodeTree.EngramFS.Add | src/fs/fuse_shim.rs:357-420 | Carries out the specified addition for every kind of node, with that effect. |
| InodeTree.EngramFS.EnsureDir | src/fs/fuse_shim.rs:423-498 | Creates the missing ancestors, as specified. |
| InodeTree.EngramFS.LookupName | src/fs/fuse_shim.rs:547-554 | The scan finds the first entry with the name, which in a tree is what the joined path leads to. |
| LruCache.LruCache.Get | src/fs/embrfs.rs:236-242 | Finds exactly what was inserted and not evicted; a hit moves the key behind all others, which keep their order, and a miss changes nothing. |
| LruCache.LruCache.Insert | src/fs/embrfs.rs:244-266 | With room, the new entry is there as the most recent one and at most the least recently used other one is gone, so that the cache holds the last distinct keys used; without room nothing changes. |
| LruCache.LruCache.Touch | src/fs/embrfs.rs:268-273 | A key that is there moves behind all others, which keep their order. |
| LruCache.LastUsed | src/fs/embrfs.rs:244-273 | To know the last n distinct keys after a use, the last n before it are enough. |
| HierQuery.IndexAligned | src/fs/embrfs.rs:160-177 | Local identifiers count all chunks while the map lists only those found, so the index is usable iff no chunk of the codebook follows a missing one. |
| HierQuery.LocalHitsSpec | src/fs/embrfs.rs:179-218 | The hits of a node are at most k, each with a chunk of the node and that chunk's own cosine, by falling cosine and then falling score. |
| HierQuery.BestFirst | src/fs/embrfs.rs:462-477 | The node expanded next has the highest score of the frontier. |
| HierQuery.TopKBest | src/fs/embrfs.rs:546-554 | The result falls in cosine, and a chunk left out has no better best hit than any chunk in it. |
| HierQuery.MergeBest | src/fs/embrfs.rs:502-518 | Merging hits keeps for each chunk the first of its best hits, and nothing else. |
| HierQuery.BeamIsBest | src/fs/embrfs.rs:536-543 | No item dropped from the frontier comes before one that is kept. |
| HierQuery.StepKeeps | src/fs/embrfs.rs:476-544 | One iteration keeps depth, beam width, expansion count, reachability and the best hits as they should be; that no child is passed over is in HierQueryComplete.NoBranchPassedOver. |
| HierQuery.ExploreSpec | src/fs/embrfs.rs:447-544 | Every search stops with an empty frontier or all expansions used, expands only reached nodes within the depth bound, keeps the beam, and holds the first best hit of each chunk seen; what it must expand is in HierQueryComplete.WideSearch. |
| HierQuery.ExpandsWhen | src/fs/embrfs.rs:447-483 | Some node is expanded iff the bounds allow one and some level-0 item can be loaded. |
| HierQueryComplete.NoBranchPassedOver | src/fs/embrfs.rs:462-544 | Every loadable entry of level 0 and every loadable child of every node expanded above the depth bound is expanded, still waiting, or was dropped after its parent's expansion by a truncation that kept as many items as the beam has places, none of them later in the order. |
| HierQueryComplete.WideSearch | src/fs/embrfs.rs:447-544 | With a beam and an expansion bound no smaller than what is in reach of level 0, the expanded nodes are exactly those to which a way of loadable children leads within the depth bound. |
| HierQueryComplete.WideQuery | src/fs/embrfs.rs:447-544 | In such a search the chunk of every hit of every node in reach has a best hit that is no worse. |
| HierQueryComplete.WideAnswer | src/fs/embrfs.rs:447-556 | And the answer holds a hit of that chunk that is no worse, or k hits none of which it beats. |
| HierQueryComplete.LocalHitsComplete | src/fs/embrfs.rs:179-218 | Every candidate whose chunk has a vector is among the hits of its node, or k hits that are no worse are. |
| HierQueryComplete.IndexContents | src/fs/embrfs.rs:160-177 | The index lists, in order, exactly the chunks that have a vector, each under its position in the node's list. |
| HierQuery.StringLessSpec | src/fs/embrfs.rs:462-466 | Names are compared character by character, a proper prefix coming first. |
| HierQuery.TopKUnique | src/fs/embrfs.rs:546-554 | There is only one list of the k best hits. |
| HierQueryCached.Build | src/fs/embrfs.rs:160-177 | The loop builds the specified index. |
| HierQueryCached.QueryTopKReranked | src/fs/embrfs.rs:179-218 | Mapping, reranking and truncating the candidates gives the specified local hits. |
| HierQueryCached.GetCachedSubEngram | src/fs/embrfs.rs:404-415 | Returns what the store would load, whatever the cache holds. |
| HierQueryCached.GetCachedIndex | src/fs/embrfs.rs:485-494 | Returns the index that would be built, or panics iff the cache has no room. |
| HierQueryCached.SortedValues | src/fs/embrfs.rs:546-554 | Sorting the drained map and truncating it gives the k best hits, in whatever order it was drained. |
| HierQueryCached.Search | src/fs/embrfs.rs:444-544 | The loop with both caches ends in the best hits of the specified search, of which HierQueryComplete says what it must expand, for all capacities, or panics iff the index cache has no room and a node is expanded. |
| HierQueryCached.Query | src/fs/embrfs.rs:433-556 | The result is the one list of the k best hits seen, the same for every capacity of the sub-engram cache and every positive capacity of the index cache; what is seen and answered at least is in HierQueryComplete.WideAnswer. |
| Sorting.SortSpec | src/fs/embrfs.rs:462-466 | Sorting permutes, and sorts by any weak order. |
| Sorting.SortStable | src/fs/embrfs.rs:462-466 | Sorting keeps the order of elements that compare equal. |
| SubEngramIds.NodeIdInjective | src/fs/embrfs.rs:2135 | Node names of different levels or prefixes are different. |
| SubEngramIds.ShardMimicked | src/fs/embrfs.rs:2162 | A shard's name is a node's name iff level and prefix say so: the prefix carries the shard suffix. |
| SubEngramIds.ShardIdInjective | src/fs/embrfs.rs:2162 | Different shards have different names. |
| SubEngramIds.ConcreteIds | src/fs/embrfs.rs:2135-2162 | Some names in full, shard numbers of four and of five digits among them. |
| SubEngramIds.DecimalUnique | src/fs/embrfs.rs:2135-2162 | Numbers in names are written without leading zeros. |
| PathPrefixes.SplitSpec | src/fs/embrfs.rs:2053 | The parts of a path hold no slash, make it up again with a slash between any two, and are one more than its slashes. |
| PathPrefixes.SplitUnique | src/fs/embrfs.rs:2053 | That is the only way to cut a path into slashless parts. |
| PathPrefixes.PrefixIsCut | src/fs/embrfs.rs:2054-2061 | The prefix of a level is the one part of the path that is all of it or stops before a slash and has as many slashes inside as the level says. |
| HierBuild.PrefixesSpec | src/fs/embrfs.rs:2049-2069 | The prefixes of a level are exactly these parts of the files' paths. |
| HierBuild.UnderIsCut | src/fs/embrfs.rs:2049-2069 | A file is grouped under a prefix of a level iff the prefix is such a part of its path. |
| HierBuild.ChildrenExist | src/fs/embrfs.rs:2133-2216 | Every child identifier is the identifier of a sub-engram. |
| HierBuild.ChildLonger | src/fs/embrfs.rs:2133-2216 | A child's identifier is longer than its parent's. |
| HierBuild.Acyclic | src/fs/embrfs.rs:2133-2216 | No walk along child edges visits a sub-engram twice. |
| HierBuild.ChildrenComplete | src/fs/embrfs.rs:2137-2150 | The node of a prefix lists the nodes of all next-level prefixes of its files. |
| HierBuild.EveryChunkReached | src/fs/embrfs.rs:2074-2216 | From a level-0 node child edges lead to the node of every file's whole path, which holds each codebook chunk of the file itself or in a shard, unless a shard of it is mimicked. |
| HierBuild.CoverageCondition | src/fs/embrfs.rs:2107-2216 | Where files list disjoint chunks, a prefix's node and shards hold exactly the codebook's chunks of the files under it iff no prefix of the level mimics one of its shards. |
| HierBuild.MimicExample | src/fs/embrfs.rs:2158-2174 | Two concrete files for which a mimicked shard loses its chunks. |
| HierBuild.ShardsBounded | src/fs/embrfs.rs:2157-2190 | Shards are disjoint, nonempty and within the cap, and their router holds no chunks itself. |
| HierBuild.CountExact | src/fs/embrfs.rs:2155-2200 | Where no chunk is listed twice, the chunk count of a node is the number of chunks of the files under it. |
| HierBuild.NamedByKey | src/fs/embrfs.rs:2165-2214 | Every sub-engram carries the name it is stored under, and the root of its prefix. |
| HierBuild.NodesBounded | src/fs/embrfs.rs:2157-2214 | With a positive cap no sub-engram lists more chunks than the cap. |
| HierBuild.IndexUsable | src/fs/embrfs.rs:2107-2119 | Every sub-engram lists only chunks of the codebook, so that the index built over it is aligned. |
| HierBuilder.GroupFiles | src/fs/embrfs.rs:2049-2069 | Groups the files by every prefix at every level, in manifest order; by PathPrefixes.PrefixIsCut these are the paths and their parts before a slash. |
| HierBuilder.Place | src/fs/embrfs.rs:2088-2216 | Adds the node of one prefix and its shards, and changes no other sub-engram. |
| HierBuilder.BundleHierarchically | src/fs/embrfs.rs:2039-2246 | Builds a node for every prefix of every level and the shards it needs; the levels list exactly the paths and their parts before a slash, by the number of slashes inside, and the last level is that of the deepest path. |
| LargeFile.RoundSize | src/fs/large_file.rs:343-357 | After k rounds one bundle is left for every started b^k vectors. |
| LargeFile.StopsWhen | src/fs/large_file.rs:343-357 | The level loop ends iff groups have at least two members or there is nothing to bundle. |
| LargeFile.RoundLeaves | src/fs/large_file.rs:347-354 | Every chunk vector goes into exactly one bundle of each level, in order. |
| LargeFile.BundleLevel | src/fs/large_file.rs:347-354 | One pass bundles the groups from left to right. |
| LargeFile.BundleLevels | src/fs/large_file.rs:340-359 | The number of levels is the least L with n <= b^L, and at most b bundles are left, one for every started b^(L-1) chunks. |
| Bytes.ChunksSpec | src/fs/versioned_embrfs.rs:1960-1962 | Chunking loses nothing and makes full chunks but for the last. |
| Bytes.CanonicalUnique | src/fs/versioned_embrfs.rs:1960-1962 | It is the only such way to cut the bytes. |

## Left out

- Vector operations (`SparseVec`, encoders, codebook, resonator), SHA-256, serialization and compression are functions without properties, except as stated above; cosines are integers, since only their total order is used.
- `TritFlips` corrections, which no code creates.
- `apply_delta` and its helpers (`src/fs/versioned_embrfs.rs:564-1195`): they overwrite shared chunks, keep stale corrections and return a global counter. Only the planning in `src/fs/delta.rs` is modelled, together with what carrying a plan out on the chunks it names would do.
- The bundling of streamed chunks into the root, which is that of `write_file`; compressed streams, whose payload the decoder does not unwrap.
- `StreamingDecoder::seek_to` to the middle of a chunk, and mixing the iterator with `read_n_bytes`.
- `VersionedEngram::bundle_chunk`, transactions, `hash_index`, `gc` and `remove` of the chunk store, which no file operation consults.
- `Relaxed` mode, timers and condition variables; I/O errors, reopening and checkpoints during group commit; transaction numbers are assumed not to wrap in `GroupCommit`.
- `manifest.compact` running concurrently with writes: version chains are stated for runs without it; alone it is in `Manifest`.
- Reading through `read_file` files whose chunks are not 4096 bytes, and holographic files through `read_range`.
- `write_file_holographic` as a concurrent protocol: its encoding and reading are modelled, its commit steps are those of `write_file`.
- `extract_with_resonator`, `extract_hierarchically`, directory walking, `Engram` saving and loading.
- Root vectors of sub-engrams (bundling, permuting, thinning) are one uninterpreted function of level, prefix and sorted files; bundles of whole levels are not stored and not modelled.
- Range replacements of unequal length: that the plan lists the named chunks is in `Delta.AnalyzeDelta`, but nothing says what re-encoding them gives, because the plan announces no new or removed chunks for the change of length.
- File contents, attributes other than kind and link count, and permissions in the inode tree; paths that are not component-canonical.
- FUSE callbacks, signals, the command line, disk modules, statistics display, lock poisoning.
- JournalReplay.Journal.WriteTransaction: models `Immediate` mode; group commit, on a file opened empty, is in `GroupCommit`.
- Holographic.ReadReversible: takes one stored vector per started block of 64 bytes and corrections that do not shrink a block; the code panics otherwise.
- GroupCommitProgress.FlushAlone: says what a thread does that is left alone; no scheduler is modelled, so that every waiting writer returns is not stated without that.
- HierQueryCached.Search: the store answers a name the same way throughout one query, so a node loaded for the frontier is loaded again when it is expanded.
- LargeFile.BundleLevels: requires a bundle size of at least two, or nothing to bundle, because the loop does not end otherwise.
