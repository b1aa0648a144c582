# ArgosFS verification

A Dafny model of the core of ArgosFS, an erasure-coded filesystem, with proofs about it:

- **Metadata journal** (`Json`, `JsonPatch`, `Journal`, `JournalRuns`, `JournalCopies`, `JournalLoss`): structural JSON diff and patch, the hash-chained journal with its scanner, replay and compaction, and a step system of several openers, lock, three metadata copies, commits, events, compactions, repair writes and crashes.
- **Device fencing** (`Guard`, `GuardCauses`): the interleaved steps of callers and one worker per device over a bounded queue, with deadlines, cancellation and permanent fences.
- **Space** (`StripeCapacity`, `Placement`, `Extents`, `Allocator`): the stripe-capacity search and the optimum behind it, placement with reservations per capacity group, and the raw extent allocator with rollback, auditor and free-space figure.
- **Data plane** (`Blocks`, `Stripes`, `WriteSuccess`, `Decoding`, `WriteRead`, `Reads`, `Seek`, `RangeWrite`, `RangeWriteSuccess`, `RangeWriteLoss`): striping, padding and shard writing, decoding from devices that may return anything, whole and range reads with sub-block checksums, `SEEK_DATA`/`SEEK_HOLE`, and range writes and truncation against a plain file.
- **FUSE front end** (`PlainFile`, `WriteBack`, `Handles`): the write-back buffer and the handle table.
- **Paged metadata and access control** (`Decimal`, `Paged`, `Acl`, `Access`): page round trip and page delta, ACL codecs, mode bits and access evaluation.
- `Arithmetic` and `Wrappers` hold what several modules share.

Verify all files with `dafny verify dfyconfig.toml`.

Loops and in-place updates of the source are methods and classes proved against functions on values; the theorems are stated about those functions. Protocols are step systems, and their theorems quantify over every interleaving.

## Assumptions

- Digests are symbolic: a digest stands for the document or bytes digested, so equal digests of one kind mean equal contents.
- The Reed-Solomon, compression and encryption libraries are parameters. `Blocks.Lawful` states what is asked of them: any k of k + m shards determine all, and compression and encryption are inverted by their partners. `Blocks.MirrorLawful` shows that the laws can be met. `Decoding.DecodeAgrees`, `Reads.WholeIsContents`, `Reads.RangeIsContents` and `Reads.RangeRefinesWhole` ask nothing of the libraries.
- Devices, caches, placement scores, random nonces, clocks and keys are parameters. Nothing is assumed about what a device or cache returns; of placement, the model of the write path asks only that it returns as many disks as asked for, which `Placement.ChooseDisks` proves.
- A caller of a commit passes the transaction number it holds as the expected one and commits the next (`src/volume/mod.rs`, lines 2245-2270), and reopens after an error.
- `WriteBack.VolumeWrite` takes the range write of the volume to be the plain one, in full, as a prefix or not at all. `RangeWrite.RunPlainIff` says when it is; where a range write loses bytes, the files of the front-end theorems have to be read accordingly.
- Numbers are unbounded; saturation, wrap-around and overflow checks of 64-bit and 32-bit values are written out where the source has them.
- The iteration orders of the page table and the inode table are parameters, required to be what a sorted map gives; `Paged.OrderExists` shows that there is one.

## Properties that do not hold

Each is stated with a run or input that shows it and with the exact condition under which the code meets it.

- *No update is lost.* An event record written by a process that is behind lowers the transaction number the scan reports, so a commit may take a lagging copy as its base without a conflict. Then a delta of the process behind is never replayed (`JournalLoss.StaleEventLosesCommit`), a checkpoint of it replaces the commits it never saw (`JournalLoss.StaleEventReplacesCommits`), and even the delta of an up-to-date process may not apply (`JournalLoss.StaleBaseLosesCommit`). All three are reached from a new volume (`JournalLoss.CommitLostInARun`, `JournalLoss.FreshCommitLostInARun`). A commit is kept if and only if its caller held the latest commit and its record is a checkpoint or a delta that applies to it (`JournalRuns.CommitExact`), and a run loses nothing if and only if that holds of each of its appends (`JournalRuns.RunExact`); events of up-to-date processes suffice (`JournalRuns.FreshAppendsGood`).
- *Scan and replay accept the same records.* Not after a chained snapshot with a wrong hash (`Journal.BadSnapshotHidesNextRecord`, `Journal.ScannersAgree`).
- *Compaction keeps what replay recovers.* Not when the last checkpoint has a wrong hash and no good snapshot follows it (`Journal.CompactionLosesMetadata`, `Journal.CompactionPreservesReplay`).
- *The stripe search returns the optimum.* Not when the sum of capacities wraps (`StripeCapacity.WrappedSumMissesOptimum`, `StripeCapacity.OptimalIffBoundReached`).
- *Live plus reported free bytes are constant.* Not with an unaligned region start (`Allocator.UnalignedStartLosesBlock`, `Allocator.ConservationIff`). Volumes pass regions that start at a multiple of the 4 KiB block (`src/storage/raw/format.rs`, lines 468-476), and those always conserve (`Allocator.AlignedStartConserves`).
- *A range write leaves the rest of the file alone.* Not while the file has blocks of another stripe size, and not when its inline data lies outside the window (`RangeWriteLoss.OldStripeLost`, `RangeWriteLoss.InlineDataLost`, `RangeWrite.WritePlainIff`, `RangeWrite.LossIffSticksOut`).
- *Truncation keeps the bytes before the cut.* Not in the same two situations: only the stripe of the cut is rewritten, and all of an overlapping older block, or all inline data, is dropped (`RangeWriteLoss.OldStripeCut`, `RangeWriteLoss.InlineDataCut`, `RangeWrite.TruncatePlainIff`, `RangeWrite.CutIffSticksOut`). Over whole runs the file stays the plain one if and only if no call loses a byte that was not zero (`RangeWrite.RunPlainIff`).
- *A write that reports an error changed nothing.* Not a direct one: the sync may fail after the write, or the volume write after its commit (`WriteBack.SyncFailureChanges`, `WriteBack.CommittedFailureChanges`, `WriteBack.ErrorUnchangedIff`). Errors are harmless, whatever the volume does, if and only if the call is empty, buffered, or writes what is already there (`WriteBack.ErrorsHarmlessIff`).
- *Binary ACLs round trip.* Not with the named id 2^32 - 1 (`Acl.UndefinedIdRejected`, `Acl.BinaryRoundTrip`).

## Model

| member | source | states |
|---|---|---|
| Json.EscapeRoundTrip | src/metadata/journal.rs:1051-1073 | a key with any characters, `~` and `/` included, survives pointer escaping and unescaping |
| Json.EscapeByChar | src/metadata/journal.rs:1051-1058 | escaping goes character by character: a tilde becomes `~0`, a slash `~1`, anything else stays (section 3 of RFC 6901) |
| Json.PointerRoundTrip | src/metadata/journal.rs:1060-1079 | every token sequence, empty tokens included, survives being written as a JSON Pointer and read back |
| JsonPatch.Document.Descend | src/metadata/journal.rs:1041-1049 | the walk down a pointer finds the node it names, with every node on the way, and fails if and only if there is none |
| JsonPatch.Document.ApplyDeltaOp | src/metadata/journal.rs:937-1039 | walking down to the parent, editing it there and rebuilding its ancestors has the effect of the operation that EditMember and PatchCorrect are about; an operation that fails leaves the document it met |
| JsonPatch.Document.ApplyDelta | src/metadata/journal.rs:893-902 | the operation loop refines the fold that PatchCorrect is about; on an error the document is the one after all operations before the first that fails |
| JsonPatch.DiffInto | src/metadata/journal.rs:904-935 | the recursive diff pushes exactly the operations of the specification diff, removals first, members in key order |
| JsonPatch.DiffMembersInto | src/metadata/journal.rs:904-935 | the member loop appends exactly the operations that MembersApply turns into the target members |
| JsonPatch.PushRemovals | src/metadata/journal.rs:904-935 | the removal loop appends exactly the removals that RemovalsApply is about, in key order |
| JsonPatch.EditMember | src/metadata/journal.rs:956-1039 | an operation under a longer pointer changes exactly the addressed member and nothing beside it; replacing or removing a missing member is an error |
| JsonPatch.EditElement | src/metadata/journal.rs:956-1039 | an operation on an array element named by its number sets it, appends right behind the end, or closes the gap, and is an error further out |
| JsonPatch.RemovalsApply | src/metadata/journal.rs:904-935 | the removals of a diff succeed and drop exactly the members missing in the target |
| JsonPatch.MembersApply | src/metadata/journal.rs:904-935 | the member operations of a diff succeed and turn the remaining members into the target ones |
| JsonPatch.PatchCorrect | src/metadata/journal.rs:904-1079 | for all documents a and b, applying diff(a, b) operation by operation succeeds and yields exactly b |
| JsonPatch.DiffEmpty | src/metadata/journal.rs:904-935 | the diff is empty if and only if the documents are equal |
| JsonPatch.DiffNeedsMember | src/metadata/journal.rs:893-1039 | a difference that removes a member is an error on every document without that member |
| Journal.MetadataRoundTrip | src/metadata/journal.rs:885-902 | a metadata document survives its JSON form |
| Journal.PrepareSeals | src/metadata/journal.rs:497-502 | a prepared document carries the hash of its own canonical form, its transaction number as generation, and unchanged content |
| Journal.ValidateExact | src/metadata/journal.rs:718-737 | a document is accepted if and only if its format is known and its stored hash is absent or its own |
| Journal.EnsureExact | src/metadata/journal.rs:504-511 | a document without a hash gets its own, with its transaction number as generation; any other stays as it is |
| Journal.DeltaRoundTrip | src/metadata/journal.rs:885-902 | a sealed document is recovered exactly from any base document and the delta to it |
| Journal.BuiltRecordLinks | src/metadata/journal.rs:513-552 | a built record passes the link and hash checks behind the record it names |
| Journal.ScanJournal | src/metadata/journal.rs:225-309 | the scan loop refines the scanner compared with replay by ScannersAgree |
| Journal.ScanCounts | src/metadata/journal.rs:225-309 | every line is counted once as valid or invalid, the valid ones are those without a hash and the records scanned, and the report ends with the last record and the last snapshot among them |
| Journal.ValidChainRecords | src/metadata/journal.rs:634-661 | the chain loop keeps exactly the lines that link behind the last line kept and skips every other |
| Journal.ReplayJournal | src/metadata/journal.rs:739-816 | the replay loop refines the fold over the chain that recovery and compaction theorems are about |
| Journal.AppendLine | src/metadata/journal.rs:598-600 | a linking line extends chain and replay by exactly that record |
| Journal.ScannersAgree | src/metadata/journal.rs:279-301 | scan and replay accept the same records if and only if every chained snapshot hashes to what its record says |
| Journal.BadSnapshotHidesNextRecord | src/metadata/journal.rs:279-301 | a journal in which they disagree: the record appended next is not replayed |
| Journal.CompactJournal | src/metadata/journal.rs:602-632 | the relinking loop refines the compaction that keeps replay and is stable |
| Journal.RelinkedChain | src/metadata/journal.rs:617-624 | relinked records pass the chain filter entirely |
| Journal.CompactionPreservesReplay | src/metadata/journal.rs:602-632 | compaction keeps what replay recovers if and only if replay recovers nothing or a snapshot from the last checkpoint on is good |
| Journal.CompactionLosesMetadata | src/metadata/journal.rs:602-632 | a journal where it does not: a good checkpoint, then one whose hash is that of another document |
| Journal.CompactionStable | src/metadata/journal.rs:602-632 | the compacted journal passes the chain filter and compacting it again changes nothing |
| JournalRuns.SafeRecovers | src/metadata/journal.rs:170-223 | in a safe state opening returns exactly the last commit whose journal append completed |
| JournalRuns.BaseIsLatest | src/metadata/journal.rs:327-333 | the base a commit diffs against is the latest commit if and only if the commit is not misled by a lagging copy and a lowered scan |
| JournalRuns.LoadStep | src/metadata/journal.rs:170-223 | opening, without a lock and interleaved with commits, ends holding the latest commit at its journal read |
| JournalRuns.RepairStep | src/metadata/journal.rs:413-420 | each repair write writes exactly its copy, leaves journal, history and the other copies alone, and keeps the state safe; the third ends the repair |
| JournalRuns.DecideStep | src/metadata/journal.rs:334-372 | every commit, misled ones included, conflicts if and only if its base is past what its caller expects, and then changes neither files nor history; otherwise it builds its record over that base |
| JournalRuns.AppendStep | src/metadata/journal.rs:372-373 | a good record extends the history by exactly the new commit and the chain reaches it |
| JournalRuns.PublishStep | src/metadata/journal.rs:485-495 | each publishing write writes exactly its copy, leaves journal, history and the other copies alone, and keeps the state safe; the third ends in compaction or ready |
| JournalRuns.EventStep | src/metadata/journal.rs:385-406 | an event changes neither the history nor what opening returns, and the chain ends at the transaction number of its writer |
| JournalRuns.CompactStep | src/metadata/journal.rs:408-411 | a compaction changes neither the history nor what opening returns |
| JournalRuns.StepKeepsSafe | src/metadata/journal.rs:170-411 | every step of every process, crashes and lost copies included, keeps the invariant unless it appends a record that is not good |
| JournalRuns.RunKeepsSafe | src/metadata/journal.rs:170-411 | so does every run whose appended records are good, and history only grows |
| JournalRuns.AppendGoodIff | src/metadata/journal.rs:334-373 | a commit record is good if and only if its caller held the latest commit and it is a snapshot or its delta takes the latest commit to the new one |
| JournalRuns.AppendExact | src/metadata/journal.rs:372-373 | after an append the history is one line and opening returns its last commit if and only if the record was good |
| JournalRuns.CommitExact | src/metadata/journal.rs:320-373 | per commit: a conflict if and only if the base is past what the caller expects, changing nothing; otherwise the append keeps one line and is recovered if and only if the caller held the latest commit and the record is a checkpoint or its delta applies to that commit |
| JournalRuns.RunExact | src/metadata/journal.rs:170-411 | over every run from a safe state: nothing is lost at any point if and only if every record appended is good at its append |
| JournalRuns.FreshAppendsGood | src/metadata/journal.rs:385-406 | in runs whose events come from up-to-date processes every record appended is good |
| JournalRuns.CrashSafety | src/metadata/journal.rs:151-411 | from a new volume, over every such run: one linear history, opening returns its last commit, every open process holds one of its commits |
| JournalCopies.WrittenInFull | src/metadata/journal.rs:412-495 | over every run in which no other process writes or loses a copy, the last write of a commit or a repair leaves all three copies holding what it wrote |
| JournalCopies.BestIsGreatest | src/metadata/journal.rs:179-187 | the copy selected is a readable one than which none is greater by transaction number and generation |
| JournalCopies.ReplayWinsIff | src/metadata/journal.rs:189-199 | replay is preferred if and only if there is no copy or it is greater than the best one |
| JournalCopies.LoadRepairsIff | src/metadata/journal.rs:170-223 | opening repairs if and only if a copy it read is not the latest commit |
| JournalCopies.OpenHeals | src/metadata/journal.rs:170-223 | from every safe state, whatever copies are lost or behind, an undisturbed open ends with the latest commit in the process and in all three copies |
| JournalCopies.CompactionTrims | src/metadata/journal.rs:375-411 | a compaction leaves a journal that is a valid chain from its only checkpoint on, and the copies as they were; a skipped one changes nothing |
| JournalLoss.StaleEventLosesCommit | src/metadata/journal.rs:320-406 | from every safe state with lagging copies, an event by the process that holds them lets its next delta commit be appended without a conflict and never be recovered |
| JournalLoss.StaleEventReplacesCommits | src/metadata/journal.rs:320-406 | if that commit is a checkpoint it is recovered instead, and the commits its process never saw are gone |
| JournalLoss.StaleBaseLosesCommit | src/metadata/journal.rs:320-406 | after such an event even a process that holds the latest commit appends a delta that cannot be replayed, when a member went away since the lagging copy |
| JournalLoss.CommitLostInARun | src/metadata/journal.rs:320-406 | reached from a new volume with two openers: of two commits in the journal opening returns only the first, or only the second when they are checkpoints |
| JournalLoss.FreshCommitLostInARun | src/volume/mod.rs:1908-1928 | the third way too: a commit that was not published, an event by the other opener, and the next commit of the same process is not recovered |
| Guard.StepInv | src/storage/guard.rs:75-230 | every step of callers and workers keeps the protocol invariant |
| Guard.RunInv | src/storage/guard.rs:75-230 | so does every interleaving |
| Guard.OneAtATimeInOrder | src/storage/guard.rs:82-102 | one worker per device, operations executed one at a time in queue order without repetition, queue within its bound |
| Guard.QueueBounded | src/storage/guard.rs:146-162 | the queue of a worker never exceeds its capacity |
| Guard.FenceForever | src/storage/guard.rs:75-80 | a fence and its first reason never change |
| Guard.AtMostOneAfterFence | src/storage/guard.rs:163-230 | after a fence at most one operation still starts on the device, one already past its check |
| Guard.ReplyForever | src/storage/guard.rs:104-144 | a reply is final |
| Guard.HonestReplies | src/storage/guard.rs:104-230 | at every later point of every run: busy means the operation has not run and never will, success that it ran exactly once, a timeout or failure that the device is fenced |
| Guard.AtMostOneRun | src/storage/guard.rs:163-230 | no operation runs twice, whatever its call returned |
| GuardCauses.ReplyIffCause | src/storage/guard.rs:104-230 | in every step a call gets a reply if and only if the step is its own and finds the cause of that reply: busy only on a full queue or a cancelled job, each delivered result its own answer |
| GuardCauses.SeenResultDecides | src/storage/guard.rs:104-144 | over every run the result a call sees decides its reply for good: a value is success, a missing device or other error is handed out, a fatal error is a device failure |
| GuardCauses.FenceIffCause | src/storage/guard.rs:75-144 | a device is newly fenced if and only if a call on it sees a fatal error, passes its result deadline or finds its worker gone, and that is the reason stored |
| GuardCauses.NoFenceWithoutCause | src/storage/guard.rs:75-230 | at every point of every run a fenced device has a call that was answered the cause of the fence |
| GuardCauses.RepliesTell | src/storage/guard.rs:104-230 | at every point of every run a value or error handed out is how the operation ended, and a call told of a device failure had no operation end otherwise than with that fatal error |
| GuardCauses.JobExecutes | src/storage/guard.rs:163-183 | a job received before it was cancelled on a device not fenced is executed once and how it ended is handed over |
| GuardCauses.JobRefused | src/storage/guard.rs:163-183 | on a fenced device it is not executed and the fence is handed over |
| GuardCauses.JobDropped | src/storage/guard.rs:163-168 | a cancelled job is dropped |
| StripeCapacity.PlacementNeedsSupport | src/frontend/fusefs.rs:1496-1515 | placing t stripes on distinct disks needs t times width units of support |
| StripeCapacity.SupportPlaces | src/frontend/fusefs.rs:1496-1515 | that much support suffices: a wrap-around filling places the stripes |
| StripeCapacity.PlaceableIffSupported | src/frontend/fusefs.rs:1504-1508 | t stripes can be placed if and only if the search test accepts t |
| StripeCapacity.PlaceableDown | src/frontend/fusefs.rs:1502-1513 | fewer stripes are no harder to place |
| StripeCapacity.PlaceableBound | src/frontend/fusefs.rs:1501-1501 | no placement exceeds sum over width |
| StripeCapacity.ComputeSupport | src/frontend/fusefs.rs:1504-1507 | the summing loop gives the support that decides placeability |
| StripeCapacity.MaxStripeUnits | src/frontend/fusefs.rs:1496-1515 | the search returns the largest placeable number within its starting bound, the exact optimum for sums below 2^64 |
| StripeCapacity.NarrowPool | src/frontend/fusefs.rs:1497-1499 | a pool narrower than a stripe holds none |
| StripeCapacity.OptimalIffBoundReached | src/frontend/fusefs.rs:1496-1515 | for any sum, the result is the optimum if and only if nothing beyond the starting bound is placeable |
| StripeCapacity.WrappedSumMissesOptimum | src/frontend/fusefs.rs:1501-1501 | two disks whose sum wraps: the search bound is 0 though a stripe fits |
| Placement.FirstPass | src/volume/data_plane.rs:1055-1110 | the first pass takes at most one disk per failure domain and leaves only used domains and full groups |
| Placement.SecondPass | src/volume/data_plane.rs:1112-1127 | the second pass stops short only when every disk left belongs to a full group |
| Placement.OnlyEligible | src/volume/data_plane.rs:966-994 | the single-shard shortcut finds the one eligible disk exactly when there is just one |
| Placement.ChooseDisks | src/volume/data_plane.rs:960-1133 | placement succeeds if and only if a feasible choice of that many disks exists; it returns the greedy choice in rank order, first one disk per failure domain, then the rest, and two disks share a domain only when every eligible disk of an unused domain is in a full group |
| Placement.AdmittedFeasible | src/volume/data_plane.rs:960-1133 | an admitted choice is feasible as a set |
| Placement.SharedIsLargest | src/volume/data_plane.rs:1509-1525 | disks on one filesystem have the largest capacity among them |
| Placement.FullMeansMaximal | src/volume/data_plane.rs:960-1133 | when all disks left belong to full groups no feasible choice is larger |
| Placement.UsedWithinReservation | src/volume/data_plane.rs:1509-1542 | usage after any prefix of the writes stays within the reservation |
| Placement.AdmissionHolds | src/volume/data_plane.rs:1150-1173 | every later shard write of the stripe passes the capacity check made at that moment, and leaves its group within capacity |
| Extents.SortSorts | src/storage/raw/allocator.rs:142-142 | the stable insertion by offset sorts and permutes |
| Extents.MergeSorted | src/storage/raw/allocator.rs:143-156 | the merge loop computes the specification merge |
| Extents.MergeSeparates | src/storage/raw/allocator.rs:141-157 | merged extents are sorted with gaps between neighbours |
| Extents.MergeCovers | src/storage/raw/allocator.rs:141-157 | merged extents cover exactly the same bytes |
| Extents.MergeKeepsSum | src/storage/raw/allocator.rs:141-157 | merging disjoint extents keeps their total |
| Allocator.FindFit | src/storage/raw/allocator.rs:23-28 | the search returns the first aligned free extent that is long enough |
| Allocator.RawAllocator.constructor | src/storage/raw/allocator.rs:5-13 | a new allocator: nothing handed out, nothing free, the end of the region saturated |
| Allocator.RawAllocator.Allocate | src/storage/raw/allocator.rs:15-64 | allocation in place equals allocation on values; an error changes nothing |
| Allocator.RawAllocator.Free | src/storage/raw/allocator.rs:66-88 | freeing in place refines the freeing that FreeKeeps is about; an extent outside the region is refused and changes nothing |
| Allocator.RawAllocator.RollBack | src/volume/data_plane.rs:877-886 | the error path of a shard write refines the rollback that RollBackKeeps is about |
| Allocator.AllocateKeeps | src/storage/raw/allocator.rs:15-64 | an allocation hands out whole blocks apart from everything live and keeps the invariant; it fails only if no free extent and no tail is long enough |
| Allocator.CoalesceOne | src/storage/raw/allocator.rs:79-86 | freeing one more disjoint extent gives separated whole blocks with the same bytes and the larger total |
| Allocator.FreeKeeps | src/storage/raw/allocator.rs:66-88 | freeing a live extent succeeds, gives back its bytes and keeps the invariant |
| Allocator.FreedExact | src/storage/raw/allocator.rs:66-88 | any extent is taken back if and only if it lies in the region, and then exactly its bytes become free |
| Allocator.RollBackKeeps | src/volume/data_plane.rs:877-886 | a failed write leaves the live extents and the invariant as they were |
| Allocator.RollBackUndoes | src/volume/data_plane.rs:877-886 | a write beyond everything handed out, rolled back, leaves the pointer at the block boundary it took and frees nothing |
| Allocator.CheckLine | src/storage/raw/allocator.rs:95-113 | the bounds and overlap loop accepts exactly sorted extents in the region of which none starts before the previous ends |
| Allocator.ValidateAllocations | src/storage/raw/allocator.rs:90-139 | the auditor accepts exactly what its three checks describe |
| Allocator.AuditorExact | src/storage/raw/allocator.rs:90-139 | what it accepts is in the region and pairwise disjoint, and it accepts every such layout of non-empty extents, in any order |
| Allocator.RunKeeps | src/storage/raw/allocator.rs:5-157 | after every sequence of writes, releases and failed writes: live and free extents disjoint, in bounds, block-aligned, maximally coalesced, filling what was handed out, and accepted by the auditor |
| Allocator.LivePlusFree | src/frontend/fusefs.rs:1488-1494 | live bytes plus the reported free bytes are the whole blocks behind the first block boundary |
| Allocator.ConservedWhen | src/frontend/fusefs.rs:1488-1494 | at a reachable state the total is the initial one if and only if nothing was bump-allocated or the unaligned head costs no block |
| Allocator.ConservationIff | src/frontend/fusefs.rs:1488-1494 | over all runs the total is constant if and only if the unaligned head costs no block or no block fits at all |
| Allocator.AlignedStartConserves | src/storage/raw/allocator.rs:5-64 | a region that starts at a block boundary, as every region of a volume does, conserves over every run |
| Allocator.UnalignedStartLosesBlock | src/frontend/fusefs.rs:1488-1494 | a region starting at byte 100: one write takes a block and the reported free bytes fall by two |
| Allocator.WholeRangeUnaligned | src/storage/raw/allocator.rs:21-22 | the one region outside the theorems: spanning all 64-bit offsets, a saturated length is no whole number of blocks |
| Blocks.EncodeGivesCodeword | src/data/erasure.rs:31-56 | encoding gives k + m shards, parity included of one size, with the data shards first |
| Blocks.ReconstructExact | src/data/erasure.rs:58-85 | reconstruction from any k surviving shards returns all shards |
| Blocks.PaddingRoundTrip | src/volume/data_plane.rs:760-775 | the padded data shards put together and cut to the payload length give the payload |
| Blocks.SpreadGather | src/volume/data_plane.rs:760-777 | the shards of a payload form a codeword from which the payload is gathered |
| Stripes.WriteShards | src/volume/data_plane.rs:798-816 | the shard loop writes slot after slot and stops at the first error |
| Stripes.EncodeStripes | src/volume/data_plane.rs:664-835 | the stripe loop refines the encoding whose success WriteSucceedsIff and whose blocks EncodeTiles and EncodeCarries are about |
| WriteSuccess.WriteSucceedsIff | src/volume/data_plane.rs:664-835 | a write succeeds if and only if its layout exists with a usable stripe size and, unless empty, the key is there when needed and every chunk can be compressed, encrypted, encoded, placed and stored within the range of stripe numbers and offsets |
| WriteSuccess.BlockRecords | src/volume/data_plane.rs:764-830 | a written block records slot by slot the disk placement named, the path that disk answered and the size of the shard it was given |
| Decoding.ReadVerified | src/volume/data_plane.rs:1290-1331 | the retry loop returns the first attempt whose size and digest fit; a device error ends the attempts |
| Decoding.AttemptsExact | src/volume/data_plane.rs:1290-1331 | the answer is that of the first attempt that verifies or fails; there is none if and only if all attempts give other bytes |
| Decoding.ReadFrom | src/volume/data_plane.rs:389-417 | shards are read from online, degraded and draining disks and from no others |
| Decoding.CollectShards | src/volume/data_plane.rs:389-417 | the shard loop fills each slot with verified data and reports every other shard |
| Decoding.NoFindingsIff | src/volume/data_plane.rs:389-417 | no damage is reported if and only if every shard is in range and verified |
| Decoding.ReadSingle | src/volume/data_plane.rs:576-630 | the single-shard path refines its specification, with the damage found, and reports damage if and only if it fails |
| Decoding.ReadBlock | src/volume/data_plane.rs:368-459 | block decoding with its cache, layout, reconstruction and digest checks refines the decoding that DecodeExact is about, and reports exactly the findings NoFindingsIff is about, none on a cache hit |
| Decoding.CacheAnswers | src/volume/data_plane.rs:368-388 | an unencrypted block is read from a cached value of its size and digest whatever its devices do; an encrypted one never is |
| Decoding.DecodeAgrees | src/volume/data_plane.rs:368-459 | whatever devices, cache and libraries do, any two successful reads of a block agree |
| Decoding.EncodeCarries | src/volume/data_plane.rs:685-835 | an encoded block records the digests of a codeword that opens to its data |
| Decoding.DecodeExact | src/volume/data_plane.rs:368-459 | a written block decodes to its data if it is cached or k shards verify, and to an error otherwise |
| Decoding.SurvivesLosses | src/volume/data_plane.rs:368-459 | with at most m shards missing or corrupt a written block decodes to its data |
| WriteRead.EncodeTiles | src/volume/data_plane.rs:685-835 | the blocks of a write tile its range in consecutive pieces |
| WriteRead.TileOf | src/volume/data_plane.rs:685-835 | exactly one block spans each byte of the range and holds it |
| WriteRead.EncodeSums | src/volume/helpers.rs:325-335 | the sub-block digests recorded by a write are those of its data |
| WriteRead.WrittenTiles | src/volume/data_plane.rs:664-835 | the blocks of any write at any offset tile it, can be decoded, and carry sub-block digests that fit and can be checked |
| WriteRead.WriteThenRead | src/volume/data_plane.rs:326-459 | reading a file back gives its data if every stripe is cached or has k verified shards, and an error otherwise |
| WriteRead.PartExact | src/volume/data_plane.rs:461-574 | a part of a written block can be had if and only if the device serves the sub-blocks around it, or, without sub-block digests, the block decodes |
| WriteRead.WriteThenReadRange | src/volume/data_plane.rs:155-214 | a range of a written file reads back as that part of the data if it is not too large and its part of every block can be had, and is an error otherwise; damage outside the range does not matter |
| Reads.ReadWholeFile | src/volume/data_plane.rs:326-366 | the block loop refines the whole read that WholeIsContents and WriteThenRead are about, errors included |
| Reads.WholeIsContents | src/volume/data_plane.rs:326-366 | a whole read that succeeds returns the contents: at each byte the last block spanning it, else zero |
| Reads.CorruptInlineRefused | src/volume/data_plane.rs:155-366 | inline data that does not match its size or digest is never handed out |
| Reads.VerifySubblocks | src/volume/data_plane.rs:545-569 | the checksum loop accepts exactly when all sub-blocks of the window verify |
| Reads.ReadSubblocks | src/volume/data_plane.rs:516-573 | the window read refines the checked read whose bytes RangeVerified accounts for |
| Reads.RangeVerified | src/volume/data_plane.rs:516-573 | every byte a range read returns is the byte recorded by the digest of its sub-block |
| Reads.RangeIsRaw | src/volume/data_plane.rs:461-574 | the single-shard range path returns that slice of the block |
| Reads.CheckedRangeIff | src/volume/data_plane.rs:516-573 | with checkable digests of the content a range read succeeds if and only if the device hands out the content of the sub-blocks around it |
| Reads.RangeStepByte | src/volume/data_plane.rs:181-211 | one block changes exactly the bytes of the window it spans, to its own content |
| Reads.ReadFileRange | src/volume/data_plane.rs:155-214 | the block loop refines the range read that RangeIsContents is about, errors included |
| Reads.RangeIsContents | src/volume/data_plane.rs:155-214 | a range read that succeeds returns that part of the contents |
| Reads.RangeRefinesWhole | src/volume/data_plane.rs:155-214 | a range read agrees with the slice of a whole read, through whatever devices each went |
| Seek.InodeDataExtents | src/volume/helpers.rs:448-473 | clipping, sorting and merging refine the extents that ExtentsExact characterises |
| Seek.ExtentsExact | src/volume/helpers.rs:448-473 | the merged extents are sorted, separated and cover exactly the block bytes inside the file |
| Seek.SearchData | src/volume/helpers.rs:407-415 | the loop finds the least covered offset at or after the argument, or none exactly if there is none |
| Seek.SearchHole | src/volume/helpers.rs:435-445 | the loop finds the least offset at or after the argument that is not covered |
| Seek.SeekData | src/volume/helpers.rs:397-420 | the least data offset at or after the argument; an error if and only if there is none |
| Seek.SeekHole | src/volume/helpers.rs:422-446 | the least hole at or after the argument, the end counting as one; an error if and only if the argument lies beyond the end |
| Seek.HolesReadBackZero | src/volume/data_plane.rs:326-366 | bytes skipped as holes read as zero |
| RangeWrite.SplitBlocks | src/volume/data_plane.rs:251-265 | the loop separates the blocks kept from those reclaimed, as NoBlockForgotten and RewriteBytes use them |
| RangeWrite.NoBlockForgotten | src/volume/data_plane.rs:251-265 | every old block is kept or reclaimed, never both |
| RangeWrite.StoredFile.Finish | src/volume/data_plane.rs:289-323 | the new inode stays unless the commit is refused, and then the old one is back; an error after the commit leaves the change |
| RangeWrite.StoredFile.Rewrite | src/volume/data_plane.rs:217-324 | the window rewrite in place, its commit included, refines the rewrite that RewriteBytes is about |
| RangeWrite.StoredFile.Write | src/volume/namespace.rs:514-711 | the range write in place, its commit included, refines the write that WriteExact is about; an empty write commits nothing |
| RangeWrite.StoredFile.SetSize | src/volume/namespace.rs:726-787 | truncation in place, its commit included, refines the truncation that TruncateExact is about; an unchanged size commits nothing |
| RangeWrite.RewriteBytes | src/volume/data_plane.rs:217-324 | every byte after a window rewrite: from the window, or as before, or zero where a dropped block or inline data reached out of the window |
| RangeWrite.AppendExact | src/volume/namespace.rs:593-711 | an append at a stripe boundary adds its bytes and changes nothing else, inline files included |
| RangeWrite.WriteExact | src/volume/namespace.rs:514-591 | a write gives the plain result at every byte it does not lose and zero there |
| RangeWrite.WritePlainIff | src/volume/namespace.rs:514-591 | the plain result holds if and only if every byte lost was zero |
| RangeWrite.LossIffSticksOut | src/volume/data_plane.rs:251-292 | a window loses bytes if and only if inline data or a block it overlaps reaches out of it |
| RangeWrite.TruncateExact | src/volume/namespace.rs:726-787 | truncation cuts or pads with zeros at every byte it does not lose |
| RangeWrite.TruncatePlainIff | src/volume/namespace.rs:726-787 | truncation only cuts and pads if and only if every byte it loses below the cut was zero |
| RangeWrite.CutIffSticksOut | src/volume/namespace.rs:765-787 | a truncation can lose bytes below its cut if and only if the file is inline and the cut leaves the first stripe, or a block around the cut begins before the stripe of the cut |
| RangeWrite.GridLosesNothing | src/volume/namespace.rs:551-556 | blocks that follow the current stripe size are never lost by a write |
| RangeWrite.RunPlainIff | src/volume/namespace.rs:514-787 | over every run of writes and truncations, through failures, committed errors, layout changes and inlining, the file stays the plain one if and only if no call loses a byte that was not zero |
| RangeWrite.RunIsPlain | src/volume/namespace.rs:514-787 | while the stripe size stays and nothing is inlined no call loses a byte, so every run gives the plain file |
| RangeWriteSuccess.RewriteSucceedsIff | src/volume/namespace.rs:514-591 | a write that changes stripes succeeds if and only if the window around it can be read and its plain new content can be stored; it ends inline if and only if that is the whole file and is inlined |
| RangeWriteSuccess.AppendSucceedsIff | src/volume/namespace.rs:593-711 | an append at a stripe boundary succeeds if and only if inline data matches its digest and what it stores can be stored |
| RangeWriteSuccess.TruncateSucceedsIff | src/volume/namespace.rs:726-787 | truncation succeeds if and only if the window before a cut can be read and stored anew and growing inline data can be written as stripes |
| RangeWriteLoss.InlineDataLost | src/volume/data_plane.rs:267-292 | a small inline file written past its first stripe loses all it held |
| RangeWriteLoss.OldStripeLost | src/volume/data_plane.rs:251-265 | a file still in a wider stripe layout loses the rest of a stripe written to |
| RangeWriteLoss.OldStripeCut | src/volume/namespace.rs:765-787 | cutting one byte off such a file zeroes bytes before the cut |
| RangeWriteLoss.InlineDataCut | src/volume/namespace.rs:765-787 | so does cutting an inline file beyond its first stripe |
| WriteBack.TryMerge | src/frontend/fusefs.rs:152-177 | a merge is made exactly of touching extents within the limit and of no overflowing range; otherwise nothing changes |
| WriteBack.MergeIsBothWrites | src/frontend/fusefs.rs:152-177 | a merged extent acts as both writes in order on any content, within the limit, no filler byte showing |
| WriteBack.Frontend.QueueWriteback | src/frontend/fusefs.rs:275-291 | queueing in place refines the step that QueueRefines is about |
| WriteBack.Frontend.FlushInode | src/frontend/fusefs.rs:293-331 | flushing in place refines the step that FlushRefines is about, the dirty extent put back on every failure |
| WriteBack.Frontend.WriteFile | src/frontend/fusefs.rs:897-959 | the write call in place refines the step that ServeRefines and ServeAnswers are about |
| WriteBack.QueueRefines | src/frontend/fusefs.rs:275-291 | a queued write reads as applied; a refused one changes nothing |
| WriteBack.FlushRefines | src/frontend/fusefs.rs:293-331 | a flush, failed, short or committed with an error, leaves every file reading as before and succeeds only by emptying the buffer |
| WriteBack.ServeRefines | src/frontend/fusefs.rs:897-959 | after any write call the file reads as the plain file with the acknowledged prefix, or with what an unacknowledged direct write left behind; a buffered call that fails takes nothing |
| WriteBack.ServeAnswers | src/frontend/fusefs.rs:897-959 | a buffered call is answered in full unless it joins no dirty extent and the flush fails; a direct one with what the volume took unless flush, volume write or sync fail; the error is that of the step that failed |
| WriteBack.GoodVolumeAnswers | src/frontend/fusefs.rs:897-959 | with a volume that takes everything every call succeeds in full and reads as the plain write |
| WriteBack.ErrorUnchangedIff | src/frontend/fusefs.rs:897-959 | a failed call left the file as it was if and only if it was buffered, failed in its flush, or what its volume write left is what was there |
| WriteBack.ErrorsHarmlessIff | src/frontend/fusefs.rs:897-959 | whatever flush, volume write and sync do, an error means nothing changed if and only if the call is empty, buffered, or writes what is already there |
| WriteBack.ReadSeesLogical | src/frontend/fusefs.rs:859-895 | a read succeeds if and only if its flush does, and then returns every acknowledged write |
| WriteBack.RunRefines | src/frontend/fusefs.rs:275-959 | over every run each file with its dirty extent is the plain file with the writes that took effect, in order |
| WriteBack.SyncFailureChanges | src/frontend/fusefs.rs:950-952 | a synchronous write whose sync fails reports an error though the file has changed |
| WriteBack.CommittedFailureChanges | src/frontend/fusefs.rs:931-935 | so does a direct write whose volume write fails after its commit, with no sync involved |
| Handles.FuseHandles.constructor | src/frontend/fusefs.rs:94-99 | the empty table is good: all counts exact |
| Handles.FuseHandles.Open | src/frontend/fusefs.rs:102-113 | opening terminates while fewer than 2^64 - 1 handles are live and returns the first free nonzero handle in wrap-around order |
| Handles.FuseHandles.Close | src/frontend/fusefs.rs:123-138 | closing removes the handle and reports the last one of its file |
| Handles.SomeFree | src/frontend/fusefs.rs:102-113 | with fewer than 2^64 - 1 handles live some number is free |
| Handles.NextFreeUnique | src/frontend/fusefs.rs:102-113 | the handle opened next is determined |
| Handles.RunGood | src/frontend/fusefs.rs:94-138 | over every run the counts are exactly the open handles per file |
| Handles.LastIffZero | src/frontend/fusefs.rs:123-138 | a close reports last if and only if the count reaches zero |
| Handles.FullTableLoops | src/frontend/fusefs.rs:102-113 | with every number taken the search never ends |
| Paged.FromMetadata | src/metadata/store.rs:359-446 | the store holds exactly the pages of the document |
| Paged.PutDirectoryPages | src/metadata/store.rs:384-404 | the directory chunk loop adds exactly the pages of the entries of the inode |
| Paged.PutXattrPages | src/metadata/store.rs:405-425 | the extended-attribute chunk loop adds exactly the pages of the attributes of the inode |
| Paged.PutShardPages | src/metadata/store.rs:426-443 | the block chunk loop adds exactly the pages of the blocks of the inode |
| Paged.ChunkSizes | src/metadata/store.rs:384-443 | pages are full but for the last, and none is empty |
| Paged.CollectPages | src/metadata/store.rs:481-519 | the page loop, with its set of keys seen, refines the decoding that RoundTrip is about |
| Paged.RoundTrip | src/metadata/store.rs:448-563 | decoding the pages of a document gives the document, for all positive page sizes |
| Paged.DecodedKeysAreIds | src/metadata/store.rs:448-563 | whatever the pages, the keys of a decoded document are the ids of what they lead to |
| Paged.RoundTripIff | src/metadata/store.rs:359-563 | the store made of a document decodes to it if and only if the keys of the document are ids |
| Paged.SeenPages | src/metadata/store.rs:481-519 | in key order an inode's block pages come one by one from the first |
| Paged.PageDelta | src/metadata/store.rs:608-631 | the two loops give the deletions and the puts that DeltaApplies is about |
| Paged.ApplyDelta | src/metadata/store.rs:572-582 | the delta application loop stops at the first refused page |
| Paged.DeltaApplies | src/metadata/store.rs:608-631 | the delta between two sound stores is accepted in full and gives the next store, page transaction numbers aside |
| Paged.DeltaMinimal | src/metadata/store.rs:608-631 | the delta deletes exactly the pages that are gone and puts exactly those new or with another body, so it is empty if and only if the stores hold the same bodies |
| Paged.SameDecoded | src/metadata/store.rs:448-563 | page transaction numbers do not reach the decoded document |
| Paged.DeltaDecodes | src/metadata/store.rs:572-631 | the patched store decodes to the document of the next store |
| Acl.Validate | src/security/acl.rs:170-240 | the validation loop decides validity |
| Acl.ParseBinary | src/security/acl.rs:131-168 | the chunk loop and validation accept exactly the values BinaryRoundTrip is about |
| Acl.BinaryRoundTrip | src/security/acl.rs:105-168 | a valid list survives its binary form if and only if no named id is 2^32 - 1, and is rejected otherwise |
| Acl.EntryLayout | src/security/acl.rs:105-130 | an entry on disk is the bit of its tag, its permissions and its id, low byte first |
| Acl.ParseText | src/security/acl.rs:25-70 | the entry loop and validation accept exactly the texts TextRoundTrip is about |
| Acl.TextRoundTrip | src/security/acl.rs:25-87 | a valid list survives its text form, every 32-bit id included |
| Acl.PermsText | src/security/acl.rs:489-496 | the eight permission texts from `---` to `rwx` |
| Acl.UndefinedIdRejected | src/security/acl.rs:105-168 | a valid list with the named id 2^32 - 1, which the text form takes and the binary form refuses |
| Acl.ApplyModeInPlace | src/security/acl.rs:287-304 | the in-place loop refines the mode application that ModeRoundTrip is about |
| Acl.ModeRoundTrip | src/security/acl.rs:287-331 | applying a mode and reading it back gives its permission bits over the other bits |
| Acl.ApplyKeepsValid | src/security/acl.rs:287-304 | applying a mode keeps a list valid and its named entries unchanged |
| Access.EvaluateNfs4 | src/security/acl.rs:397-429 | the one-pass loop decides as right by right first match (section 6.2.1 of RFC 7530) |
| Access.NamedRights | src/security/acl.rs:440-453 | an entry speaks about a right if and only if it lists one of its names |
| Access.PrincipalsMean | src/security/acl.rs:430-438 | an entry addresses everyone, the owner, the owning group, or one user or group by number, and nobody else |
| Access.EvaluatePosix | src/security/acl.rs:333-383 | owner, named user, union of matching groups right by right under the mask, others |
| Access.RightsAddUp | src/security/acl.rs:7-9 | read counts four, write two and execute one |
| Access.MinimalDecidesAsMode | src/security/acl.rs:333-395 | a three-entry list carrying a mode decides every access as the mode bits do |
| Access.EvaluateAccess | src/security/acl.rs:250-271 | the order of the decisions, root included |

## Left out

- Torn journal lines: a crash falls between the writes of a commit, not inside one journal append.
- Legacy record hashing, legacy metadata defaults, and the version and volume fields of journal records: branches that only enlarge the model.
- The metadata document beyond format, transaction number and integrity fields is an arbitrary JSON object; the typed fields of the source and their serialisation are not modelled.
- Guard.RunInv: models the operations submitted through one guarded backend; the flush of all devices, capacity queries and the length of timeouts are not part of it.
- StripeCapacity.MaxStripeUnits: the sum of capacities wraps at 2^64, as in a build without overflow checks; a checked build stops there instead.
- Placement.ChooseDisks: scores are an arbitrary ranking of the disks, and usage is that of the host backend; raw pools, whose allocator rounds up to blocks, are not covered by the admission theorem.
- Placement.AdmissionHolds: the stripe's own writes only; writes of other stripes between them are excluded by the lock the source holds.
- Allocator.RunKeeps: sums of extents are not limited to 64 bits, which they cannot exceed inside a region.
- Stripes.EncodeStripes: the clean-up after a failed write (deleting the shards written and restoring the metadata copy) is not modelled.
- Decoding.ReadBlock: what a decode stores in the cache and the latency figures it updates are not modelled; a cache may hold anything.
- Reads.RangeRefinesWhole: asks that the recorded sub-block digests are those of the block, which `WriteRead.WrittenTiles` proves of every written block.
- RangeWrite.RunPlainIff: quotas, reclamation of replaced blocks and deletion of the blocks of a refused commit are not modelled.
- RangeWrite.StoredFile.Finish: a refused commit puts the old inode back. After a conflict the source has reloaded the metadata other processes wrote, and with deferred commits on raw devices it keeps no copy to put back; neither is modelled.
- WriteBack.ServeRefines: the checks of the file handle before a write (known, of the same file, open for writing) are not modelled.
- WriteBack.RunRefines: write, read and flush calls on one file do not interleave inside a call; unlinking, the reap set and `fallocate` are not modelled.
- Handles.FuseHandles.Open: asks for fewer than 2^64 - 1 live handles, since the loop of the source ends only then.
- Paged.RoundTrip: header, disk and inode fields are carried as they are; values that JSON cannot carry are not modelled.
- Acl.ParseText: works on text; decoding bytes as UTF-8 and choosing between the text and binary forms are not modelled. JSON forms of NFSv4 lists and inheritance of default lists are not modelled.
- The block cache, the autopilot risk memory, scrubbing, rebalancing and reshaping loops, the command line, metrics, probing of disks and the raw superblock are not part of this model.
