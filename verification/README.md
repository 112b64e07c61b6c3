# containerd-manager in Dafny

A model, with proofs, of the stateful parts of containerd-manager: the log pipeline, copy-on-write
snapshots, bridge IP allocation, and the loops that run against a clock. Check it with
`dafny verify dfyconfig.toml`.

## What is modelled

**Log pipeline.** A tailer polls two growing raw files, splits them into lines with a bounded
leftover, writes length-prefixed records in batches to `events.log` and rotates a chain of five older
files. A follower polls `events.log`, decodes with a leftover of its own, resyncs after garbage and
notices rotation by inode. `Codec` and `EventParser` hold the record format and the parse loop,
`DecoderState` what a leftover means for the decoder, `Tailer`, `TailerPass` and `EventsDir` the writing
side, `Follower` the reading side, and `Pipeline` runs them
as one state machine in which the container, the tailer's passes and file operations, and the
follower's polls interleave in any order. The main theorems are `Pipeline.DeliveredIsExact`,
`Pipeline.QuiescentPollCompletes`, `Pipeline.DeliveredIsRawStretch` and, with renames at any moment,
`Handover.CompleteIff`.

**Snapshots.** `SnapshotStore` is the part of containerd the crate relies on: snapshots with a parent
and a diff, container records, tasks; a view is an overlay along the parent chain. `SnapshotOps` has
snapshot, clone, restore, reset, create and removal as methods that issue one request after another,
each of which may be lost; `SnapshotRuns` makes every operation a step and proves what any run of them
keeps of containers, committed snapshots and ownership. `CloneRace` interleaves any number of `ensure_clone_base` calls.

**Bridge addresses.** `BridgeAlloc` is the lock, scan, pick, create, release protocol over any number
of threads. **Clock loops.** `Deadlines` and `Backoff` cover `poll_until`, stop, delete, `wait_ready`
and the until-exit watcher. **Small grammars.** `Identifiers` and `Environment`.

## Hypotheses

Each of these is a place where the code does not give the unconditional claim; the exact condition or
a counterexample is proved where one is named.

- A poll in `Pipeline` is atomic: nothing is appended between its stat and the end of its read. Otherwise
  the late bytes are read twice (`Follower.LateBytesTwice`): whole records arrive twice
  (`Follower.LateRecordsTwice`), a record cut inside its payload can be lost
  (`Follower.LatePieceLosesRecord`), and no harm is done exactly when reading the bytes again yields
  nothing and leaves the decoder where it was (`Follower.LateHarmlessIff`).
- At a rename the follower has not joined, or reads the file being renamed with an empty leftover and
  no more outstanding than the drain cap (`Pipeline.HandoverReady`). The condition is exact over runs:
  `Handover.CompleteIff`. For one rotation it is `Follower.HandoverIff`; a second one between two polls
  loses the file in between (`Follower.MissedRotationIff`), which is never empty (`Handover.RenamedFile`).
- `Pipeline` runs passes without faults or raw truncation; `Tailer.PassConservesIff` says which faults
  lose data, and `Tailer.FinalDrainIff` when the last pass is enough.
- There is one tailer per container. On restart the code starts the new one before the old one stops
  (src/client.rs:383-390).
- Appends complete in order although nothing is flushed after the write (src/log_tailer.rs:279-283);
  a failed append leaves the files as they were.
- Inodes are never reused, renames succeed, and the shift of the rotated files is one step for the
  follower, which looks only at `events.log` and `events.log.1`.
- containerd: a taken commit name is reported before anything about the key; commit consumes the
  active key; a parent with children cannot be removed; a lost request had no effect; only a running
  task is stopped by a stop.
- Runs start where earlier processes left off: any chain of whole records for the pipeline, any records with
  distinct octets for the bridge. `Handover.CompleteIff` takes an `events.log` left behind to be non-empty.
- A failed task lookup reads as no task (src/inspect.rs:177-184). So a stop may report Ok on a running task
  (`Deadlines.StopOkMeansStoppedIff`), and a snapshot or a clone may commit under one, as under a paused
  task (src/snapshot.rs:119-127). What such a task writes afterwards goes through its old mount, which the
  model does not have.
- Every record has its own active layer (`SnapshotOps.Owned`) throughout a run exactly when no operation
  meets one of four failures: a lost re-prepare in a snapshot or a clone, five lost prepares (or no
  committed snapshot to prepare on) in a reset, and a removal that loses the deletion of the record but
  not that of the layer (`SnapshotRuns.RunOwnedIff`).
- A snapshot's name may be the layer key of some id, and removing that id, which needs no record, takes the
  snapshot away (`SnapshotRuns.LayerNameLosesSnapshot`); `SnapshotRuns.RunSnapshotKeptIff` is exact.
- Bridge addresses are distinct within a namespace; across namespaces they are so exactly under the condition
  of `BridgeAlloc.RunDistinctIff`, which the per-namespace scan does not ensure
  (`BridgeAlloc.NamespacesCollide`).

## Where code and comments disagree

The model follows the code.

- src/logs.rs:541-544 says bytes appended before a rotation are missed; the code drains them from `.1`.
- src/log_tailer.rs:286-290 and 320 say a follower sees no missing file; between the rename and the
  recreate there is none, and a poll there is a step of `Pipeline`.
- src/task.rs:429 gives 3 timeouts as the worst case of a delete; there are four phases of one timeout
  each (`Deadlines.DeleteTakesFourTimeouts`).
- src/client.rs:456 puts sixty failures at about 15 s; with the backoff it is 282.75 s
  (`Backoff.GiveUpAfter`).

## Model

| member | source | states |
|---|---|---|
| `Codec.UnixMillis` | src/logs.rs:139-142 | The stored millisecond value is the reading rounded down, 0 before the epoch, and saturates at the largest u64 |
| `Codec.EncodeRecordInto` | src/logs.rs:133-155 | Pushing the fields one by one appends exactly one record in the length-prefixed format and leaves the buffer before it alone |
| `Codec.DecodeEncode` | src/logs.rs:170-231 | Decoding an encoding followed by any bytes gives back that record and its exact length, with newlines or binary data in the payload; the one exception is a payload above the cap, which is Malformed |
| `Codec.DecodeStrictPrefix` | src/logs.rs:170-217 | Every strict prefix of an encoded record is NeedMore, never Malformed |
| `Codec.HeaderStable` | src/logs.rs:170-211 | A header verdict, good or bad, is not revised by appended bytes |
| `Codec.DecodeStable` | src/logs.rs:170-231 | A Record or Malformed verdict is unchanged whatever is appended |
| `Codec.DecodedIsAtLeastEncoding` | src/logs.rs:170-231 | No byte string, canonical or not (leading zeros, a plus sign), decodes to a record in fewer bytes than that record's encoding |
| `Codec.HeaderBytes` | src/logs.rs:147-152 | A header has no newline and at most 44 bytes |
| `Bytes.ParseDecimal` | src/logs.rs:147-152 | Decimal printing followed by the decoder's u64 parse is the identity on every u64 |
| `Bytes.ParseU64Iff` | src/logs.rs:178-180 | The number parser accepts exactly an optional plus sign, any zeros and the decimal notation of a u64 |
| `EventParser.ParseEventsFile` | src/logs.rs:249-270 | The cursor loop terminates and returns the entries of the reference parse of the whole file |
| `EventParser.ParseIncremental` | src/logs.rs:634-671 | For any bytes at all, parsing a first piece and then its leftover followed by a second piece equals parsing both at once, entries and leftover |
| `EventParser.RestWaits` | src/logs.rs:252-268 | The parse loop stops only where neither a record, nor a resync, is possible |
| `EventParser.PollIndependence` | src/logs.rs:622-671 | For any stream, well formed or not, and any split into polls, entries and leftover equal one run of the whole-stream parser, provided the stuck-leftover guard does not fire at one of those polls |
| `EventParser.ParseEncodedPrefix` | src/logs.rs:249-270 | Any prefix of an encoded list parses to exactly its whole records, and the leftover is a strict prefix of the next record |
| `EventParser.ParseEncodeAll` | src/logs.rs:249-270 | Parsing a concatenation of encodings returns the list, with nothing left over |
| `EventParser.ParseBudget` | src/logs.rs:249-270 | The encodings of the entries a parse yields, plus its leftover, never exceed the bytes it was given |
| `EventParser.ResyncRecovers` | src/logs.rs:238-270 | A newline-free garbage line judged Malformed with its newline, or holding no space, placed before any list of records, is skipped and every record recovered |
| `EventParser.GuardSparesIff` | src/logs.rs:659-671 | The guard leaves every partial read of a record alone if and only if its encoding is at most one byte over the cap or has a newline within the first cap + 1 bytes |
| `DecoderState.DecodeStaged` | src/logs.rs:170-231 | The decoder's verdict is reached in stages: time, stream, length, payload |
| `DecoderState.RecordIff` | src/logs.rs:170-231 | The decoder accepts exactly a time and a length that parse as u64, an o or an e, single spaces, as many bytes as the length says, at most 16 MiB, and a newline, and consumes just that |
| `DecoderState.NeedMoreIff` | src/logs.rs:172-217 | The decoder asks for more exactly on bytes whose next field has not ended or whose payload is not complete; everything else that is no record is Malformed |
| `DecoderState.Resumes` | src/logs.rs:622-671 | What a leftover yields with any continuation depends only on the state it leaves the decoder in, not on how its numbers are written or on lines that can hold no record |
| `DecoderState.Separate` | src/logs.rs:170-231 | For any two different states there is a continuation that yields different entries |
| `DecoderState.SameStateIff` | src/logs.rs:622-671 | Two leftovers yield the same entries whatever follows if and only if they leave the decoder in the same state |
| `Tailer.BuildBatch` | src/log_tailer.rs:241-261 | The newline loop writes one record per line, then a flush of an oversize rest, and keeps exactly the specified leftover |
| `Tailer.SplitKeepsBytes` | src/log_tailer.rs:246-261 | Lines and rest concatenate to the input, each line has its one newline at its end, the rest has none |
| `Tailer.SplitIncremental` | src/log_tailer.rs:227-261 | Splitting in two pieces with the rest carried over equals splitting at once |
| `Tailer.CutKeepsBytes` | src/log_tailer.rs:246-261 | Payloads plus leftover are the bytes of the pass; the leftover has no newline and stays under the cap; each payload is one line or a newline-free flush of at least the cap |
| `Tailer.TailState.Drain` | src/log_tailer.rs:185-261 | A pass up to its append: new position, leftover and handle, the exact batch, and whether it fails, for every fault |
| `Tailer.PassShape` | src/log_tailer.rs:185-266 | Which observations make a pass split and advance, and what every other pass leaves as it was |
| `Tailer.PassConservesIff` | src/log_tailer.rs:185-266 | A pass conserves the raw bytes if and only if no read fails on a non-empty leftover and no append fails on a non-empty batch; open, stat and seek failures lose nothing |
| `Tailer.PassReports` | src/log_tailer.rs:164-266 | A pass reports an error exactly when a step it gets to fails, and holds the raw file open afterwards unless it could not be opened or was found truncated |
| `Tailer.TailerLoop` | src/log_tailer.rs:104-149 | The loop gives up after the first turn at which fifty passes in a row of one stream have failed, and not before |
| `Tailer.TruncationRestarts` | src/log_tailer.rs:208-215 | A truncated raw file drops the partial line and the handle, emits nothing, and starts conservation anew on the new contents |
| `Tailer.RunConserves` | src/log_tailer.rs:108-149 | Over every all-Ok run without truncation, record data plus leftover equals the raw bytes up to the position, the leftover is newline-free and under the cap, and every payload is a line or a flush within the size limit |
| `Tailer.TimingIndependence` | src/log_tailer.rs:108-149 | If no line reaches the cap, the payload sequence is the lines of the bytes read, whenever the passes happen |
| `Tailer.FinalDrainIff` | src/log_tailer.rs:151-159 | The single pass on stop carries over the whole raw file if and only if at most one read chunk is outstanding and what follows the last newline is empty or long enough to be flushed |
| `TailerPass.DrainIntoEvents` | src/log_tailer.rs:185-284 | A whole pass on stream state and directory: a failed append loses the batch after the position moved, otherwise the directory gains exactly the encoded batch |
| `EventsDir.EventsFiles.RenameChain` | src/log_tailer.rs:306-326 | The descending rename loop moves every file one slot older and drops the oldest |
| `EventsDir.EventsFiles.Open` | src/log_tailer.rs:327-335 | An existing file is kept, a missing one created empty with a new inode |
| `EventsDir.EventsFiles.RotateIfNeeded` | src/log_tailer.rs:291-337 | Rotation happens exactly when the batch would push the file past the limit |
| `EventsDir.EventsFiles.AppendBatch` | src/log_tailer.rs:268-284 | The directory after an append is the specified one: rotated if needed, batch at the end of events.log |
| `EventsDir.AppendHolds` | src/log_tailer.rs:268-337 | One append moves the files and the abstract groups of batches together |
| `EventsDir.ChainHolds` | src/log_tailer.rs:268-337 | Over every run of appends the chain has no gaps, holds exactly the groups, and every file is within the limit or a single batch |
| `EventsDir.FilesAreFull` | src/log_tailer.rs:302-304 | Each file is within 10 MiB or a single batch, and a newer one was started only because its first batch would not have fitted in the one before |
| `EventsDir.ChainIsSuffix` | src/log_tailer.rs:286-337 | The batches on disk, oldest first, are a suffix of all batches ever appended, and nothing is pruned before there are six files |
| `EventsDir.ReadChain` | src/logs.rs:309-314 | Reading the files oldest first gives the entries of the chain in order; missing files read as empty |
| `EventsDir.ContainerLogsFiltered` | src/logs.rs:305-329 | Without a tail, the whole since/until filter of the chain; with one, what is dropped comes first, at most that many entries stay, and fewer only when nothing is dropped; both bounds are inclusive |
| `EventsDir.RetainTwice` | src/logs.rs:316-321 | Filtering by since and then by until is filtering by both |
| `EventsDir.RetainCounts` | src/logs.rs:316-321 | The filter keeps every occurrence of an entry from since to until, both included, and no other |
| `EventsDir.RetainAppend` | src/logs.rs:316-321 | The filter acts piece by piece, so it keeps the order |
| `EventsDir.LogsAreFilteredSuffix` | src/logs.rs:305-329 | After any run of appends a reader gets the filter of a suffix of all records, that suffix being whole batches |
| `EventsDir.ChainReadsSuffix` | src/logs.rs:309-314 | Reading the chain gives back exactly the batches it still holds, the last ones appended |
| `Follower.EventsFollower.PollOnce` | src/logs.rs:545-673 | One poll's new state and delivered entries, for a missing, unchanged, grown, truncated or rotated file and for bytes that arrive after the stat; LateFromAnywhere says what they are |
| `Follower.DrainRemainder` | src/logs.rs:410-482 | The drain yields the records of .1 from the old position, capped, and nothing when .1 is missing, shorter or another file |
| `Follower.DecodeLoop` | src/logs.rs:634-660 | The decode loop's entries and remainder are those of the reference parse |
| `Follower.PollSynced` | src/logs.rs:580-671 | A poll of the file it is synced to delivers exactly the records completed since, however appends were cut |
| `Follower.TruncationRestarts` | src/logs.rs:599-609 | A truncated events.log is read again from its start, exactly as by a follower that just joined, with the partial record dropped |
| `Follower.PrefixNeverStuck` | src/logs.rs:659-671 | No cut of a stream of records within the tailer's size limit trips the stuck-leftover guard |
| `Follower.HandoverIff` | src/logs.rs:410-482 | Draining .1 from the old position completes the old file if and only if the follower holds no partial record and the remainder is within the drain cap |
| `Follower.ThresholdFitsDrain` | src/logs.rs:457-466 | A remainder within the rotation threshold is always drained whole |
| `Follower.DrainedUpToCap` | src/logs.rs:457-480 | From a record boundary the drain yields exactly the records that are whole within 16 MiB |
| `Follower.MissedRotationIff` | src/logs.rs:441-445 | After a second rotation between polls, what the next poll delivers is complete if and only if the old file had been read to its end and the file in between held nothing |
| `Follower.LateRecordsTwice` | src/logs.rs:580-632 | Whole records that land between the stat and the end of the read are delivered exactly twice; delivery is exact if and only if there are none |
| `Follower.LateBytesTwice` | src/logs.rs:580-632 | For any leftover and any bytes, two polls deliver the parse of the stream with the late bytes in it twice, provided the guard is silent at the first |
| `Follower.LateFromAnywhere` | src/logs.rs:580-632 | For a follower that joins, notices a rotation or a truncation, or carries on: the poll delivers what was left behind and the file to the end of the read, late bytes included, sets its position from the stat, and the next poll reads the late bytes again |
| `Follower.LateAfterDiscard` | src/logs.rs:659-668 | When the guard fires at the first poll, what it held is gone and the next poll starts from the late bytes |
| `Follower.LateUnnoticed` | src/logs.rs:612-614 | A poll that finds nothing new at its stat reads nothing, and late bytes do no harm |
| `Follower.LateHarmlessIff` | src/logs.rs:580-632 | Late bytes do no harm, however the stream goes on, if and only if reading them again yields nothing and leaves the decoder in the state it was in |
| `Follower.LatePieceLosesRecord` | src/logs.rs:580-632 | A late piece that ends inside a newline-free payload loses its record: every cut after the header, any records before and after |
| `Follower.PollFromBoundary` | src/logs.rs:580-671 | A poll from a record boundary delivers the records up to the end of the read and sets the position from the stat |
| `Pipeline.TailStep` | src/log_tailer.rs:185-266 | Every step keeps conservation on both streams and the size limit of every record |
| `Pipeline.FileStep` | src/log_tailer.rs:268-337 | Every step keeps events.log plus the bytes in flight equal to the encodings of the records since the last rotation |
| `Pipeline.StepsAreAppend` | src/log_tailer.rs:268-284 | The file steps of one append, taken without interruption, are append_batch |
| `Pipeline.FollowQuiet` | src/log_tailer.rs:185-266 | A raw write or a tailer pass leaves the follower's situation as it was |
| `Pipeline.FollowWrite` | src/log_tailer.rs:270-283 | Creating or extending events.log, in pieces of any size, keeps the follower synced |
| `Pipeline.FollowRename` | src/log_tailer.rs:320-326 | A rename at a ready moment hands the follower's file to .1, complete |
| `Pipeline.PollBehind` | src/logs.rs:583-610 | Noticing a rotation completes the old file by the drain and then reads the new one from its start |
| `Pipeline.FollowPoll` | src/logs.rs:545-673 | A poll leaves the follower reading the current file; one that lands between rename and recreate changes nothing |
| `Pipeline.InvStep` | src/logs.rs:484-673 | Every allowed step of container, tailer and follower keeps the whole invariant |
| `Pipeline.RunInv` | src/logs.rs:484-673 | The invariant holds in every state reachable from any chain of whole records that earlier processes left |
| `Pipeline.DeliveredIsExact` | src/logs.rs:484-673 | Over every interleaving the delivered entries are an unbroken stretch of the records produced, from the one the follower joined at: no loss, duplication or reordering |
| `Pipeline.QuiescentPollCompletes` | src/logs.rs:502-511 | A poll with no batch in flight has delivered every record produced since the follower joined |
| `Pipeline.RecordsFit` | src/log_tailer.rs:26-35 | In every run each record of this process has at most one leftover and one chunk of data, the decoder accepts every record before any bytes, and no cut of the stream trips the guard |
| `Pipeline.DeliveredIsRawStretch` | src/log_tailer.rs:96-162 | On each stream, the data of this process's records before the follower joined followed by the data of this process it was delivered is a prefix of what the container wrote |
| `Pipeline.DeliveredIsRawPrefix` | src/log_tailer.rs:96-162 | For a follower that joined before this process's first rotation the delivered data of this process alone is a prefix of what the container wrote |
| `Handover.CompleteIff` | src/logs.rs:545-673 | Over every run, with renames at any moment, that comes to rest with events.log in place, one more poll has delivered every record since the follower joined if and only if every rename found the follower ready for it |
| `Handover.RenamedFile` | src/log_tailer.rs:320-326 | A file being renamed always holds a record, so a second rotation between polls always loses some |
| `Handover.LedgerStep` | src/logs.rs:545-673 | Every step, ready or not, keeps the account of bytes: a follower never holds more than it read, and one byte less once a rename came too early |
| `Handover.LedgerPoll` | src/logs.rs:583-632 | A poll settles the account: nothing lost at a rotation is ever made up |
| `Handover.RunLedger` | src/logs.rs:484-673 | The account holds in every reachable state of every run |
| `SnapshotStore.ApplyWellFormed` | src/snapshot.rs:141-197 | Every request keeps each parent present, committed and older than its children |
| `SnapshotStore.StepFrame` | src/snapshot.rs:141-197 | A request leaves every snapshot it is not about in place with the same view |
| `SnapshotStore.CommitMovesView` | src/snapshot.rs:141-152 | A commit moves the active layer's view to the new name and consumes the key |
| `SnapshotStore.PrepareInheritsView` | src/snapshot.rs:174-184 | A new active layer starts with its parent's view |
| `SnapshotStore.WriteShows` | src/clone.rs:1-8 | A write changes its own layer's view at its path and nowhere else |
| `SnapshotStore.RunIsolation` | src/clone.rs:138-225 | Over any sequence of requests, a snapshot none of them is about keeps its view |
| `SnapshotStore.CommittedSurvives` | src/snapshot.rs:9-12 | Over any run of requests a committed snapshot stays as it is, view and all, at every moment if and only if no request takes it away |
| `SnapshotStore.SnapshotRoundTrip` | src/snapshot.rs:216-248 | Commit, then any requests that do not take the snapshot away, then prepare: the new layer shows the source as it was at the commit |
| `SnapshotOps.SnapshotKeyInjective` | src/container.rs:32-34 | Keys are the id and -snapshot, and two containers never share one |
| `SnapshotOps.ManagedImageIff` | src/snapshot.rs:468-501 | A snapshot is taken for managed exactly when its marker is 1 and it names its image; a missing one, an unmarked one and one without an image are told apart |
| `SnapshotOps.OwnedAfter` | src/container.rs:671-692 | Ownership carries over requests about other keys |
| `SnapshotOps.SnapshotIsOperation` | src/snapshot.rs:100-214 | Whatever a snapshot does, successful or not, concerns its source's layer and its name only |
| `SnapshotOps.CloneIsOperation` | src/clone.rs:98-176 | Whatever a clone does concerns its source, its destination and a base that is no container's layer |
| `SnapshotOps.OwnLayerIsOperation` | src/task.rs:374-379 | What create, restore, reset and removal do concerns one container's layer only |
| `SnapshotOps.ContainersIsolated` | src/clone.rs:138-225 | An operation on some containers never changes another's record, layer or view |
| `SnapshotOps.OperationsIsolated` | src/clone.rs:138-225 | Over any run of operations on other containers, in any order and with any failures, a container keeps its record, its layer and its view (committed snapshots: SnapshotRuns.RunSnapshotKeptIff) |
| `SnapshotOps.StopAndDeleteTask` | src/task.rs:304-330 | Only task records change; the one asked for is deleted exactly when it could be stopped and the delete got through, and a paused one stays |
| `SnapshotOps.StartAgain` | src/snapshot.rs:199-210 | A restart changes tasks only, and only where asked for |
| `SnapshotOps.CommitAndReprepare` | src/snapshot.rs:141-197 | Commit and re-prepare keep the source's view and give the name the same view; a lost re-prepare leaves no layer, and the name exactly when the rollback is lost too |
| `SnapshotOps.SnapshotContainer` | src/snapshot.rs:100-214 | Succeeds exactly when the commit goes through and the re-prepare is not lost; then name and source both show the source's view; a taken name is SnapshotAlreadyExists; a source seen running is running again even after a failed commit, and a paused one, or one whose task lookup went unanswered, keeps its task through the commit; ownership is lost exactly on a lost re-prepare |
| `SnapshotOps.RollbackErasesSource` | src/snapshot.rs:184-196 | The rollback after a lost re-prepare leaves the store without the source's layer and with its contents nowhere else |
| `SnapshotOps.CreateContainer` | src/container.rs:671-804 | Creates a record on its own new layer showing the image; on failure a layer is left behind exactly on the exits between prepare and create or when the rollback is lost |
| `SnapshotOps.InstantiateOn` | src/clone.rs:151-175 | Prepares a layer and creates a record on it, succeeding exactly under the stated condition; a failure whose cleanup succeeds leaves the snapshots as they were |
| `SnapshotOps.EnsureCloneBase` | src/clone.rs:180-225 | Reuses the base or commits the source into it, unmanaged; the source keeps its view; a lost re-prepare leaves the source without a layer |
| `SnapshotOps.CloneInner` | src/clone.rs:138-176 | Succeeds exactly when a committed base is found or made and the destination is free; the clone shows the base, the source keeps its view, a failed clone whose cleanup succeeds leaves no destination layer |
| `SnapshotOps.CloneContainer` | src/clone.rs:98-136 | The same for the whole clone with stop and restart: a source not seen running keeps its task, one seen running ends up running exactly when a restart is asked for and gets through, nobody else's task changes; a source that is not stranded keeps record, layer and view, whatever became of the clone; ownership is lost exactly when a re-prepare is lost |
| `SnapshotOps.RestoreContainer` | src/snapshot.rs:216-293 | Succeeds exactly on a managed snapshot that can be prepared on and a free destination; the new container shows the snapshot and runs its image; a failure whose cleanup succeeds changes nothing |
| `SnapshotOps.PrepareWithRetries` | src/snapshot.rs:368-405 | The five-attempt loop succeeds exactly when the prepare is acceptable and one of five requests gets through, and prepares once |
| `SnapshotOps.ResetToSnapshot` | src/snapshot.rs:309-413 | On success the container shows the snapshot and its record is untouched; it loses its layer exactly when the layer was removed and no prepare then succeeds; a failed check changes nothing; the task is gone afterwards unless restarted, and no other is touched |
| `SnapshotOps.RemoveContainer` | src/task.rs:332-390 | Record and layer go; a layer with children stays; ownership survives unless the record's deletion is lost while the layer's removal is not |
| `SnapshotOps.RemovalOwnership` | src/task.rs:352-379 | Ownership after the two requests, in both directions |
| `SnapshotOps.DeleteSnapshot` | src/snapshot.rs:447-466 | Removes a snapshot exactly when it is managed and nothing is built on it, and costs no container its layer, since no layer is managed |
| `SnapshotOps.DeleteIsOperation` | src/snapshot.rs:447-466 | Whatever a deletion does concerns its own name, which is no container's layer |
| `SnapshotOps.RunUnmanaged` | src/snapshot.rs:14-16 | No run of requests puts the managed marker on a writable layer |
| `SnapshotOps.TraceKeepsCommitted` | src/snapshot.rs:9-12 | Requests about other keys leave every committed snapshot as it is |
| `SnapshotRuns.Perform` | src/snapshot.rs:100-466 | Every operation is one step of the run relation: what it concerns, what it drops, whether it strands a record, what a success shows, and exactly when it succeeds |
| `SnapshotRuns.RunOwnedIff` | src/container.rs:29-34 | Over any run of operations every record has its own active layer throughout if and only if no operation meets one of the four failures that strand one |
| `SnapshotRuns.RunIsolated` | src/clone.rs:1-8 | Over any run of clone, snapshot, restore, reset, create, removal, deletion and writes on others, and of snapshots and clones of it that do not strand it, a container keeps record, layer and view |
| `SnapshotRuns.RunTaskKept` | src/clone.rs:110-132 | Over any run of operations a container's task is what it was unless it was itself copied or reset |
| `SnapshotRuns.RunSnapshotKeptIff` | src/snapshot.rs:9-12 | Over any run of operations a committed snapshot stays as it is throughout if and only if no step deletes it by name, removes an id whose layer key is its name, or resets a record of that key |
| `SnapshotRuns.ResetSparesCommitted` | src/snapshot.rs:357-366 | While ownership holds a reset never drops a committed snapshot |
| `SnapshotRuns.RoundTrip` | src/snapshot.rs:216-293 | From a successful snapshot through any run that does not drop it: a restore into a free container succeeds exactly without faults, and restore and reset both show the source as it was, with its image and, for reset, an untouched record |
| `SnapshotRuns.ClonesAgree` | src/clone.rs:3-6 | While the base is kept, every later clone of a source shows what the first one did, whatever was written to the source meanwhile |
| `SnapshotRuns.LayerNameLosesSnapshot` | src/task.rs:374-379 | A snapshot, a removal and another removal, all reporting Ok: a snapshot named like the layer of an unused id is lost when that id is removed, and with it the last copy of its source |
| `CloneRace.InvStep` | src/clone.rs:180-225 | Every request of every racing call, answered or lost, and every write to the source in between, keeps the invariant; a winner and what it froze stay |
| `CloneRace.RunInv` | src/clone.rs:180-225 | The invariant holds after every interleaving of any number of calls |
| `CloneRace.CommittedOnce` | src/clone.rs:199-216 | The base is committed at most once and keeps the source's view at that commit, writes during the race included |
| `CloneRace.OkSeesBase` | src/clone.rs:187-225 | Every Ok return sees the base committed with the source's view |
| `CloneRace.OkIffNothingLost` | src/clone.rs:187-225 | A call that has returned returned Ok if and only if none of its own requests was lost: losing the race for the commit is no error |
| `CloneRace.SourceRestoredIff` | src/clone.rs:212-225 | After all calls return, the source has its layer back with everything written to it if and only if nobody committed or the winner returned Ok; otherwise it has no layer and the base holds all it showed |
| `CloneRace.LaterCallsDoNotRepair` | src/clone.rs:188-194 | After a lost re-prepare a later call returns Ok at the stat and leaves the source without a layer |
| `BridgeAlloc.LabelRoundTrip` | src/bridge.rs:94-97 | The scan reads back exactly the octet the allocation printed into the label |
| `BridgeAlloc.ParseOctetIff` | src/bridge.rs:94-97 | The scan takes exactly the dotted quads of plain decimal numbers up to 255 for addresses, and keeps the last number |
| `BridgeAlloc.PickFreeOctet` | src/bridge.rs:81-92 | Any pick is a free octet in 2..254, every free octet can be picked, and none is exactly when all 253 are used |
| `BridgeAlloc.InvStep` | src/bridge.rs:72-118 | Every step of every thread keeps distinct octets, mutual exclusion and the freshness of a picked octet |
| `BridgeAlloc.RunInv` | src/bridge.rs:72-118 | The invariant holds after every interleaving of creates, failures and deletes |
| `BridgeAlloc.OctetsDistinct` | src/container.rs:696-715 | From any records with distinct octets that earlier processes left, bridge containers of one namespace have pairwise distinct addresses 10.88.1.2 to 10.88.1.254, because the guard outlives the create |
| `BridgeAlloc.LockHeldIff` | src/bridge.rs:54-67 | The guard is never left behind: the lock is held exactly while a thread is between its acquire and its create, failure or exhaustion |
| `BridgeAlloc.DeleteFrees` | src/bridge.rs:99-118 | A deleted container's octet can be handed out again |
| `BridgeAlloc.ExhaustedIff` | src/bridge.rs:72-118 | Over every run, a thread that has scanned can report exhaustion if and only if at its last scan each of 2..254 was the label of a record of its namespace, so at least 253 records were labelled |
| `BridgeAlloc.NextAfterScan` | src/bridge.rs:72-79 | The picking loop takes exactly the steps a scanned thread may take, and reports exhaustion exactly when no pick is possible |
| `BridgeAlloc.NamespacesCollide` | src/bridge.rs:103-118 | For any two namespaces and any octet some run ends with a bridge container in each on the same address |
| `BridgeAlloc.CreateDistinctIff` | src/bridge.rs:103-118 | A create keeps addresses distinct across namespaces if and only if no bridge container of any namespace holds its octet |
| `BridgeAlloc.RunDistinctIff` | src/bridge.rs:54-61 | Over every run addresses are distinct across namespaces throughout if and only if no create took an octet held in some namespace |
| `Deadlines.PollUntilLoop` | src/util.rs:10-30 | The loop is the specified poll |
| `Deadlines.PollBound` | src/util.rs:10-30 | With each probe costing at most d, polling ends within timeout + interval + d |
| `Deadlines.PollMeaning` | src/util.rs:21-29 | Ok means the last probe said yes and no earlier one; an error means none did and the timeout had passed |
| `Deadlines.PollOkIff` | src/util.rs:21-29 | Polling succeeds if and only if the first probe to say yes starts before the timeout has passed |
| `Deadlines.StopContainerSteps` | src/task.rs:393-418 | Ends within the timeout, two poll intervals and seven requests; reports Ok exactly when the look after the grace period is not Running or the wait after SIGKILL sees it stopped in time; Ok means the last look was not Running |
| `Deadlines.StopBound` | src/task.rs:393-418 | A stop ends within the timeout plus two poll intervals and seven requests, an inspection being two |
| `Deadlines.StopOkMeaning` | src/task.rs:407-417 | Ok means the last look did not show a running task |
| `Deadlines.StopOkIff` | src/task.rs:393-418 | A stop reports Ok if and only if the look after the grace period, half the timeout and at most 5 s, does not show a running task, or the wait after SIGKILL sees no task, no container, a stopped task or no answer about the task within the rest of the budget |
| `Deadlines.SigkillAfterGrace` | src/task.rs:398-411 | SIGKILL comes after the first answer that looks stopped within half the timeout and 5 s of SIGTERM, and otherwise after that time, at most one interval and three requests later |
| `Deadlines.StopOkIsNotStopped` | src/inspect.rs:155-184 | The failing families, for every timeout: a look that shows a paused task or goes unanswered, and a running task whose lookup goes unanswered once after SIGKILL |
| `Deadlines.StopOkMeansStoppedIff` | src/task.rs:407-417 | Ok means confirmed stopped if and only if the look after the grace period is itself a confirmed stop, or shows Running and the first answer after SIGKILL that looks stopped in time is a confirmed one |
| `Deadlines.DeleteContainerSteps` | src/task.rs:421-500 | Ends within four timeouts, three poll intervals and nineteen requests; reports Ok exactly when each of the three phases gets its first yes within its own timeout |
| `Deadlines.DeleteBound` | src/task.rs:421-500 | A delete ends within four timeouts, three poll intervals and nineteen requests; a successful one saves an interval |
| `Deadlines.DeleteOkIff` | src/task.rs:421-500 | A delete reports Ok if and only if the task's deletion, an inspection that shows no task (a failed one included) and one that says the container is gone each come within their own timeout; how the stop went plays no part |
| `Deadlines.DeleteTakes` | src/task.rs:421-500 | A successful delete takes the stop, its three phases up to their first yes, and the removal, one after the other |
| `Deadlines.DeleteTakesFourTimeouts` | src/task.rs:429-430 | Three timeouts are not a bound: for every timeout of an even number of poll intervals a successful delete with instant answers can take four timeouts and two intervals, the most it can take |
| `Deadlines.RetryDeleteTask` | src/task.rs:267-302 | The retry loop ends within the timeout, one sleep and one request, and reports Ok exactly when an attempt that gets made deletes the task |
| `Deadlines.RetryOkIff` | src/task.rs:267-302 | An attempt gets made exactly when all before it are worth a retry and the previous one ended before the deadline |
| `Backoff.CappedStep` | src/readiness.rs:142-145 | One doubling step up to a cap is one step of min(base * 2^k, cap) |
| `Backoff.WaitReady` | src/readiness.rs:106-147 | Reports Ready exactly when a look that gets made shows a running task whose check passes, and TimedOut exactly when the last look shows one still starting or a failed check |
| `Backoff.WaitBound` | src/readiness.rs:106-147 | A backoff-driven wait ends within the timeout, two seconds and one look |
| `Backoff.WaitMeaning` | src/readiness.rs:110-147 | Each verdict comes from the one kind of last look that stands for it; every earlier look showed a task still starting or a failed check |
| `Backoff.ReadyIff` | src/readiness.rs:110-147 | Ready if and only if a look that passes starts after looks that did not decide, the last of which ended within the timeout |
| `Backoff.IntervalIs` | src/readiness.rs:18-23 | The sleep after the k-th look is min(100 ms * 2^k, 2 s), or the healthcheck's own |
| `Backoff.Watch` | src/client.rs:452-500 | The watcher signals at the first answer that shows a stopped task, a missing container or sixty errors in a row, and sleeps min(250 ms * 2^errors, 5 s) before each inspection |
| `Backoff.ErrorsCount` | src/client.rs:478-491 | The counter reaches k exactly when the last k answers were errors |
| `Backoff.GiveUpAfter` | src/client.rs:454-491 | From the last success to giving up the watcher sleeps exactly 282.75 seconds |
| `Identifiers.ValidateIdentifier` | src/util.rs:64-113 | Accepts exactly 1 to 76 bytes in alnum+ (sep alnum+)* |
| `Identifiers.WordsIffLocalShape` | src/util.rs:77-112 | The grammar and the position-by-position description are the same language |
| `Environment.BuildMergedEnv` | src/container.rs:201-217 | Prints every binding of the image's variables overridden by the caller's, once each, in some order |
| `Environment.ParseEnvIff` | src/inspect.rs:14-21 | A key has a value exactly when the last entry that binds it says so; entries without = bind nothing |
| `Environment.PrintParseIff` | src/inspect.rs:14-21 | Printing and parsing back returns the same map if and only if no key contains = |
| `Environment.CloneInheritsIff` | src/clone.rs:293-298 | A clone's environment is exactly the source's overridden by the extra variables if and only if no extra key contains =, whatever the source was created with |

## Left out

- gRPC transport, socket discovery, image pull, manifest walking, OCI spec building, hooks, veth
  names, port forwarding, exec and host port picking.
- Races between processes over bridge addresses, and name uniqueness under concurrent creates.
- Inode reuse, rename failures, clock jumps and platforms without inodes.
- Fatal I/O errors and dropped receivers in the follower, and its 256-entry channel.
- SnapshotOps.StopAndDeleteTask: the deletion of a task is one request; its fault stands for a retry loop
  that ends without success, whose deadline and 50 ms retries are `Deadlines.RetryDeleteTask`.
- Backoff.WaitReady: a healthcheck interval of zero (src/readiness.rs:299-304) is covered where every look
  takes some time; a zero interval with instant looks, where no time passes at all, is not.
- `list_snapshots`, snapshot descriptions, container labels and ports, image healthcheck parsing and
  the start period before `wait_ready`.
- Records carry an image and a snapshot key only; image labels of a clone and the wording of errors
  are not modelled.
- SnapshotOps.CreateContainer: one flag stands for every error between prepare and create (address
  exhaustion, port picking, spec building), since all of them return without removing the layer.
- That a snapshotter may refuse to commit a layer that is still mounted (src/clone.rs:3).
- SnapshotStore.WriteShows: contents are whole files at a path; directories and whiteouts of a tree
  are not modelled.
- Environment.BuildMergedEnv: the order of the printed list is arbitrary, as a hash map's is.
- Deadlines.StopBound: sleeps are taken to be exact and the answers of containerd are arbitrary, not
  those of a modelled task.
