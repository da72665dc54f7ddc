# Verified models of the Takeout import pipeline

The pipeline downloads Google Takeout archives, extracts them one by one, uploads their media to
object storage, records what was done in state files, and removes archives that are safely uploaded.
This project states in Dafny what that code is for, and proves it of models that keep the code's
branches, constants and error paths. `dafny verify dfyconfig.toml` checks everything.

What the source does step by step on shared state is modelled step by step: classes with the source's
fields and methods, loops with invariants, each method tied to a function of the old state. Concurrency is
modelled as Node.js runs it: the code between two awaits of one worker is one event, and a behaviour is
any interleaving of events. The network, the storage provider, the file system, the clock and crashes are
nondeterministic outcomes or parameters.

| file | models |
|---|---|
| `upload_pool.dfy`, `upload_engine.dfy` | the worker pool of `uploadManifest`: as a transition system, and as the code statement by statement |
| `upload_breaker.dfy`, `upload_attempts.dfy` | what the breaker holds back; what each attempt of an entry leads to, by the failures so far |
| `upload_conditions.dfy`, `upload_sharing.dfy` | what a run records under a failure limit; keys shared by entries of one run |
| `checkpoint.dfy` | `StateCheckpointManager` and the atomic write underneath it |
| `archive_lifecycle.dfy`, `archive_loss.dfy` | incremental runs with crashes: pool, checkpoint manager, status file, archive removal |
| `archive_reconcile.dfy` | settling the archive status file after interrupted runs |
| `run_lock.dfy` | the cross-process run lock, one file call a step |
| `iso_media.dfy` | the MP4/MOV box scanner and movie header reader (sections 4.2 and 8.2.2 of ISO/IEC 14496-12) |
| `tree_merge.dfy`, `naming.dfy` | merging extracted trees with collision names; free names by counting |
| `batch_transfer.dfy` | the paged Google API transfer loop and its state file |
| `date_refinement.dfy`, `date_rules.dfy`, `segments.dfy` | refining capture dates from sidecars; what its rules on dates, names and keys come to; paths cut at slashes |
| `manifest_dedup.dfy`, `catalog_duplicates.dfy`, `keep_scores.dfy`, `grouping.dfy`, `key_text.dfy` | two-phase deduplication, catalog duplicate groups, what the keep scores weigh, stable sorting and grouping |
| `csv.dfy` | the report's CSV writer against the remap script's CSV reader (section 2 of RFC 4180) |
| `thumbnail_queue.dfy`, `row_model.dfy` | the gallery's thumbnail semaphore and virtual row model |

## What turned out false

Each of these is a lemma with the failing case, next to the exact condition under which the property holds.

- A non-retryable upload error before the last attempt is attempted and counted again: the attempt loop has
  no `break` after a terminal failure. `processed` is `total` plus the number of such errors
  (`ProcessedEqualsTotal`, `EarlyErrorCountsTwice`).
- With a failure limit of 0 or less the pool stops after one entry per worker with no entry counted as failed,
  and the archive is removed: a run that loses a file (`LimitBelowOneLosesAFile`). A run's archives are safe
  exactly if every limit lets its upload get to all entries (`RecordedInFileExactly`, `AllRecordedExactly`).
- Two entries with one destination key in one run: a success can be overwritten by a failure, exactly when two
  or more workers upload for real (`LosesExactly`; with a failure limit `ContendedCanLose`, `GoodNeverLost`).
- The run lock admits two holders when a stale reclaim is overtaken between its read and its removal
  (`TwoHoldersReachable`), or when a heartbeat's rename lands after its handle's release
  (`LateHeartbeatTwoHolders`); not when neither is overtaken (`MutualExclusion`, `IndivisibleExcludes`). The
  comment in `readRunLock` that a heartbeat can repair an unreadable lock is wrong of any heartbeat that starts
  afterwards, since it has to parse the file first: the lock is blocked for good exactly if no write is
  outstanding (`UnparseableBlocks`, `BlocksExactly`).
- A movie header or `moov` box with a 64-bit size field never yields a date (`LargeMvhdHeaderNeverRead`,
  `LargeMoovHeaderNeverRead`); a 64-bit size of zero makes the scan endless (`ScanEndsExactlyWhen`).
- When the byte cap ends a batch, only the current item goes back to the queue; the rest of the selection is
  lost (`CapBreakForgets`), and a dry run consumes the queue (`DryRunForgets`). Exactly the settings with at most
  two items a batch, and none in a dry run, exclude it (`SafeConfigExactly`). A throw after the first item of a
  batch loses the rest from the state file (`AtRiskIsLost`).
- An access error other than absence reads as absence in the tree merge, and then a file can be overwritten
  (`MisreadOverwrites`); with sound checks none is (`MergeDirectory`). Files over 64 KiB that differ later count
  as equal (`LongFilesCollide`).
- A sidecar date beyond JavaScript's range is not "wrong", is applied, and throws out of the refinement: exactly
  when the items looked up agree on it (`ThrowsExactly`, `ValidDatesNeverThrow`).
- The catalog's comment promises `immich/` keys precedence beyond 30 slashes; it holds up to 25
  (`ImmichOutranksExactlyTo25`).
- The remap script splits lines before it parses quotes, so a quoted newline does not survive
  (`DocumentRoundTripsExactly`), while single rows always do.

## Model

| member | source | states |
|---|---|---|
| UploadPool.PoolConservation | src/takeout/uploader.ts:175-222 | under every schedule, at every await point: processed = uploaded + skipped + failed, failed = transient + permanent, skipped = sum of its reasons, the in-flight total is the sum of the in-flight map, and processed = entries finished + early non-retryable errors so far |
| UploadPool.ClaimedAtMostOnce | src/takeout/uploader.ts:549-558 | a later claim takes a strictly larger index, so no index is claimed twice under any schedule |
| UploadPool.ProcessedEqualsTotal | src/takeout/uploader.ts:398-535 | a run that ends without hitting the failure limit has processed = total + early non-retryable errors, hence processed = total if and only if there were none |
| UploadPool.EarlyIsEarlyNonRetryable | src/takeout/uploader.ts:476-535 | the history counter of early errors is the number of attempts before the last one that ended in a non-retryable error, and 0 exactly if there were none |
| UploadPool.EarlyErrorCountsTwice | src/takeout/uploader.ts:495-535 | a reachable complete run over one entry that reports 2 processed and 2 failed |
| UploadPool.FailureLimitOvershoot | src/takeout/uploader.ts:537-566 | at every point failed is at most max(1, maxFailures) - 1 + workers + early errors |
| UploadPool.LoadedGoodNeverRegresses | src/takeout/uploader.ts:274-319 | a key recorded uploaded or skipped when the state was loaded keeps exactly that record throughout the run |
| UploadSharing.GoodNeverLost | src/takeout/uploader.ts:334-353 | with distinct keys, or one worker, or in a dry run, or where no two entries to be uploaded share a key, a key that became uploaded or skipped stays so, whatever the other workers do |
| UploadSharing.ContendedCanLose | src/takeout/uploader.ts:452-502 | with two or more workers in a real run, whenever two entries to be uploaded share a key and the limit lets a worker get to the second, a schedule from the start of the run records the key as uploaded and then as failed |
| UploadSharing.LosesExactly | src/takeout/uploader.ts:334-535 | without a failure limit some schedule loses a record if and only if the run is real, has two or more workers, and two of its entries to be uploaded share a key |
| UploadPool.NoFailureMeansAllRecorded | src/takeout/uploader.ts:548-566 | a finished real run that reports no failure, with no limit or one of at least 1, has every destination key recorded uploaded or skipped |
| UploadConditions.LimitBelowOneRecordsExactly | src/takeout/uploader.ts:549-566 | with a limit below 1, a finished real run without failures has recorded exactly what was loaded and the entries its workers started with |
| UploadConditions.AllRecordedExactly | src/takeout/uploader.ts:549-566 | a finished real run without failures has recorded all its entries if and only if the limit is absent or at least 1, or each key was loaded as uploaded or skipped or is among the entries the workers start with |
| UploadConditions.EnoughWorkersCover | src/takeout/uploader.ts:549-549 | so no limit is too low for as many workers as entries |
| UploadConditions.NeverStuck | src/takeout/uploader.ts:549-566 | while a worker is not done, some event can happen: no schedule blocks the pool |
| UploadAttempts.FailureExactly | src/takeout/uploader.ts:471-535 | the n-th failure of an entry is its last exactly if n is retryCount + 1; before, a retryable one is retried without being counted and a non-retryable one is recorded, counted and attempted again; the record names attempt n and the kind of failure |
| UploadAttempts.SuccessExactly | src/takeout/uploader.ts:441-470 | a success after n - 1 failures is recorded as uploaded in attempt n and ends the entry |
| UploadAttempts.CheckExactly | src/takeout/uploader.ts:321-396 | an existence check records a found entry as skipped with its earlier attempts, ends a dry run without a record, records a missing source as permanently failed in attempt 1, or starts attempt 1 at zero bytes |
| UploadAttempts.ConsultExactly | src/takeout/uploader.ts:274-319 | an entry recorded uploaded, skipped or permanently failed is counted as such with its record untouched, and any other goes on to the existence check with the attempts recorded |
| UploadAttempts.OutcomeCounts | src/takeout/uploader.ts:321-535 | which counters each outcome of a check or an attempt raises by one, and that it leaves the others |
| UploadAttempts.InFlightExactly | src/takeout/uploader.ts:402-461 | the in-flight map holds the last reported bytes of an upload, 0 from the start of an attempt, nothing after it, and other keys keep theirs |
| UploadPool.BreakerTripsExactly | src/takeout/uploader.ts:507-524 | at each terminal transient failure the stored timestamps are those of the failures since the last trip within the window, and the breaker trips exactly when they reach the threshold |
| UploadPool.PrunedIsWindow | src/takeout/uploader.ts:510-513 | with a monotone clock, pruning what was already pruned gives the window over the whole history since the last trip |
| UploadBreaker.HeldBackExactly | src/takeout/uploader.ts:264-274 | a worker that takes an entry sleeps if and only if the breaker tripped at some time t before and the clock is below t + breakerPauseMs |
| UploadBreaker.PauseHolds | src/takeout/uploader.ts:264-274 | and then by that event it changes neither counters nor records, and it is still asleep, its entry unfinished, at every moment before t + breakerPauseMs |
| UploadPool.ApplyKeepsInv | src/takeout/uploader.ts:264-566 | every event of every worker keeps the pool's inductive invariant (claims, counters, in-flight bytes, breaker, records) |
| UploadPool.CompleteRunFinishesAll | src/takeout/uploader.ts:549-566 | a run that no failure limit stopped has finished exactly the indices of its entries |
| UploadEngine.Upload.Resume | src/takeout/uploader.ts:549-558 | the worker loop up to the next await does to the shared state exactly what the pool's event does |
| UploadEngine.Upload.Wake | src/takeout/uploader.ts:267-274 | waking from the breaker pause, likewise |
| UploadEngine.Upload.ConsultState | src/takeout/uploader.ts:274-319 | the short cuts for permanently failed, uploaded and skipped records, likewise |
| UploadEngine.Upload.Checked | src/takeout/uploader.ts:321-396 | the branches after the existence check (skip, dry run, missing source, first attempt), likewise |
| UploadEngine.Upload.Progress | src/takeout/uploader.ts:418-430 | a progress callback keeps the in-flight map and its running total in step |
| UploadEngine.Upload.UploadOk | src/takeout/uploader.ts:441-470 | a successful attempt does exactly what the pool's event does |
| UploadEngine.Upload.UploadFailed | src/takeout/uploader.ts:471-535 | a failed attempt, retried or terminal, does exactly what the pool's event does |
| UploadEngine.Upload.EngageBreaker | src/takeout/uploader.ts:510-523 | prune, push and trip yield the breaker state of the pool's event |
| UploadEngine.Upload.BackoffOver | src/takeout/uploader.ts:491-493 | the attempt after a backoff starts as the pool's event says |
| UploadEngine.FilterYoung | src/takeout/uploader.ts:511-513 | the filter keeps exactly the timestamps still in the window, in order |
| Checkpoint.CheckpointLosesNoUpdate | src/takeout/uploader.ts:734-772 | under any interleaving of mutations, timer ticks, slow writes and failures, when stopAndFlush returns normally the file holds the memory of the moment it was called |
| Checkpoint.SnapshotsLandInOrder | src/takeout/uploader.ts:757-772 | the version on disk never drops, and the file always holds a value that was in memory as a whole |
| Checkpoint.MemoryFrozenAfterStop | src/takeout/uploader.ts:570-575 | when nothing mutates it after stopAndFlush was called, the upload state at the end is that at the call |
| ArchiveLifecycle.StoppedPoolIsQuiet | src/takeout/uploader.ts:549-575 | nothing does: when stopAndFlush is called all workers have returned, and none has an event left |
| Checkpoint.ThrownErrorIsCurrent | src/takeout/uploader.ts:759-771 | when stopAndFlush throws, the last link that settled before had failed, so the error is no residue of an earlier one, and the manager is still dirty |
| Checkpoint.ThresholdFlushes | src/takeout/uploader.ts:725-732 | among any persistEvery mutations of a run a link is added to the chain |
| Checkpoint.MutationFlushesExactly | src/takeout/uploader.ts:725-757 | a mutation adds a link if and only if with it at least persistEvery have happened since the last link was added |
| Checkpoint.TickFlushes | src/takeout/uploader.ts:734-757 | no timer tick and no stop goes by after a mutation without a link for it |
| Checkpoint.FailureIsRetried | src/takeout/uploader.ts:767-771 | nor after a failed link: the next tick or the stop queues another at the latest |
| Checkpoint.LinkCarriesMutation | src/takeout/uploader.ts:744-758 | a link that starts after a mutation writes its value or that of a later one |
| Checkpoint.FifthFailureGivesUp | src/utils/fs-atomic.ts:27-50 | a failed rename ends the link if and only if the error is not EPERM or EACCES, or it is the fifth since the temporary file was written; otherwise the rename is tried again |
| Checkpoint.ChainNeverStuck | src/takeout/uploader.ts:757-772 | while links are queued or one is in flight, the chain has a step to take |
| Checkpoint.StopDrains | src/takeout/uploader.ts:734-742 | and after the call to stop there are no more steps than a bound on the work left: stopAndFlush ends |
| Checkpoint.ApplyKeepsInv | src/takeout/uploader.ts:744-772 | every event keeps: not dirty implies a flush is queued, or the snapshot in flight is current, or the file is |
| Checkpoint.StateCheckpointManager.EnqueueFlush | src/takeout/uploader.ts:744-772 | changes the manager exactly as the model's flush request |
| Checkpoint.StateCheckpointManager.Update | src/takeout/uploader.ts:725-732 | an assignment and markDirty, with the flush every persistEvery updates |
| Checkpoint.StateCheckpointManager.RunLink | src/utils/fs-atomic.ts:20-51 | one link of the chain, with at most five renames: file, error and dirty flag afterwards |
| Checkpoint.StateCheckpointManager.StopAndFlush | src/takeout/uploader.ts:734-742 | returns normally only with the file equal to the memory at the call |
| ArchiveLifecycle.GoneMeansRecorded | src/takeout/incremental.ts:366-386 | at every crash point of any sequence of real runs, each with its own options and maxFailures absent or at least 1, an archive is gone only if every destination key of its manifest is recorded uploaded or skipped in the state file on disk |
| ArchiveLifecycle.CompletedMeansRecorded | src/takeout/incremental.ts:507-526 | the same for an archive the status file newly lists as completed, which later runs skip |
| ArchiveLifecycle.LoadedKeysNeverRegress | src/takeout/incremental.ts:492-505 | whatever the options, a key found uploaded or skipped when an upload loads the state file stays so in the file through later uploads, failed flushes, crashes and restarts |
| ArchiveLifecycle.RecordedInFileExactly | src/takeout/incremental.ts:366-526 | in a sequence of real runs with any options, the archives that count as done always have all their keys in the state file if and only if every upload that ended without a failure was allowed by its limit to get to all entries |
| ArchiveLifecycle.FileInvAlways | src/takeout/incremental.ts:244-427 | every step of a run, and a crash at any point, keeps the file invariant: what was loaded or flushed as uploaded or skipped is so in memory, in the snapshot in flight and in the file |
| ArchiveLifecycle.FlushedFileHasAllKeysExactly | src/takeout/uploader.ts:570-575 | when an upload returns without a failure, the file holds the state in memory, and every key of the manifest is in it if and only if the limit allowed the upload to get to all entries |
| ArchiveLifecycle.CompletesExactly | src/takeout/incremental.ts:366-386 | an upload that ends without a failure, and only that, leads to a completed archive in the status file, and to its removal exactly where the options ask for it; other archives stay |
| ArchiveLifecycle.UnfiledStatusIsCarried | src/takeout/incremental.ts:402-418 | where that status write fails the archive is kept; a completed status is carried by the next write for another archive, a failed one is written again at once |
| ArchiveLifecycle.LeavesExactly | src/takeout/incremental.ts:376-382 | an archive leaves the disk by the removal that follows its upload, by no other step and no crash |
| ArchiveLifecycle.RestartsExactly | src/takeout/incremental.ts:223-227 | a new run may process exactly the archives still there that the status file does not list as completed |
| ArchiveLoss.LimitBelowOneLosesAFile | src/takeout/incremental.ts:366-382 | a reachable world with one worker, two entries and limit 0: the archive is gone and completed, and the key of its second entry is not in the state file |
| ArchiveReconcile.ReconcileArchiveEntries | src/takeout/incremental.ts:667-734 | drops exactly the records never processed, settles every other one, and counts the stale ones |
| ArchiveReconcile.CompletedExactly | src/takeout/incremental.ts:673-731 | a kept record is completed if and only if it was, or all its entries were uploaded or skipped and none failed; else it is failed; counts are untouched |
| ArchiveReconcile.SettledTexts | src/takeout/incremental.ts:673-731 | a record whose status stays is untouched; one that becomes final keeps its completion time or takes that of the pass; a newly failed one has the error that names the interrupted stage; a newly completed one has none, unless it was uploading, which keeps its own |
| ArchiveReconcile.StaleExactly | src/takeout/incremental.ts:673-731 | a pass counts exactly the records it drops or changes |
| ArchiveReconcile.ReconcileIdempotent | src/takeout/incremental.ts:654-665 | a second pass at any time changes and counts nothing |
| RunLock.MutualExclusion | src/takeout/run-lock.ts:104-212 | for any number of processes, if no removal or rename is overtaken after its read, at most one handle is unreleased in every reachable state |
| RunLock.IndivisibleExcludes | src/takeout/run-lock.ts:104-212 | when every removal and rename directly follows its own read, at most one handle is unreleased, whatever the schedule |
| RunLock.UnparseableBlocks | src/takeout/run-lock.ts:116-123 | a lock file that is garbage, or created and never written, and that no outstanding write can clear or repair, blocks for good: along any run, overtaken or not, it stays unparseable and no process gets in; no later heartbeat repairs it |
| RunLock.BlocksExactly | src/takeout/run-lock.ts:104-212 | an unparseable file stays so along every run if and only if no write is outstanding: no removal of a record judged dead or read as its own, no heartbeat rename, not the content of the file itself |
| RunLock.AbandonedPartialReachable | src/takeout/run-lock.ts:170-171 | a creator that crashes between open and write leaves such a file, with no process active |
| RunLock.OvertakenReclaimBreaksLock | src/takeout/run-lock.ts:124-126 | each overtaken reclaim leads in three steps to two unreleased handles |
| RunLock.OvertakenReclaimReachable | src/takeout/run-lock.ts:146-181 | two processes that find a crashed holder's record do reach such a state |
| RunLock.TwoHoldersReachable | src/takeout/run-lock.ts:104-181 | a state with two unreleased handles is reached by the real file calls, with every heartbeat in time |
| RunLock.LateHeartbeatBreaksLock | src/takeout/run-lock.ts:201-212 | a heartbeat rename that lands after its handle was released and another process has acquired leads, by a reclaim that is not overtaken, to two unreleased handles |
| RunLock.LateHeartbeatTwoHolders | src/takeout/run-lock.ts:186-212 | such a state is reached, with no reclaim overtaken |
| RunLock.LockDir.ReadRunLock | src/takeout/run-lock.ts:104-129 | the record, untouched, if its pid is seen alive or its lastSeenAt is less than 300000 ms old; null for an absent file, and for any other record, which is removed; an error with the file untouched if unparseable |
| RunLock.LockDir.Acquire | src/takeout/run-lock.ts:146-184 | busy exactly if the record has such a sign of life, failed exactly on an unparseable file, else a handle whose record is in the file |
| RunLock.RunLockHandle.Release | src/takeout/run-lock.ts:186-200 | idempotent; removes its own record and leaves that of any other acquire, told by the instance ids, or without them by pid and start |
| RunLock.RunLockHandle.Heartbeat | src/takeout/run-lock.ts:201-212 | refreshes lastSeenAt of its own record and leaves that of any other acquire |
| RunLock.HeartbeatKeepsLock | src/takeout/run-lock.ts:91-98 | along any sequence of heartbeats and acquires by others, if each acquire comes within the window after the last heartbeat, every one is refused, even by a reader that cannot see the pid |
| RunLock.PidKeepsLock | src/takeout/run-lock.ts:91-98 | along any sequence of acquires by others, at any times and with no heartbeat at all, if every reader sees the pid alive, every one is refused and the file stays as it was |
| RunLock.DeadIsReclaimed | src/takeout/run-lock.ts:124-128 | a record whose pid is not seen alive and whose lastSeenAt is absent or at least 300000 ms old is always reclaimed |
| RunLock.RetriesOnce | src/takeout/run-lock.ts:146-184 | an acquire that finds the file taken when it comes to create it reads the lock again the first time and is refused the second |
| RunLock.AcquireAlone | src/takeout/run-lock.ts:146-184 | an undisturbed acquire is a run of the step protocol by one process, to the same file, with a handle in the same cases |
| RunLock.ReleaseAlone | src/takeout/run-lock.ts:186-200 | so is an undisturbed release |
| RunLock.HeartbeatAlone | src/takeout/run-lock.ts:201-212 | so is an undisturbed heartbeat |
| IsoMedia.ScanAtoms | src/utils/exif.ts:198-216 | the scanning loop lists exactly the boxes of the recursive reading of the buffer |
| IsoMedia.ScanEndsExactlyWhen | src/utils/exif.ts:198-216 | on arbitrary bytes the loop ends if and only if it does not reach a 64-bit size of zero |
| IsoMedia.ParseMvhdCreationTime | src/utils/exif.ts:218-256 | the loop finds the date the recursive reading of the children gives |
| IsoMedia.ReadCreationTime | src/utils/exif.ts:231-251 | both versions, the length checks, the zero and the accepted range |
| IsoMedia.PartialReadRefinesWholeFile | src/utils/exif.ts:266-306 | first buffer plus follow-up fetch give the date of the whole-file scan, when moov starts in the buffer or directly follows the first mdat, mvhd lies in the fetched bytes and no 64-bit header is cut |
| IsoMedia.DiskReadRefinesWholeFile | src/utils/exif.ts:316-370 | the same for the reader from disk with its 32 KB scan and 2 MB bound |
| IsoMedia.DiskReadBounds | src/utils/exif.ts:316-370 | a moov box whose header is in the first 32768 bytes is read if and only if it has at most 2097152 bytes; with neither it nor an mdat box seen there, there is no date |
| IsoMedia.ScanOfPrefix | src/utils/exif.ts:198-216 | scanning a prefix shows the boxes of the file whose header lies in it |
| IsoMedia.SameUpToMvhd | src/utils/exif.ts:218-256 | two buffers that agree up to the movie header give the same date, whatever follows or is missing |
| IsoMedia.ScanOfPrintRoundTrip | src/utils/exif.ts:198-216 | scanning the serialisation of any list of valid boxes, 32- or 64-bit sizes, returns exactly their types, offsets and sizes |
| IsoMedia.LayoutTiles | src/utils/exif.ts:212-213 | and these tile the buffer from its start to its end |
| IsoMedia.MovieHeaderRoundTrip | src/utils/exif.ts:218-256 | a moov with 32-bit headers, any children before the mvhd of either version and anything after it decodes to creationTime - 2082844800 if 2082844800 <= creationTime <= 2082844800 + 4102444800, and to no date otherwise |
| IsoMedia.LargeMvhdHeaderNeverRead | src/utils/exif.ts:225-244 | an mvhd with a 64-bit header and a size below 2082844800 never yields a date |
| IsoMedia.LargeMoovHeaderNeverRead | src/utils/exif.ts:219-224 | a moov with a 64-bit header and a size below 4 GB never yields a date |
| TreeMerge.FileSystem.MergeDirectory | src/takeout/unpack.ts:281-313 | whatever calls fail, no directory and nothing outside the two trees changes; if access checks are sound, nothing outside the source tree changes, each source file stays or its fingerprint is in the target, and what is new stands at the same relative path under its own or, for a file, a __dupN name and is a source directory, a source file or debris of a failed copy; and if no call fails and no names clash, the source tree has no file left |
| TreeMerge.ReadyKept | src/takeout/unpack.ts:294-312 | the merge of one entry brings about no clash of names for another |
| TreeMerge.FileSystem.MoveWithCollisionHandling | src/takeout/unpack.ts:320-343 | a successful move puts the file under its own name unless found taken, drops it if the same content has the name, else uses the first __dupN name not found taken; it succeeds when no call fails and no directory has the name |
| TreeMerge.FileSystem.FreeSlot | src/takeout/unpack.ts:333-340 | the do-while search ends, at the first __dupN name whose access check does not find it taken |
| TreeMerge.SoundIsFree | src/takeout/unpack.ts:333-340 | with sound checks that is the first name that is free |
| TreeMerge.FileSystem.MoveFile | src/takeout/unpack.ts:348-360 | done, or the source is untouched and the destination absent, complete, or debris |
| TreeMerge.FileSystem.IsSameContent | src/takeout/unpack.ts:363-368 | true exactly for equal size and equal hash of the first 64 KiB |
| TreeMerge.MergeKeepsFingerprints | src/takeout/unpack.ts:281-343 | every fingerprint present before a merge is present afterwards, in place or in the target tree |
| TreeMerge.MergeKeepsContents | src/takeout/unpack.ts:281-343 | every content is kept when the fingerprint tells the files apart and no failed copy left debris |
| TreeMerge.SmallFilesToldApart | src/takeout/manifest.ts:741-749 | with a digest that tells contents of up to 65536 bytes apart, two files of up to that size have one fingerprint if and only if they have one content |
| TreeMerge.MergeKeepsSmallFiles | src/takeout/unpack.ts:281-368 | so where all files are of up to 65536 bytes a merge keeps every content, with no other condition on the files |
| TreeMerge.LongFilesCollide | src/takeout/manifest.ts:741-749 | for any hash, two files that differ only after 64 KiB have the same fingerprint |
| TreeMerge.MisreadOverwrites | src/takeout/unpack.ts:320-382 | whenever the access check of a target file fails for another reason than absence, a successful move replaces it, and its content is nowhere |
| TreeMerge.MergedTrans | src/takeout/unpack.ts:294-312 | what merges keep composes over the entries of a directory |
| TreeMerge.AllEmptied | src/takeout/unpack.ts:294-312 | once every entry's merge or move has succeeded, the source tree holds no file |
| Naming.UniqueDestinationName | src/takeout/incremental.ts:591-619 | never a name of the listing; the name itself if free, else the first free -N; the bare name when the directory cannot be read |
| Naming.SearchEnds | src/takeout/unpack.ts:333-340 | for any finite set of names some counted alternative is free, at most one past their number |
| Naming.AlternativeInjective | src/takeout/unpack.ts:337-338 | different numbers give different alternatives |
| Naming.AlternativeShape | src/takeout/unpack.ts:333-338 | the number goes before the extension, which is what follows the last dot unless the name has none or starts with its only one |
| Naming.DecimalIsNumeral | src/takeout/unpack.ts:337-338 | numbers are rendered as their decimal numerals, without leading zeros |
| BatchTransfer.Transfer.Run | src/takeout/google-api-runner.ts:68-129 | given what the source, the downloads and the destination answer, a run is the iteration of one batch until a batch completes, downloads nothing, or is the last allowed; every listed id is transferred, pending or forgotten by a batch, in memory and on disk; completed means that the last page read has no next page token, or, if none was read, that the state was loaded so; completed with safe settings means every listed id is transferred, and if all pages before the last of the source have a token, every id of the source is listed; every new record was listed with its size right after its upload; the totals agree with each other and with what the destination received; after a throw the state file accounts for all but the ids named, and if no call failed the source was at its end or a size differed |
| BatchTransfer.Transfer.SingleBatch | src/takeout/google-api-runner.ts:142-252 | the state after a batch, what it took, recorded, sent, put back and forgot, as a function of the state before; after a throw, the state on disk and what it no longer accounts for, and why it threw |
| BatchTransfer.Transfer.FillPendingItems | src/takeout/google-api-runner.ts:254-284 | reads pages only while nothing is pending, each the one after the last answer, adds exactly the items not yet transferred, is exhausted exactly when the last page read has no next page token, persists each, and keeps every listed id accounted for in memory and on disk |
| BatchTransfer.FillsUntil | src/takeout/google-api-runner.ts:263-283 | it reads no more pages than allowed, and stops only at a page with something new, an exhausted source, or enough pages |
| BatchTransfer.FillsWithLast | src/takeout/google-api-runner.ts:263-283 | what is pending after pages were read is what is new on the last of them; those before had nothing new |
| BatchTransfer.CutItemIsNext | src/takeout/google-api-runner.ts:191-196 | the item at which the byte cap ended a batch is the first pending, and the first of the next batch |
| BatchTransfer.RefillsAtOnce | src/takeout/google-api-runner.ts:234-252 | a batch that took items fills the queue again before it reports, so if nothing is pending then and the source has more, it read as many pages as are allowed; completed means that nothing is pending and the source is exhausted |
| BatchTransfer.Transfer.TakePendingForBatch | src/takeout/google-api-runner.ts:286-303 | takes, in order, the untransferred items of the shortest prefix of the queue that holds maxItems of them, or of the whole queue |
| BatchTransfer.Transfer.ProcessItem | src/takeout/google-api-runner.ts:178-232 | one item is sent, found with its size, recorded and persisted; or put back exactly when the cap forbids it; or throws with the state file untouched |
| BatchTransfer.TakesUpTo | src/takeout/google-api-runner.ts:286-303 | a batch has at most maxItems items, and exactly that many if items remain pending |
| BatchTransfer.AdmittedExactly | src/takeout/google-api-runner.ts:191-199 | the number of items a batch processes is the only one with which its bytes are within the cap, or it is a single item, and one more would exceed it |
| BatchTransfer.BatchFacts | src/takeout/google-api-runner.ts:142-252 | of every batch: bytes within the cap or a single item, at most maxItems items, equal counts, and as many objects received as it reports |
| BatchTransfer.RunTotals | src/takeout/google-api-runner.ts:113-117 | the totals of a run agree with each other and with the number of objects the destination received |
| BatchTransfer.RunBytes | src/takeout/google-api-runner.ts:117-117 | the bytes that a real run reports are those of what the destination received |
| BatchTransfer.StopsMeans | src/takeout/google-api-runner.ts:100-110 | a run has at most maxBatches batches, but one at least; it ends before only if all was completed or the last batch downloaded nothing, and goes on after no such batch |
| BatchTransfer.RunVerified | src/takeout/google-api-runner.ts:215-229 | along a run no record is dropped, and each new one is of an upload whose listing, right after it, showed the size downloaded |
| BatchTransfer.ForgetsNothingExactly | src/takeout/google-api-runner.ts:191-206 | a batch forgets nothing if and only if it is no dry run of any item and was not cut before its last item |
| BatchTransfer.RunForgetsNothingExactly | src/takeout/google-api-runner.ts:84-111 | a run forgets nothing if and only if each of its batches spares its items so |
| BatchTransfer.SafeConfigExactly | src/takeout/google-api-runner.ts:191-206 | whatever the state, the sizes and the answers are, no batch forgets anything if and only if batchMaxItems is at most 2, or at most 0 in a dry run |
| BatchTransfer.CapBreakForgets | src/takeout/google-api-runner.ts:191-196 | three pending items of which the second does not fit: the third is neither transferred nor pending after the batch |
| BatchTransfer.DryRunForgets | src/takeout/google-api-runner.ts:203-206 | a dry run of a pending item neither records it nor leaves it pending |
| BatchTransfer.AtRiskIsLost | src/takeout/google-api-runner.ts:224-230 | after a throw in mid-batch the state file accounts for none of the items still to come, unless they are listed elsewhere |
| DateRefinement.RefineDatesFromAllMetadata | src/takeout/manifest.ts:604-664 | in place: every entry becomes its refinement, refinedCount = sum of the breakdown = entries changed, each count that of its strategy; or a throw at the first invalid date with the entries before it refined |
| DateRefinement.BuildDateRefinementIndexes | src/takeout/manifest.ts:513-550 | each index lists exactly the dated items with that name or stem, in order; each median is that of its album's dates, for two or more |
| DateRefinement.ResolveConsistentMetadataDate | src/takeout/manifest.ts:552-577 | a date exactly when all dated items of the pool agree on it |
| DateRefinement.ResolveDate | src/takeout/manifest.ts:617-655 | the four strategies in their order |
| DateRefinement.ResolveNeverWrong | src/utils/date-repair.ts:47-51 | no strategy yields a date that isWrongDate rejects |
| DateRefinement.TouchesOnlyTheUndated | src/takeout/manifest.ts:613-615 | only wrong-dated or undated entries change, and of them only date, date path and key |
| DateRefinement.RefinementIdempotent | src/takeout/manifest.ts:604-664 | at a fixed clock a second run throws nothing, changes nothing and counts nothing |
| DateRefinement.RefinedKeyTail | src/takeout/manifest.ts:587-602 | a refined key stands under its new date path and keeps album and file name if and only if there were any |
| DateRefinement.KeyTailKept | src/utils/date-repair.ts:62-68 | extractAlbumFile of the new key is the old tail, or the sanitized relative path when that is empty |
| DateRefinement.SanitizedSegments | src/takeout/manifest.ts:456-469 | a sanitized path has as many segments, each non-empty, safe and not a step up or in place |
| DateRefinement.ThrowsExactly | src/utils/date-repair.ts:27-51 | some entry makes the refinement throw if and only if the dated items of some name, or of some name and size, agree on a date out of range, or the median of an album is one: such a date is not wrong to isWrongDate |
| DateRefinement.ValidDatesNeverThrow | src/takeout/manifest.ts:604-664 | if no sidecar has a date out of range, no entry throws, and a second run changes and counts nothing |
| DateRefinement.OneInvalidThrowsExactly | src/takeout/manifest.ts:604-664 | among items of distinct names one such date is enough for some entry to throw |
| DateRules.ChangesExactly | src/takeout/manifest.ts:613-661 | an entry changes if and only if it stands under unknown-date or its date is before 1990 or more than 86400000 ms ahead of the clock, and a valid date is found; it then has that date, its date path, and is otherwise the same but for the key; no date found is before 1990 or that far ahead |
| DateRules.KeyExactly | src/takeout/manifest.ts:593-600 | and its key is s3transfers, that date path and its tail |
| DateRules.DatedExactly | src/takeout/manifest.ts:518-523 | the items looked up are exactly those whose sidecar has such a plausible date |
| DateRules.ResolveExactly | src/takeout/manifest.ts:617-655 | the date of an entry is the one on which all dated items agree: of the name of its original, or where they do not agree of its stem, for an edited copy; or else of its name, and of its size where such items have dates; or else of its stem; or else the median of its album; and the strategy is named accordingly |
| DateRules.MedianIsMiddle | src/takeout/manifest.ts:543-547 | of n valid dates at most n / 2 come before the median, and more than n / 2 not after it |
| DateRules.AlbumMedianExactly | src/takeout/manifest.ts:537-547 | an album has a median if and only if two of its items have dates, and it is a date of one of its items |
| DateRules.StemCuts | src/takeout/manifest.ts:527-527 | a stem is the name up to its last dot, unless nothing follows that |
| DateRules.OriginalOf | src/takeout/manifest.ts:622-623 | the name of the original is that of the edited copy without its first -edited |
| DateRules.AlbumExactly | src/takeout/manifest.ts:579-585 | the album is the first folder of the path, unless there is none or it reads Photos from and four digits, in any mix of cases |
| DateRules.DatePathReads | src/utils/storage-paths.ts:20-25 | a date path is year, month and day, the latter two in two digits |
| DateRules.AlbumFileExactly | src/utils/date-repair.ts:62-68 | the tail of a key is what follows its second part if that is unknown-date, and else what follows its fourth |
| DateRules.SanitizesExactly | src/takeout/manifest.ts:456-469 | each segment of a sanitized path is an underscore for an empty one and for a step, and else the segment with every character but ASCII letters, digits, dot, underscore and hyphen replaced |
| ManifestDedup.DeduplicateManifest | src/takeout/manifest.ts:766-858 | keeps the multiset that fingerprinting every entry would keep, sorted by path, with removed count and bytes equal to the difference |
| ManifestDedup.TwoPhaseRefinesOnePhase | src/takeout/manifest.ts:774-852 | hashing only same-size entries keeps the same multiset as grouping all entries by size and hash |
| ManifestDedup.TwoPhaseIsDedup | src/takeout/manifest.ts:785-852 | the two phases keep one entry of each fingerprint of the input, the best one |
| ManifestDedup.DedupUnique | src/takeout/manifest.ts:834-847 | such a selection is unique up to order |
| ManifestDedup.SurvivorsAreBest | src/takeout/manifest.ts:716-734 | no two survivors share a fingerprint, every fingerprint survives, each survivor is maximal by score, then key |
| CatalogDuplicates.BuildDuplicateGroups | src/catalog/scaleway-catalog.ts:1641-1681 | groups list exactly the keys of the objects sharing size and ETag, best first, with true namespace flags; every shared fingerprint has one group; sorted by bytes wasted |
| CatalogDuplicates.GroupsPartition | src/catalog/scaleway-catalog.ts:1644-1678 | with distinct keys, an object is listed if and only if another shares its fingerprint, and then in one group at one place |
| CatalogDuplicates.DeletionLeavesOne | src/catalog/scaleway-catalog.ts:1670-1671 | deleting all duplicateKeys leaves exactly one object of every fingerprint |
| CatalogDuplicates.ImmichCopyKept | src/catalog/scaleway-catalog.ts:1604-1623 | the kept key is an immich/ key whenever some immich/ copy has at most 25 slashes |
| CatalogDuplicates.ImmichOutranksExactlyTo25 | src/catalog/scaleway-catalog.ts:1604-1623 | an immich/ key outside library/ and upload/ outranks every other key if and only if it has at most 25 slashes |
| KeepScores.CatalogWeighs | src/catalog/scaleway-catalog.ts:1604-1623 | a library key is kept rather than an upload key if and only if it has at most nine slashes more, and so is an upload key rather than another immich/ key |
| KeepScores.TransfersWeigh | src/catalog/scaleway-catalog.ts:1614-1622 | outside immich/, a dated transfers key is kept rather than one outside s3transfers/ if and only if it has at most seven slashes more |
| KeepScores.FlagsExactly | src/catalog/scaleway-catalog.ts:1662-1666 | a group is crossNamespace exactly if it has keys under immich/ and under s3transfers/, and immichOnly exactly if it has only the former |
| KeepScores.ManifestWeighs | src/takeout/manifest.ts:716-734 | other things equal, an entry with a date path is kept if and only if it has at most nine slashes more, one without a __dup mark if and only if it has at most 19 more, and else the one with fewer slashes |
| KeepScores.ManifestDatePath | src/takeout/manifest.ts:720-722 | a date path is a year from 1900 to 2099, a two-digit month and a day, each followed by a slash, at the start of the key or after s3transfers/ |
| KeepScores.DupMarkExactly | src/takeout/manifest.ts:729-731 | a __dup mark is that text with a digit after it, anywhere |
| Grouping.GroupedPartition | src/takeout/manifest.ts:775-783 | a Map filled by push has distinct keys, each group exactly the items with its key in order, and every item in one |
| Grouping.SortCorrect | src/takeout/manifest.ts:841-845 | sorting by a total preorder permutes and orders |
| Grouping.SortStable | src/takeout/manifest.ts:834-845 | and keeps the order of elements that tie |
| Grouping.BestIsFirst | src/takeout/manifest.ts:834-841 | so of equally good elements the first is kept |
| Csv.ParseRow | scripts/remap-immich-to-s3.ts:259-284 | the character loop computes the state machine's fields |
| Csv.RowRoundTrip | src/takeout/report.ts:75-94 | parsing the comma-join of the escaped fields returns any non-empty list of strings, with commas, quotes and newlines |
| Csv.DocumentRoundTripsExactly | scripts/remap-immich-to-s3.ts:259-284 | a whole document comes back if and only if no field has a newline and no row is a single empty field |
| Csv.ReadIsOneLine | scripts/remap-immich-to-s3.ts:259-259 | what is read never contains a newline |
| Csv.ParsedKeeps | scripts/remap-immich-to-s3.ts:259-284 | of any line, well formed or not, the fields part exactly at the commas with an even number of quotes before them, and they keep all characters but quotes, in order |
| Csv.QuotedExactly | src/takeout/report.ts:89-94 | a field is quoted if and only if it has a comma, a quote or a newline |
| Csv.ReadRows | scripts/remap-immich-to-s3.ts:259-284 | the reader that DocumentRoundTripsExactly is about: the fields of every line that is not empty, in order |
| ThumbnailQueue.QueueInvariant | frontend/src/lib/thumbnail-queue.ts:28-74 | after any sequence of requests, cancellations and releases: active = unreleased leases, at most 30; requests wait only at 30; each request is waiting, granted once, or cancelled and not granted |
| ThumbnailQueue.ApplyKeepsInv | frontend/src/lib/thumbnail-queue.ts:28-74 | each operation keeps that invariant |
| ThumbnailQueue.ReleaseServesLatest | frontend/src/lib/thumbnail-queue.ts:28-50 | the first release of a lease hands its slot to the latest waiting request, if any |
| ThumbnailQueue.ReleaseIdempotent | frontend/src/lib/thumbnail-queue.ts:43-45 | releasing again changes nothing |
| ThumbnailQueue.CancelledNeverGranted | frontend/src/lib/thumbnail-queue.ts:69-72 | a request cancelled while it waited is not granted in any continuation |
| ThumbnailQueue.CancelTakesOut | frontend/src/lib/thumbnail-queue.ts:69-72 | cancelling a waiting request takes it, and nothing else, out of the queue |
| ThumbnailQueue.ClampNeverFires | frontend/src/lib/thumbnail-queue.ts:46-46 | the clamp at 0 never acts |
| ThumbnailQueue.Queue.DrainQueue | frontend/src/lib/thumbnail-queue.ts:28-38 | the loop grants from the back of the queue until 30 are active or none waits |
| ThumbnailQueue.Queue.RequestSlot | frontend/src/lib/thumbnail-queue.ts:52-73 | a lease on the spot below 30, else a place at the back of the queue |
| ThumbnailQueue.Queue.CancelRequest | frontend/src/lib/thumbnail-queue.ts:69-72 | takes the request out of the queue if it still waits |
| ThumbnailQueue.Queue.ReleaseLease | frontend/src/lib/thumbnail-queue.ts:43-48 | the first release frees the slot and drains, later ones do nothing |
| RowModel.BuildRowModel | frontend/src/lib/virtual-row-model.ts:33-93 | the loops build the specified rows |
| RowModel.RowsFaithful | frontend/src/lib/virtual-row-model.ts:61-90 | the item rows hold all items in order, the headers all dates in order |
| RowModel.ItemRowShows | frontend/src/lib/virtual-row-model.ts:81-89 | an item row shows 1 to cols items, those standing at its startIndex among all items |
| RowModel.RowsTiled | frontend/src/lib/virtual-row-model.ts:81-89 | each item row starts where the items of the rows before it end |
| RowModel.DividerTotals | frontend/src/lib/virtual-row-model.ts:37-74 | a divider's count is its month's total and its cover the month's, even when the month's sections are not adjacent |
| RowModel.MetaCorrect | frontend/src/lib/virtual-row-model.ts:38-54 | the pre-scan's cover of a month is its first image, or else its first item |
| RowModel.UnderOwnMonth | frontend/src/lib/virtual-row-model.ts:64-76 | each section stands under the divider of its own month |
| RowModel.HeadersExactly | frontend/src/lib/virtual-row-model.ts:78-79 | the i-th header has the date and all items of the i-th section, and only the first is marked first |
| RowModel.DividersExactly | frontend/src/lib/virtual-row-model.ts:64-76 | there is one divider for each section whose month is not that of the section before, in order, with its month key, month name and year |
| RowModel.DateReads | frontend/src/lib/virtual-row-model.ts:62-72 | of a date yyyy-mm-dd the month key is yyyy-mm, the year yyyy, the label the English name of month mm, or none |
| RowModel.BuildSectionDateIndex | frontend/src/lib/virtual-row-model.ts:117-124 | the map knows exactly the dates with a header, each at its last one |
| RowModel.SectionDateToRowIndex | frontend/src/lib/virtual-row-model.ts:130-138 | the first header of the date, if there is one |
| RowModel.IndexAgreesExactly | frontend/src/lib/virtual-row-model.ts:117-138 | the index equals the linear search on a date if and only if it has at most one header |
| RowModel.DistinctDatesAgree | frontend/src/lib/virtual-row-model.ts:117-138 | for sections with distinct dates they always agree |

## Left out

- ArchiveLifecycle.GoneMeansRecorded: assumes that the state file stays readable between runs, because an unreadable one is loaded as empty.
- UploadSharing.LosesExactly: stated without a failure limit; with one, `ContendedCanLose` and `GoodNeverLost` leave open the runs whose limit is reached by permanently failed entries before the second entry of a shared key.
- ArchiveLifecycle.FileInvAlways: the lifecycle is a transition system on values; the fields of `archiveState` and `result` that only count are not in it.
- UploadPool.FailureLimitOvershoot: `retryCount` is a natural number; a negative one, with which no attempt is made at all, is not modelled.
- UploadPool.PrunedIsWindow: assumes a clock that does not go back.
- UploadBreaker.HeldBackExactly: assumes a clock that does not go back and stands past 1970, and timers that do not fire early.
- RunLock.AcquireAlone: the file calls of the classes are linked to the step protocol for calls that no other process disturbs; what interleaves is stated of the protocol.
- RunLock.MutualExclusion: holders are judged alive until they release; wrong liveness verdicts are the business of the counterexamples.
- IsoMedia.ScanAtoms: sizes are exact integers; the rounding of 64-bit sizes above 2^53 to doubles, and reads shorter than asked for, are not modelled.
- TreeMerge.FileSystem.MergeDirectory: whether calls can fail, and whether a failed copy can leave debris, are constants of a file system and not of single calls; the target directory exists, as its callers see to; symbolic links and other special files are not modelled.
- BatchTransfer.Transfer.Run: the source answers with a finite sequence of pages; the destination key is any function of the item, the size of a download any function of its number, and the size listed any function of the key and the number of uploads before.
- DateRefinement.RefineDatesFromAllMetadata: parsing of sidecar texts, the UTC calendar and Unicode normalization are arbitrary functions; the order that sorting gives an album with an invalid date among its dates is that of the model's insertion sort.
- ManifestDedup.DeduplicateManifest: the fingerprint is the pair of size and hash, not the joined string; hashing is a function of the path.
- CatalogDuplicates.BuildDuplicateGroups: the fingerprint is the pair of size and ETag; `localeCompare` is any total preorder.
- Csv.RowRoundTrip: the attempts column of the report is a number, which needs no escaping.
- Naming.UniqueDestinationName: the move that follows, and the case-insensitive comparison of the two directories before it, are not modelled.
- RowModel.BuildRowModel: `parseInt` is any function; `cols` is a whole number of at least 1.
- Existence caches and the preloaded destination index of the uploader: one nondeterministic outcome of the existence check.
- Committed bytes, speeds, estimates and progress snapshots of the uploader; callbacks return and come in time.
- The in-place fallback for full disks of `persistArchiveState`, the global manifest and its reconciliation, pause flags, reports.
- Dry runs of the incremental mode, which mark archives completed without uploading.
- Extraction, EXIF, hashing, encryption, S3, Google Photos, Redis and the database: foreign code.
- React components, command-line parsing, the catalog's server routes and the thumbnail cache.
