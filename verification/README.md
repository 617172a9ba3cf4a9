# brevi: what the lease protocol and its neighbours guarantee

brevi hands runs to worker machines. A run on a worker is covered by a *lease*; the worker reports
everything about it as numbered frames, over sockets that drop, to a host that may crash between
admitting a frame and writing it. This project models that reporting protocol, the crash recovery and
dispatch around it, and three smaller cores (config patches, cost roll-up, stream buffers), and proves
what they promise. `dafny verify dfyconfig.toml` checks all of it.

How it is laid out:

- **One lease, end to end.** `WorkerModel` and `HostModel` say on values what each handler of the two
  endpoints does; the classes in `WorkerConnection` and `HostRegistry` perform the same steps in place,
  with the source's loops, and each method is proved equal to its function. `LeaseSystem` puts the two
  together with sockets, stray frames of old sockets, writes that are rejected, refused or swallowed, a
  debounced watermark on disk, a worker that forgets the lease, expiry at any moment, crash and restart.
  `LeaseInvariant` and `LeaseSafety` prove safety of every run; `LeaseResending` says what goes out again,
  `LeaseAnswers` what the host answers and that a forgotten lease stays silent, `LeaseOrder` that frames
  take effect in the order they were numbered, `LeaseLate` exactly when they do not and `LeaseRejected` a
  run in which a rejected write makes it so; `LeaseCatchUp` says exactly when a lease can still catch up,
  `LeaseReplay` that every undisturbed replay then does, with `LeaseReplayWitness` for one that comes
  about; `LeaseExamples` and `LeaseHole` give the buffer bound and the two runs after which it never can,
  and `LeaseDiscards` (on `LeaseOneFrame`) the run that loses an acknowledged frame to a full disk.
- **The fence.** `Fence` is the pair of deadlines in time: that neither side gives a live lease up early,
  the exact bound on how long two workers may both think they have a run, and exactly which disconnects
  and restarts let it happen.
- **Crash recovery and dispatch.** `LeaseStoreModel`, `LeaseStoreRuns` and `LeaseStore` are the debounced
  file behind a serialized write queue, `RunRecovery` the recovery plan, `DurableDispatch` both together
  over crashes, `DispatchRecovery` what a restart makes of leases and queue, with `DispatchWitnesses` for
  the runs that hand a run out twice; `FleetPlacement` and `Scheduler` are placement and the FIFO drain.
- **The token refresh.** `TokenRefresh` and `LinearConnection`: a single-flight refresh against serialized
  config writes: which credentials an unfinished refresh may overwrite, and that in the order the host
  runs its continuations it overwrites none; `TokenWrites`: what a write stores, in full.
- **Smaller cores.** `ConfigPaths`, `ConfigPatch`; `CostModel`, `Costs`, `CostEntries`, `CostConservation`,
  `CostRows`; `Streams`.

Where the code and its own comments differ, the model follows the code:

- `capLeaseBuffer`'s comment says every drop is accounted for. The gap is recomputed only when something
  is dropped and reaches only to just below the oldest frame held, so a number dropped above a held frame
  stays unannounced (`UnannouncedHoleStrandsTheLease`; the exact condition is `DropAnnouncesWhatIsBelowTheOldest`
  and `CatchesUpExactlyWhenRecoverable`).
- The run-event handler's comment says the watermark waits for the append to reach disk, and the completion's
  comment that its ack means the host has everything. The watermark waits for the handler, and two handlers
  resolve when the disk fails: `appendEvent` and the memory store log a failed write and go on. So a run-event, or
  a run-memories, which the worker must never drop, can be recorded, acknowledged and missing on disk
  (`SwallowedFailureLosesMemories`); a disk failure is retried exactly for the other kinds
  (`DiskFailureIsRetriedExactlyWhen`), and run-patches, run-completes and accepted usage snapshots are sure.
- The run-event handler's comment says the chain keeps an event in wire order behind the patch ahead of it. That
  holds as long as no write is rejected (`FramesTakeEffectInOrder`): a rejected frame is resent behind what came
  after it, so an older run-patch may be merged over a newer one (`RejectedPatchTakesEffectLate`; exactly when is
  `FramesTakeEffectInOrderExactlyWhen`).
- `droppedSinceGap` is described as the drops since the last `lease-gap`; it is never reset, so it is the total
  over the lease (`AnnouncedCountIsTotal`).
- `#markApplied` says the watermark only ever moves there; `#skipLeaseGap` moves it too, and also releases a
  parked completion.
- The sweep's comment says that stopping past its own deadline keeps two workers off one branch. A disconnect
  or a restart pulls the host's deadline in without telling the worker, so the host may give the run away while
  the worker still claims it (`OverlapIsReal`), by at most the heartbeat timeout (`OverlapIsBounded`), and only
  if it ever told a deadline beyond the reconnect grace (`PullInOverlapsExactlyWhen`).
- `dispatch` says a crash must not leave a run dispatched a second time while the first worker is on it. Three
  steps can still put a run in two hands, and `StepKeepsOneHolderExactlyWhen` says exactly when: a retry of a
  run whose lease is still held; a claim whose write fails after its lease was settled and the run dispatched
  again, since the failure requeues the run without asking who holds it; and a restart from a file that names two
  leases for one run, which takes a frame's write landing on a settled lease. `DispatchWitnesses` has one run each.
- `LeaseStore.flush` promises every pending write on disk; a write that already failed is not retried by it
  (`FlushWritesTheMap`).
- A lease-ack may report a watermark the debounced file does not have yet, and a host restarted from that
  file waits for a frame the worker no longer holds (`CrashBehindDebounceStrandsTheLease`); nothing is lost.

The token refresh rests on two guards. The token check alone protects manual keys and disconnects, which drop the
stored token, whatever the order (`ManualKeysAndDisconnectsSurvive`). A grant that repeats the very token being
refreshed is protected only by the generation, which the connection reset moves: were an operation of the chain to
begin before that reset, the grant could be lost (`LandingIsOverwritableExactlyWhen`). In the code the reset runs in
the continuation of the write itself, which the language orders before the chain's next operation, and then every
change survives (`InstalledCredentialSurvives`).

## Model

| member | source | states |
|---|---|---|
| `WorkerModel.IndexOfIsFirst` | packages/worker/src/connection.ts:315-319 | the index searched for is the first frame of its kind, and the only such index |
| `WorkerModel.VictimIsCheapest` | packages/worker/src/connection.ts:315-324 | the cap picks the oldest run-event, without one the oldest run-artifact, and nothing exactly when neither is left |
| `WorkerModel.CapKeepsAllButCheapFrames` | packages/worker/src/connection.ts:312-340 | capping keeps order, loses only run-events and (once none is left) run-artifacts, never more than needed, and ends within 2000 frames or with nothing droppable |
| `WorkerModel.CapDropsTheOldest` | packages/worker/src/connection.ts:312-333 | of each kind the cap loses the oldest frames |
| `WorkerModel.AboveMembers` | packages/worker/src/connection.ts:689 | trimming at an ack keeps exactly the frames above the watermark |
| `WorkerModel.UndeliveredFacts` | packages/worker/src/connection.ts:342-349 | a flush hands over only held frames this socket has not seen, and all of those |
| `WorkerConnection.LeaseConnection.DropCheapFrames` | packages/worker/src/connection.ts:312-333 | the in-place loop leaves the capped buffer, counts the drops, and forgets the dropped frames' delivery |
| `WorkerConnection.LeaseConnection.CapLeaseBuffer` | packages/worker/src/connection.ts:312-340 | dropping accounts for itself: the gap rises to just below the oldest frame held and is announced |
| `WorkerConnection.LeaseConnection.FlushLease` | packages/worker/src/connection.ts:342-349 | the loop refines the model's flush: nothing while unregistered or waiting for an ack, else every unseen frame in order |
| `WorkerConnection.LeaseConnection.SendReporting` | packages/worker/src/connection.ts:351-361 | numbering, buffering, capping and sending a frame refine one model step |
| `WorkerConnection.LeaseConnection.OnLeaseAck` | packages/worker/src/connection.ts:680-709 | an ack trims, makes every kept frame eligible again when the watermark is stalled, and replays |
| `WorkerConnection.LeaseConnection.ReportLeaseGap` | packages/worker/src/connection.ts:297-300 | the hole is announced through the generic queue, and only if there is one |
| `WorkerConnection.LeaseConnection.OnRegistered` | packages/worker/src/connection.ts:504-523 | registration restates the hole and flushes the generic queue |
| `WorkerConnection.LeaseConnection.OnReplayBackstop` | packages/worker/src/connection.ts:531-537 | the backstop unblocks and resends a buffer still waiting for an ack, and leaves any other alone |
| `HostModel.PulledIsTheContiguousPrefix` | packages/orchestrator/src/workers.ts:1255-1256 | the watermark stops at the first missing number, having stepped only over applied ones |
| `HostRegistry.Lease.AdmitFrame` | packages/orchestrator/src/workers.ts:1200-1207 | a frame is admitted exactly when it is above the watermark, not applied ahead and not being written |
| `HostRegistry.Lease.HandleReport` | packages/orchestrator/src/workers.ts:1200-1240 | exactly an admitted frame of a held lease goes in flight, each frame in one place, and it is not admitted twice; nothing is applied yet |
| `HostRegistry.Lease.MarkApplied` | packages/orchestrator/src/workers.ts:1249-1264 | recording a write pulls the watermark in place until the next number is unapplied, and leaves no completion parked without a hole |
| `HostRegistry.Lease.SkipLeaseGap` | packages/orchestrator/src/workers.ts:1276-1298 | a gap steps the watermark over its range and then over what was applied above it |
| `HostRegistry.Lease.HeadSettled` | packages/orchestrator/src/workers.ts:1221-1240 | a landed write is recorded and never admitted again; a failed one is admissible exactly when no gap has passed it |
| `HostRegistry.Lease.FinishCompletion` | packages/orchestrator/src/workers.ts:2166-2187 | settling a written completion leaves the watermark at or above it and the lease released, also when the lease expired while it was being written |
| `HostRegistry.Lease.CompletionRejected` | packages/orchestrator/src/workers.ts:1930-1943 | a completion that did not land is admissible again exactly when no gap has passed it |
| `LeaseSafety.StepKeepsInv` | packages/orchestrator/src/workers.ts:1200-1298 | every step of worker, socket and host keeps the invariant, and within a host life the watermark never moves back |
| `LeaseSafety.NothingIsLost` | packages/worker/src/connection.ts:312-403 | after every run, each frame ever reported is still buffered by a worker that has the lease, or settled (stored as it was, recorded without a store as its kind or content allows, or a cheap frame the cap dropped), or was held when the worker forgot the lease on being disowned or past its deadline |
| `LeaseSafety.ForgettingIsJustified` | packages/worker/src/connection.ts:400-423 | the worker forgets a lease only with every frame settled after the run-complete's ack, or after the host said it does not hold it (with every frame settled too, if the completion was finished), or past its own deadline |
| `LeaseSafety.NothingIsInvented` | packages/orchestrator/src/workers.ts:1200-1240 | the run store holds only frames the worker reported, under their own numbers |
| `LeaseSafety.AcknowledgedCompletionIsComplete` | packages/orchestrator/src/workers.ts:2139-2187 | a run-complete is acknowledged only when every frame is settled, and every run-patch, every usage snapshot the checks accept, and the completion are in the store |
| `LeaseSafety.AcknowledgedFramesAreSettled` | packages/orchestrator/src/workers.ts:1209-1240 | a lease-ack covers only settled frames, and each run-patch and each usage snapshot the checks accept that it covers is in the store |
| `LeaseSafety.HealthyDiskStoresWhatIsAcknowledged` | packages/orchestrator/src/workers.ts:1832-1960 | as long as no swallowed write fails, every acknowledged run-patch, run-complete, run-memories and usage snapshot that was not refused is in the store |
| `LeaseDiscards.SwallowedFailureLosesMemories` | packages/integrations/src/memory.ts:276-302 | a run in which a run-memories meets a full disk: acknowledged and trimmed, not on disk, no copy left in the protocol, its resend refused |
| `LeaseSafety.WrittenAtMostOnce` | packages/orchestrator/src/workers.ts:1200-1240 | within one host life no number's handler resolves twice, under duplication, resending, failures and gaps |
| `LeaseOrder.FramesTakeEffectInOrder` | packages/orchestrator/src/workers.ts:1221-1240 | from a lease's dispatch or a restart on, as long as no handler rejects and no stray message gets through, handlers resolve in the order the worker numbered the frames, the run-complete excepted, through drops, reconnects, resends, gaps and expiry |
| `LeaseLate.StepKeepsOrderExactlyWhen` | packages/orchestrator/src/workers.ts:1200-1240 | from a state in which what took effect and what is on the chain are in order, a step of any kind keeps them so if and only if it does not hand the host a frame it admits behind a later one |
| `LeaseLate.FramesTakeEffectInOrderExactlyWhen` | packages/orchestrator/src/workers.ts:1200-1240 | over every run, rejections, strays and crashes included: as long as no frame arrives late, a host life's frames take effect in order; after the first that does, the chain's handlers need only resolve for it to take effect behind a later one |
| `LeaseLate.RejectionOvertakesExactlyWhen` | packages/orchestrator/src/workers.ts:1225-1236 | a rejected write leaves its frame behind a later one if and only if another is on the chain, no gap has passed the frame, and the worker still holds it or the socket still brings it |
| `LeaseLate.StrayOvertakesExactlyWhen` | packages/orchestrator/src/workers.ts:1200-1207 | a message of an old socket overtakes a wanted frame if and only if it is a frame the host admits to the chain while an earlier one is still to come |
| `LeaseRejected.RejectedPatchTakesEffectLate` | packages/orchestrator/src/workers.ts:1221-1240 | a run in which a run-patch whose write was rejected is applied after a later one |
| `LeaseSafety.DiskFailureIsRetriedExactlyWhen` | packages/orchestrator/src/workers.ts:1221-1240 | in every reachable state a frame whose disk write failed is admissible again exactly when it is a run-patch, or an artifact or usage snapshot not refused, and no gap has passed it |
| `LeaseSafety.HandlersEndAs` | packages/orchestrator/src/workers.ts:1819-1930 | kind by kind, in every reachable state: refused content is settled unstored, a working disk stores the rest, a failing one leaves a run-event or run-memories settled without it and rejects the others |
| `LeaseSafety.OnlyCheapFramesAreDropped` | packages/worker/src/connection.ts:303-330 | in every reachable state only run-events and run-artifacts were ever given up on |
| `LeaseSafety.WatermarkIsSound` | packages/orchestrator/src/workers.ts:1249-1298 | what is at or below the watermark is settled, and stored, discarded or covered by a gap; what is applied ahead lies above it, is stored or discarded, and not in flight |
| `LeaseSafety.AnnouncedGapsAreSound` | packages/worker/src/connection.ts:297-340 | a gap, wherever it travels, lies below every held frame and covers only acknowledged or dropped cheap frames |
| `LeaseSafety.CompletionWaitsExactlyForTheHole` | packages/orchestrator/src/workers.ts:2147-2214 | a parked completion has a hole below it; below one being applied every frame is settled |
| `LeaseCatchUp.RecoverableLeaseCatchesUp` | packages/worker/src/connection.ts:702-707 | whenever every number is held, announced, with the host or on its way, stray messages included, some run without a new report brings the watermark to the last frame |
| `LeaseReplay.EveryReplayCatchesUp` | packages/worker/src/connection.ts:504-537 | after a reconnect, acks of this host life, the backstop, deliveries, strays and host work in any order whatever, nothing rejected or crashing, end caught up once the worker may send, the socket is drained and the host idle; no stray is counted on |
| `LeaseReplayWitness.ReplayComesAbout` | packages/worker/src/connection.ts:504-537 | such a replay exists for a lease that was behind: a frame reported offline goes out at the backstop, is written and recorded |
| `LeaseCatchUp.HoleNeverCloses` | packages/worker/src/connection.ts:333-339 | as long as the worker reports nothing new, a number out of reach stays out of reach and the watermark below it, through crashes, reconnects and strays |
| `LeaseCatchUp.CatchesUpExactlyWhenRecoverable` | packages/worker/src/connection.ts:333-339 | as long as the worker reports nothing new, a live lease can catch up if and only if no number is out of reach |
| `LeaseCatchUp.HoleBlocksEveryRun` | packages/worker/src/connection.ts:333-339 | once the run-complete is reported, a number out of reach keeps the watermark below it in every run whatever |
| `LeaseCatchUp.CompletedLeaseCatchesUpExactlyWhenRecoverable` | packages/worker/src/connection.ts:680-709 | once the run-complete is reported, some run of any steps catches up if and only if no number is out of reach |
| `LeaseCatchUp.CaughtUpMeansCompleted` | packages/orchestrator/src/workers.ts:2194-2214 | catching up on a completed run means its completion was applied and the lease settled, unless a restart restored the lease from a file that had the completion's own watermark |
| `LeaseCatchUp.OrdinaryLeaseIsRecoverable` | packages/worker/src/connection.ts:680-709 | for a worker that has the lease, nothing dropped above the gap and a watermark not behind the last trimmed ack suffice for catching up |
| `LeaseExamples.BufferIsBounded` | packages/worker/src/connection.ts:312-340 | in every reachable state the buffer is within 2000 frames or holds nothing droppable |
| `LeaseExamples.DropAnnouncesWhatIsBelowTheOldest` | packages/worker/src/connection.ts:333-339 | after a drop, a dropped number is announced exactly when it is below the oldest frame held |
| `LeaseExamples.DropIsAnnounced` | packages/worker/src/connection.ts:333-339 | a drop that leaves a gap puts it, with the total count, on a registered socket at once, else on the queue |
| `LeaseExamples.NothingIsSentPastTheGap` | packages/worker/src/connection.ts:342-361 | while the worker waits for an ack, a report puts no frame on the wire |
| `LeaseResending.FlushSendsExactlyTheUnseen` | packages/worker/src/connection.ts:342-349 | a flush that may send puts out exactly the held frames this socket has not seen, in ascending order, after what was already out |
| `LeaseResending.ReportGoesOutAtOnce` | packages/worker/src/connection.ts:351-361 | on a socket that may send, a report is numbered next, kept, and goes out at once |
| `LeaseResending.AckSendsExactly` | packages/worker/src/connection.ts:680-709 | an ack puts out exactly the held frames above it the socket has not seen, and all above it if it repeats the last watermark; it keeps exactly those above it |
| `LeaseResending.ReconnectedWorker` | packages/worker/src/connection.ts:504-523 | a reconnect in full: the new socket carries the queue and the restated gap, nothing else changes, and nothing may go out before an answer |
| `LeaseResending.RepeatedAckResendsEverything` | packages/worker/src/connection.ts:690-707 | on a healthy socket, a second ack with the same watermark resends every frame above it |
| `LeaseResending.AckAfterReconnectReplays` | packages/worker/src/connection.ts:702-730 | after a reconnect, the first ack replays a held frame exactly when it is above the watermark |
| `LeaseResending.BackstopSendsEverything` | packages/worker/src/connection.ts:524-537 | without any ack after a reconnect, the backstop unblocks the buffer and sends everything held |
| `LeaseResending.AnnouncedCountIsTotal` | packages/worker/src/connection.ts:333-339 | in every reachable state the count a gap carries is the number of frames the lease ever dropped |
| `LeaseAnswers.DroppedFramesAreNotDelivered` | packages/worker/src/connection.ts:321-323 | in every reachable state no frame the cap dropped still counts as handed to the socket |
| `LeaseAnswers.AnswersAre` | packages/orchestrator/src/workers.ts:1162-1170 | the host tells its watermark only while it holds the lease, disowns it only while it does not, and acknowledges a completion exactly when it finishes one with the worker connected, releasing the lease |
| `LeaseAnswers.FailedCompletionIsRetried` | packages/orchestrator/src/workers.ts:1930-1943 | in every reachable state a completion whose write failed leaves no trace: its resend is admitted and, while the lease is held, taken up anew |
| `LeaseAnswers.ExpiryTakesOnlyTheParked` | packages/orchestrator/src/workers.ts:1702-1732 | an expiry releases the lease and drops a parked completion, and leaves one under way, the chain and the watermark alone |
| `LeaseAnswers.ForgottenLeaseSendsNothing` | packages/worker/src/connection.ts:400-403 | once the completion's ack, a lease-lost or the deadline made the worker forget a lease, no run puts a frame of it on any socket again |
| `LeaseAnswers.RestartResumesFromTheFile` | packages/orchestrator/src/workers.ts:988-1003 | a restarted host takes a lease up at the watermark the file has, with nothing in flight |
| `LeaseAnswers.StraysMaySurface` | packages/orchestrator/src/workers.ts:1639-1656 | whatever a dropped socket still held may surface later, more than once |
| `LeaseExamples.CrashBehindDebounceStrandsTheLease` | packages/orchestrator/src/leases.ts:128-133 | a run, ending in the run-complete, in which the acknowledged watermark was not on disk at the crash; no continuation moves the watermark past the trimmed frame |
| `LeaseHole.UnannouncedHoleStrandsTheLease` | packages/worker/src/connection.ts:333-339 | a run, ending in the run-complete, in which a frame dropped above a held one is never announced; no continuation moves the watermark past it |
| `Fence.OverlapIsBounded` | packages/orchestrator/src/workers.ts:1122-1177 | once the host gives a lease up, the worker's deadline is at most a heartbeat timeout later, and one sweep of five seconds after that it has abandoned the run |
| `Fence.OverlapIsReal` | packages/orchestrator/src/workers.ts:1673-1690 | the bound is exact: a run in which the worker still claims the lease one millisecond before it |
| `Fence.LateSweepIsReal` | packages/worker/src/connection.ts:406-427 | so is the bound on the sweep: a run in which the worker is at the run until one millisecond before it |
| `Fence.RenewedLeaseIsKept` | packages/orchestrator/src/workers.ts:1144-1153 | a lease in active use never comes due: after a frame, heartbeat or registration, no run without a disconnect or restart expires it for a heartbeat timeout and a grace |
| `Fence.SilentLeaseComesDueExactly` | packages/orchestrator/src/workers.ts:1317-1329 | in silence the host may give a lease up from exactly then on; after a disconnect or a restart, from exactly the grace on |
| `Fence.ToldDeadlineCanBeHeard` | packages/orchestrator/src/workers.ts:1162-1170 | after any run a deadline the host tells is a full budget away and can be heard at any later time while the worker claims the lease |
| `Fence.WorkerKeepsTheDeadlineItHeard` | packages/worker/src/connection.ts:414-422 | having heard a deadline the worker does not abandon the run before it unless told an earlier one; at a sweep it abandons exactly when due |
| `Fence.PullInOverlapsExactlyWhen` | packages/orchestrator/src/workers.ts:1173-1177 | after any run, a disconnect or restart lets host and worker overlap, without another unsafe one, if and only if some told deadline lies beyond the reconnect grace from now |
| `Fence.SafePullInsNeverOverlap` | packages/orchestrator/src/workers.ts:1639-1690 | if every pull-in finds all told deadlines within the reconnect grace, the host gives up only at or after the worker's deadline |
| `Fence.NoOverlapWithoutPullIn` | packages/orchestrator/src/workers.ts:1122-1177 | without a disconnect or restart the host gives up only at or after the worker's deadline |
| `LeaseStoreModel.FlushWritesTheMap` | packages/orchestrator/src/leases.ts:123-126 | a quiet flush ends with the file equal to the map exactly when it found work or the file already was |
| `LeaseStoreRuns.FileIsAnEarlierMap` | packages/orchestrator/src/leases.ts:94-141 | after any operations and failing writes the file is the whole map as it was at some earlier moment |
| `LeaseStoreRuns.FileDiffersOnlyWhileWorkIsPending` | packages/shared/src/jsonStore.ts:12-37 | file and map differ only while a timer is armed, a task is unfinished, or the last write failed; tasks run singly and in order |
| `LeaseStoreRuns.QueuedWriteHasTheChange` | packages/orchestrator/src/leases.ts:91-141 | a new lease, a claim, a removal, a fired timer and a flush with the timer armed queue a write at once, and what that write stores is the map as of then or later; any other put only arms the timer |
| `LeaseStoreRuns.OnlyLandingChangesTheFile` | packages/orchestrator/src/leases.ts:91-141 | the file changes exactly by a write that lands, the map exactly by puts and removals |
| `LeaseStore.LeaseStore.AwaitFlush` | packages/orchestrator/src/leases.ts:123-126 | awaiting a flush, in place, ends with the file equal to the map exactly when it found work or the file already was |
| `RunRecovery.RestoredLeaseDecides` | packages/orchestrator/src/scheduler.ts:163-182 | a run with a restored lease is neither queued nor interrupted whatever its status; any other is queued exactly when its status is |
| `RunRecovery.SortFacts` | packages/orchestrator/src/scheduler.ts:174-177 | sorting by time queued is an ordered, stable permutation |
| `RunRecovery.PlanQueuesInOrder` | packages/orchestrator/src/scheduler.ts:172-177 | the plan's queue names no run twice, and of two queued runs without a restored lease the one queued earlier stands earlier, ties in listed order |
| `DurableDispatch.SentLeaseIsOnDisk` | packages/orchestrator/src/workers.ts:751-816 | after every run, a dispatched lease the host holds is in the map, in the file and in every version being written |
| `DispatchRecovery.DispatchGoesOutExactlyWhen` | packages/orchestrator/src/workers.ts:781-814 | in every reachable state a dispatch goes out exactly when the write of its own claim lands with the lease still held, and then the lease is in the file |
| `DispatchRecovery.RestartRestoresExactly` | packages/orchestrator/src/workers.ts:977-1013 | after any run a restart takes over exactly the filed leases whose run is known and unfinished, and queues exactly the runs recorded as queued that none of them holds |
| `DispatchRecovery.RestartQueuesInOrder` | packages/orchestrator/src/scheduler.ts:163-182 | after any run a restart's queue is first in, first out: queued earlier stands earlier, ties in listed order |
| `DispatchRecovery.FileFollowsTheMap` | packages/orchestrator/src/leases.ts:91-141 | across crashes, with nothing pending and the last write landed, the file is the map, dropped leases gone |
| `DispatchRecovery.WatermarkReachesTheMap` | packages/orchestrator/src/workers.ts:1249-1264 | a watermark, late or not, is in the map under its lease and run and on its way to the file |
| `DispatchRecovery.TimerQueuesTheWrite` | packages/orchestrator/src/leases.ts:128-141 | the debounce timer fires into a queued write |
| `DispatchRecovery.StatusIsRecorded` | packages/orchestrator/src/scheduler.ts:2036-2046 | in every reachable state a run's status is what was last recorded, the other runs untouched |
| `DispatchRecovery.GivenBackGoesFirst` | packages/orchestrator/src/scheduler.ts:2385-2404 | a rejected run and one whose claim failed lose the lease and go to the head of the queue, unless no longer queued or on it already |
| `DispatchRecovery.RequeuedGoesLast` | packages/orchestrator/src/scheduler.ts:2036-2057 | a retried or resumed run goes to the end of the queue and keeps its place if it has one |
| `DispatchRecovery.DispatchTakesTheFirst` | packages/orchestrator/src/scheduler.ts:2255-2315 | a new run goes last, and a dispatch takes the first run of the queue, for a lease at watermark 0 that nobody has been told of yet |
| `DispatchRecovery.CancelTakesOneRun` | packages/orchestrator/src/scheduler.ts:1362-1388 | a cancel takes exactly that run off the queue, the others staying in order |
| `DurableDispatch.StepKeepsOneHolderExactlyWhen` | packages/orchestrator/src/workers.ts:793-812 | from one holder per run a step leaves one holder per run if and only if it is not a retry of a leased run, not a claim failing behind another lease with its run queued in the store only, and not a restart from a file with two leases for a run |
| `DurableDispatch.NoRunIsHandedOutTwice` | packages/orchestrator/src/workers.ts:742-750 | in every run without such a step no two held leases are for one run, and no leased run is queued |
| `DurableDispatch.StepKeepsVersionsCleanExactlyWhen` | packages/orchestrator/src/workers.ts:1249-1261 | from a map, file and snapshot with at most one lease per run, a step keeps them so if and only if it is no late write on a settled lease, nor a dispatch, of a run for which the map has another lease |
| `DurableDispatch.CrashOvertakesOnlyAfterADoubling` | packages/orchestrator/src/workers.ts:977-1013 | as long as no step does that, a crash at any point keeps one holder per run |
| `DurableDispatch.DoublingLetsACrashOvertake` | packages/orchestrator/src/workers.ts:977-1013 | after a step that does, for an unfinished run, the queued writes landing and a crash put the run in two hands |
| `DurableDispatch.CrashOvertakesOnlyAfterALateWrite` | packages/orchestrator/src/workers.ts:977-1013 | in an orderly run in which no write lands on a settled lease, no step does that |
| `DispatchWitnesses.RetryOfALeasedRun` | packages/orchestrator/src/scheduler.ts:2036-2057 | a run in which a retry queues a run whose lease is held, and two dispatched leases hold it |
| `DispatchWitnesses.FailedClaimBehindAnother` | packages/orchestrator/src/workers.ts:799-812 | a run in which a claim fails after its lease was settled and the run dispatched again, and two dispatched leases hold it |
| `DispatchWitnesses.LateWriteThenCrash` | packages/orchestrator/src/workers.ts:1249-1261 | a run in which a write landing on a settled lease puts it back in the file, and after a restart two dispatched leases hold its run |
| `DurableDispatch.CrashKeepsDispatchedRuns` | packages/orchestrator/src/workers.ts:977-1013 | after a crash at any step the restarted host takes over every dispatched lease and recovery never queues its run |
| `DurableDispatch.QueueHasNoRepeats` | packages/orchestrator/src/scheduler.ts:2385-2402 | over any enqueues, rejections, requeues, cancels, dispatches and recoveries the queue holds no run twice |
| `FleetPlacement.PlacementIsBest` | packages/orchestrator/src/workers.ts:1076-1119 | a worker is found exactly when one is eligible, and it is eligible with most free slots, then least id |
| `FleetPlacement.LoadCountsLeases` | packages/orchestrator/src/workers.ts:1056-1062 | a worker's load is the number of leases it holds |
| `FleetPlacement.RefusalNamesTheFirstObstacle` | packages/orchestrator/src/workers.ts:1076-1112 | a reason is given exactly when its test is the first that leaves nobody, the tests before it having left someone |
| `Scheduler.Orchestrator.DispatchQueued` | packages/orchestrator/src/scheduler.ts:2269-2321 | the drain loop, in place, comes to the drain function, and to nothing once stopped |
| `Scheduler.Orchestrator.ExplainQueue` | packages/orchestrator/src/scheduler.ts:2302-2307 | writing the reason only where it changed still leaves it on every waiting run |
| `Scheduler.DrainStopsAtTheFirstThatCannotBePlaced` | packages/orchestrator/src/scheduler.ts:2289-2309 | what remains is a suffix, empty or headed by a ready run for which no worker is eligible, and carries the reason |
| `Scheduler.DrainIsFifo` | packages/orchestrator/src/scheduler.ts:2269-2321 | leases are taken in queue order for runs of the drained part, and none is lost |
| `Scheduler.DrainPlacesBest` | packages/orchestrator/src/scheduler.ts:2289-2311 | each lease a drain takes goes to a worker eligible at that moment with most free slots, then least id |
| `Scheduler.DrainRespectsCapacity` | packages/orchestrator/src/workers.ts:1057-1062 | no drain takes a worker above its concurrency |
| `Scheduler.DrainedRunsAreAccountedFor` | packages/orchestrator/src/scheduler.ts:2277-2288 | a run that left the queue without a lease was no longer queued or failed because no dispatch could be built |
| `Scheduler.DrainChangesOnly` | packages/orchestrator/src/scheduler.ts:2269-2321 | a drain's effect on each run in full: a leased one loses its queue reason and follow-up mark, a waiting one carries the reason, an undispatchable one failed, and nothing else changes |
| `TokenRefresh.LandingIsOverwritableExactlyWhen` | packages/orchestrator/src/scheduler.ts:1959-1973 | in any reachable state a landing user write can be overwritten by the unfinished refresh if and only if it carries the token that refresh started from and no reset has run since |
| `TokenRefresh.ManualKeysAndDisconnectsSurvive` | packages/orchestrator/src/scheduler.ts:1034-1042 | a manual key or a disconnect, once landed, is never overwritten, in whatever order resets and operations run |
| `TokenRefresh.AdoptedEditsSurvive` | packages/orchestrator/src/scheduler.ts:1845-1852 | a hand edit, once adopted, is never overwritten by a refresh |
| `TokenRefresh.ThreatIsReachable` | packages/orchestrator/src/scheduler.ts:1144-1155 | a grant that repeats the token being refreshed gets to land before its reset: the condition is no empty case |
| `TokenRefresh.InstalledCredentialSurvives` | packages/orchestrator/src/scheduler.ts:1226-1254 | when resets run before the chain's next operation, after every run what is stored is the credential last installed or a refresh of it |
| `TokenWrites.RefreshStoresWhatWasGranted` | packages/orchestrator/src/scheduler.ts:1788-1800 | over every run, when a response's save lands, snapshot and file have the granted key and the rotated refresh token, or without one the token the refresh started from |
| `TokenWrites.ChangeStoresWhatWasAsked` | packages/orchestrator/src/scheduler.ts:1034-1042 | over every run, when a manual key, disconnect or grant lands, snapshot and file are exactly what was asked for; the first two leave no refresh token |
| `TokenWrites.OnlyLandingsAndEditsChangeIt` | packages/orchestrator/src/scheduler.ts:1818-1857 | the snapshot changes only by a landing write or by a look at the file, which leaves it with the file's content; the file only by a landing write or an edit |
| `TokenWrites.EditIsAdopted` | packages/orchestrator/src/scheduler.ts:1818-1857 | an edit of the file looked at with nothing queued ahead is adopted as it was written |
| `TokenWrites.NothingToWaitFor` | packages/orchestrator/src/scheduler.ts:1808-1816 | after a reset, an adopted edit or a stored response no attempt waits; a final or stale refusal arms nothing |
| `TokenRefresh.ReachableSound` | packages/orchestrator/src/scheduler.ts:1939-1955 | after every run at most one refresh is in flight or queued to be stored, and the backoff counts the transient failures in a row |
| `TokenRefresh.WaitDoublesUpToTheCap` | packages/orchestrator/src/scheduler.ts:1985-1989 | the wait starts at a minute, doubles, and stays at fifteen minutes from the fifth failure on |
| `TokenRefresh.FailureArmsTheBackoff` | packages/orchestrator/src/scheduler.ts:1980-1991 | after the k-th transient failure in a row the next attempt is possible exactly once the k-th wait has passed |
| `TokenRefresh.FailedSaveArmsTheBackoff` | packages/orchestrator/src/scheduler.ts:1959-1991 | a failing save of the granted tokens counts as one more transient failure and is waited out alike; the credential stays |
| `LinearConnection.Orchestrator.RunNextOp` | packages/orchestrator/src/scheduler.ts:1959-1973 | the credential changes only by adopting an edited file; a response begins to be stored exactly when token and generation are unmoved, and then it descends from what is installed |
| `LinearConnection.Orchestrator.ResetLinearConnection` | packages/orchestrator/src/scheduler.ts:1808-1816 | after a reset no refresh begun before it can be stored any more |
| `ConfigPaths.SplitConfigPath` | packages/shared/src/settings.ts:90-107 | the scanning loop computes the recursive split, which always yields at least one segment |
| `ConfigPaths.SplitUndoesJoin` | packages/shared/src/settings.ts:86-107 | splitting a joined path gives back the segments, empty ones and ones full of dots and backslashes included |
| `ConfigPaths.JoinIsInjective` | packages/shared/src/settings.ts:80-88 | two non-empty lists of segments that join alike are equal |
| `ConfigPaths.PlainSegmentsJoinAsTheyStand` | packages/shared/src/settings.ts:86-107 | segments free of dots and backslashes join as they stand with dots between them, and split back at the dots |
| `ConfigPaths.EscapingAddsBackslashes` | packages/shared/src/settings.ts:86-88 | escaping adds one backslash for each dot and backslash and nothing else |
| `ConfigPaths.StrayBackslashes` | packages/shared/src/settings.ts:90-107 | in paths no join writes, a backslash stands for the character after it, and at the very end for itself |
| `ConfigPatch.MergeConfigPatch` | packages/shared/src/settings.ts:113-134 | the loop over the patch's keys computes the merge |
| `ConfigPatch.ReadConfigPath` | packages/shared/src/settings.ts:152-159 | the cursor loop reads what the recursive definition reads |
| `ConfigPatch.ExpandConfigPatch` | packages/shared/src/settings.ts:165-181 | the loops build the nested patch, unsafe paths skipped |
| `ConfigPatch.SavedEntriesReadBack` | packages/shared/src/settings.ts:113-181 | each entry of a prefix-free safe form reads back from the merged config, null as missing, on any base |
| `ConfigPatch.SavedFieldReadsBack` | packages/shared/src/settings.ts:86-181 | the same through the joined paths a form exchanges |
| `ConfigPatch.SavingLeavesOtherPaths` | packages/shared/src/settings.ts:113-181 | every path incomparable to the form's reads as before |
| `ConfigPatch.MergeIsIdempotent` | packages/shared/src/settings.ts:113-134 | merging a patch twice is merging it once |
| `ConfigPatch.UnsafeNamesAreNeverTouched` | packages/shared/src/settings.ts:119-131 | at every depth a merge leaves what the base holds under `__proto__`, `constructor` and `prototype`, and creates nothing there |
| `ConfigPatch.LastEntryDecides` | packages/shared/src/settings.ts:165-181 | an entry with an unsafe name anywhere in its path expands to nothing; any other reads back over whatever came before |
| `ConfigPatch.MergeMakesObjects` | packages/shared/src/settings.ts:126-131 | where the patch has an object, empty or not, the merged config has one |
| `Costs.MergeByModel` | packages/worker/src/costs.ts:177-195 | the loop merges samples per model |
| `Costs.RollUp` | packages/worker/src/costs.ts:197-215 | one pass gives the token sum, the cost sum and the best row |
| `Costs.PriceGaps` | packages/worker/src/costs.ts:224-234 | pricing gaps in place, the running cost ends as the sum of the priced rows |
| `Costs.BuildEntry` | packages/worker/src/costs.ts:162-283 | the entry built step by step is the one the specification describes, and is unmarked exactly when no figure in it is an estimate |
| `CostEntries.MergedRowsAreTheirModels` | packages/worker/src/costs.ts:177-195 | merging: one row per model in order of first appearance, each exactly its model's samples, a counter or cost present exactly when a sample has it |
| `CostEntries.UnmarkedExactlyWhen` | packages/worker/src/costs.ts:217-263 | an entry is unmarked if and only if it is no subscription's and either some sample has a cost and no row had to be priced from the table, or none has and the provider gave a total |
| `CostEntries.EntryCostIs` | packages/worker/src/costs.ts:257-281 | the cost by precedence: the provider's total, else the rows' own figures or the table's, else without samples the table's for the entry |
| `CostEntries.EntryUsageIs` | packages/worker/src/costs.ts:236-250 | the usage is the provider's totals, else the samples' sums, a cache counter present exactly when a sample has it |
| `CostEntries.EntryModelIs` | packages/worker/src/costs.ts:199-248 | the entry is named after the execution's model, else the first dearest row, or the first largest when none has a cost, else the fallback; an empty name is none |
| `CostEntries.BreakdownExactlyWhen` | packages/worker/src/costs.ts:251-255 | an entry has a breakdown if and only if its samples are of two models at least and each has one |
| `CostEntries.BreakdownRowsAre` | packages/worker/src/costs.ts:217-255 | a breakdown is the row of each model, with its own cost or the table's |
| `Costs.RollUpRun` | packages/shared/src/types.ts:230-278 | the loops compute the run's totals and ranked rows |
| `CostConservation.MergeConserves` | packages/worker/src/costs.ts:133-195 | merging samples keeps all four token sums and the cost sum |
| `CostConservation.MergeHasOneRowPerModel` | packages/worker/src/costs.ts:178-195 | merged rows have distinct models |
| `CostConservation.BestRowIsDearest` | packages/worker/src/costs.ts:199-215 | the row that names the entry is the dearest if any has a cost, else one with most tokens |
| `CostConservation.MostTokensIsMost` | packages/shared/src/types.ts:216-224 | the fallback target of a session cost has the most tokens |
| `CostConservation.EntryConservesSamples` | packages/worker/src/costs.ts:236-245 | without provider totals an entry's tokens are its samples' |
| `CostConservation.UnmarkedCostIsReported` | packages/worker/src/costs.ts:257-281 | an unmarked entry's cost is exactly the provider's total, or the sum of the samples' own costs (`UnmarkedExactlyWhen` says when it is unmarked) |
| `CostConservation.ContributionsConserveTokens` | packages/shared/src/types.ts:185-227 | per-model contributions sum to the entry's tokens exactly when there is no breakdown, no provider total, or the total agrees |
| `CostConservation.ContributionsConserveCost` | packages/shared/src/types.ts:211-227 | per-model costs sum to the entry's cost exactly when there is no breakdown, no provider cost, no row cost, or they agree |
| `CostConservation.RunTotalsAreConserved` | packages/shared/src/types.ts:230-278 | a run's per-model rows sum to its totals, tokens and cost, when no entry mixes provider totals with samples' |
| `CostConservation.RankedIsInRank` | packages/shared/src/types.ts:270-275 | rows come dearest first, unpriced ones last by tokens |
| `CostConservation.RankingPermutes` | packages/shared/src/types.ts:270-275 | ordering loses and repeats no row |
| `CostRows.EveryRowIsItsModels` | packages/shared/src/types.ts:247-275 | one row per contributed model, with exactly that model's tokens, cost and estimate mark, in rank order |
| `CostRows.RankingIsStable` | packages/shared/src/types.ts:270-275 | rows that tie keep the order they had |
| `CostRows.RowsBeginInOrder` | packages/shared/src/types.ts:247-268 | before ranking, rows are in the order in which their models were first contributed |
| `CostRows.ContributionsAre` | packages/shared/src/types.ts:185-227 | what an entry contributes, row by row: its own figures, or each breakdown row marked as the entry is, with a session cost put on the row of the entry's own model, else on the first with most tokens |
| `CostRows.TotalsAreTheEntries` | packages/shared/src/types.ts:230-246 | a run's totals are its entries' sums, priced exactly when some entry is, and marked estimated exactly when some entry is |
| `Streams.OutputBuffer.Push` | packages/sandbox/src/exec.ts:147-154 | text is forwarded, and what is held is the last 2 Mi characters of everything pushed, with the right length |
| `Streams.OutputBuffer.Trim` | packages/sandbox/src/exec.ts:162-175 | trimming terminates and leaves exactly the last characters |
| `Streams.Capture` | packages/sandbox/src/exec.ts:137-176 | a stream's captured text is its last 2 Mi characters, for every chunking |
| `Streams.LineSink.Write` | packages/worker/src/util.ts:22-31 | after any write the lines handed on are those of the whole text so far, and the buffer is its unfinished line |
| `Streams.LineSink.Flush` | packages/worker/src/util.ts:32-35 | a flush hands on the unfinished line as it stands, unless blank |
| `Streams.SinkLines` | packages/worker/src/util.ts:18-36 | the lines of a stream depend only on its text, not on its chunks |
| `Streams.ReadInParts` | packages/worker/src/util.ts:22-31 | reading a text in two parts gives the lines of the whole |
| `Streams.WrittenLinesReadBack` | packages/worker/src/util.ts:18-36 | lines written with either line ending read back as they were |
| `Streams.HandedOnExactlyWhen` | packages/worker/src/util.ts:22-31 | a line is handed on exactly when it has a character that is not white space, and then as it is |
| `Streams.UnfinishedLineStands` | packages/worker/src/util.ts:32-35 | what follows the last line break is handed on as it stands, a carriage return at its end included |

## Left out

- WebSocket, HTTP, frame validation and JSON: messages are datatypes, payloads numbers, a write succeeds or fails, the file is a value.
- Frames without a sequence number, and frames sent for a lease the worker has already forgotten (its numbering would start over): a lease's life ends there.
- The run-complete being a lease's last frame is the daemon's discipline (packages/worker/src/daemon.ts:445-453) and taken as given; so are its claimed-versus-active lease lists, which are not part of this model.
- `#drainLeaseWrites` gives up after five rounds, so the model checks a completion at any moment after it arrived, drained or not.
- Worker restarts: a restarted worker has no buffer, and its leases are not part of this model.
- Other leases' messages in the outbound queue and that queue's own limit; a lease-gap is the one message it never gives up.
- The log and warning texts, and the run event that records a skipped gap.
- LeaseSafety.AcknowledgedFramesAreSettled: does not promise that an acknowledged run-event, run-memories or refused frame is in the store, because the code does not.
- LeaseSafety.NothingIsLost: of a frame held when the worker forgot the lease on being disowned or past its deadline nothing more is promised; the code deletes it.
- LeaseDiscards.SwallowedFailureLosesMemories: the memory store keeps the entries it failed to write in memory until the host stops, and a later write of that repository's file may still save them; that map is not modelled.
- What the stores do after a write landed (the memory store's trimming, a later write of a whole file that carries an earlier one's failed change).
- LeaseOrder.FramesTakeEffectInOrder: says nothing once a handler rejects, a message of an old socket gets through, or the host restarts while the old socket still delivers; `LeaseLate.FramesTakeEffectInOrderExactlyWhen` decides those. The run-complete is written beside the chain and may land before frames a gap skipped or a late handler still writes.
- LeaseCatchUp.CaughtUpMeansCompleted: does not promise the lease is settled when its completion was applied after an expiry and the watermark recorded then outlived the lease on disk.
- LeaseCatchUp.CatchesUpExactlyWhenRecoverable: a lease whose worker still reports may be freed by a later drop that announces the hole; for such a lease the equivalence is about runs without a new report.
- LeaseReplay.EveryReplayCatchesUp: fairness of the network and timers, that a replay comes about at all, is not modelled; an ack delayed from before a host crash, ahead of the restored watermark, is not heard in it.
- Fence: both sides share one clock, the fleet's intervals do not change, a worker's sockets do not overlap, and a reconnect claims the lease; otherwise the host expires it at once.
- DurableDispatch.NoRunIsHandedOutTwice: holds for runs in which no step overtakes; the three that can are the code's, and `StepKeepsOneHolderExactlyWhen` and `DispatchWitnesses` say when they do. A late write landing on a settled lease is one way there, through a crash.
- FleetPlacement.PlacementIsBest: worker ids are numbers in their order, not strings in a locale's.
- The dispatch payload's contents, repo resolution and the pull-request adoption after an interruption.
- TokenRefresh.InstalledCredentialSurvives: takes the order of a write's continuation and the chain's next operation as given. Tokens are numbers, 0 for none. When an access token expires is not modelled.
- TokenRefresh.AdoptedEditsSurvive: says nothing of an edit that reaches the file before a queued save does; the save overwrites it and it is never adopted.
- Settings writes that leave the tracker's credential alone, and config files that do not parse.
- Config objects are values: keys inherited through a prototype, aliasing between base and merged config, and the base's immutability (true of values) are not modelled.
- The pricing table and its substring matching: a parameter of the cost model. Costs are whole micro-dollars, so rounding does not arise.
- CostConservation.RunTotalsAreConserved: says nothing when a provider's total disagrees with its samples; `ContributionsConserveTokens` and `ContributionsConserveCost` say exactly when one entry then agrees.
- `StringDecoder` and UTF-8: the output buffer takes decoded text, as strings of characters.
- Pairing, enrollment and credentials, attach sessions, sandboxes, git, trackers and artifact storage.
