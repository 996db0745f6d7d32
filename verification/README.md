# Models and proofs for mlx-bun

Five components of the repository whose guarantees no single function shows, as Dafny models with proofs.
Each is a state machine or a set of functions over values, with theorems about all runs or all inputs,
and, because the originals update objects in place, classes or loops whose methods are proved to take
exactly those steps.

* **Expert I/O pool** (`ExpertIo*.dfy`, `ExpertHints.dfy`, `CircularQueue.dfy`): the native pool of worker
  threads. Every critical section is one step; every `pread`, which copies into a slot buffer outside the
  mutex and may return few bytes, is another; all threads interleave freely. A leased buffer is complete,
  correct and never being written, two defensive branches are dead, and what every call answers over any run
  follows from the calls made before (`ExpertIoClient.dfy`).
* **Event hub** (`EventHub*.dfy`): the bounded drop-oldest queues with two slicing rules refine sequences;
  compaction is amortised; no delivery pass is lost, also when handlers publish, subscribe or close. What a
  subscriber is given is told from the run alone (`EventHubHistory.dfy`). The sizes of buffers and batches
  are any numbers of JavaScript, infinities and NaN among them.
* **Image model host** (`Image*.dfy`): leases, shared cancellable opens, idle timers, forced unloads, close
  and the chain of runs of one pipeline. A stretch between two awaits is one step; publishing an opened
  pipeline and clearing `slot.loading` are taken together. Who gets a lease and who is turned away is told
  from the calls (`ImageHostClient.dfy`).
* **Model cache** (`RepoPaths.dfy`, `DownloadModel.dfy`, `ModelCache*.dfy`, `DownloadSpace.dfy`,
  `DiskUse.dfy`, `HonestDownload.dfy`, `RegistryGc.dfy`, `RepoStore.dfy`): resumable downloads from an
  arbitrary server (HTTP ranges, section 14.2 of RFC 9110, and statuses 200 and 206, sections 15.3.1 and
  15.3.7 of RFC 9110) and garbage collection share a store invariant over every sequence of both; from an
  honest server a download succeeds. Hash functions are uninterpreted.
* **Publication order** (`Publication.dfy`): a depth-first topological sort, sound and complete.
* `Words.dfy`, `Counting.dfy` and `Wrappers.dfy` hold fixed-width integers, counting and optional values.

Six promises fail in corners. Each is stated with the exact condition under which it holds, and with
cases in which it does not:

* `wait` returning zero as the promise of a lease: `WaitZeroIsLeasableExactly`; `WaitZeroMayNotBeLeasable`.
* a written ref as proof of a complete and authentic snapshot: `RefMeansCompleteExactly`;
  `RefMayBeWrittenOverAStranger` (an entry in the way is taken for the link) and `CorruptBlobIsLinked` (a
  blob of the listed size is taken for finished; the header at packages/hub/src/download.ts:4-6 says that
  every blob is verified, the code does not look at one that is there).
* a ref as the name of a snapshot: `RefNamesASnapshotExactly`; `EmptyListingGetsADanglingRef`.
* a ref as protection from garbage collection: `RefProtectsExactly`; `SlashedRefLosesItsSnapshot`.
* the disk preflight as an exact count: `PreflightIsExact` and `PreflightRefusesExactly`;
  `PreflightMayCountTwice`, `OversizePartialMakesRoom` and `RestartReceivesMore` (the comments at
  packages/hub/src/download.ts:71-79 call it exact; it counts a blob that is listed twice twice, does not
  see what the download deletes, and counts bytes on disk, not on the wire).
* the end of event delivery once publishing stops: `DeliveryEndsExactly`; `StarvedHubIsReached` and
  `StarvedDeliversNothing`, with a batch size that is not a number.

Calls that take steps of a state machine state their whole new state as that step of the old one; the
promises are then theorems about the steps.

## Model

| member | source | states |
|---|---|---|
| `ExpertIoTheorems.LeasedBufferIsTheLoad` | packages/inference/native/expert-io.c:60-103 | Over every run of clients and workers: the buffer of a leased slot holds, at the destination of each segment last submitted for it, exactly the bytes of that file at that offset, and its length is the largest segment end |
| `ExpertIoTheorems.LeaseFreezesBuffer` | packages/inference/native/expert-io.c:417-453 | No step of any thread or client changes the buffer of a leased slot, and only a successful release of that slot ends the lease, a fenced one if the slot is marked as leased to the GPU |
| `ExpertIoTheorems.LeaseFreezesBufferForRuns` | packages/inference/native/expert-io.c:417-490 | Over every run without a release of the slot, a lease holder reads the same bytes throughout |
| `ExpertIoTheorems.WriterIsAlone` | packages/inference/native/expert-io.c:83-99 | Whenever a buffer changes, the writer is the one worker with a job for that slot (or a discard), no other worker or queued job concerns the slot, and no generation lets a client obtain its address before or after the write |
| `ExpertIoTheorems.LoadingHasOneJob` | packages/inference/native/expert-io.c:79-98 | A slot is LOADING exactly when one job for it is queued or in a worker; in any other state there is none |
| `ExpertIoTheorems.JobsFitSlots` | packages/inference/native/expert-io.c:186-187 | Queued and in-flight jobs together never outnumber the slots |
| `ExpertIoTheorems.QueueNeverFull` | packages/inference/native/expert-io.c:287 | The queue-full branch is never taken: the ring has a free cell in every state that satisfies the invariant |
| `ExpertIoTheorems.SubmitAcceptsExactly` | packages/inference/native/expert-io.c:262-309 | Exactly which submissions are accepted: well-formed loads, to an idle or ready slot, with the buffer wired where needed; so neither the queue-full branch nor the second capacity check ever refuses one |
| `ExpertIoTheorems.FinishAlwaysPublishes` | packages/inference/native/expert-io.c:95-99 | The test of generation and state before a worker publishes always holds; the slot can then be leased if and only if no read failed and nobody cancelled |
| `ExpertIoTheorems.WhatDooms` | packages/inference/native/expert-io.c:392-400 | A cancellation that returned zero, a read error, an early end of file and a discard each make the slot unleasable |
| `ExpertIoTheorems.DoomedStays` | packages/inference/native/expert-io.c:269-300 | Nothing but an accepted submission for the slot makes it leasable again |
| `ExpertIoTheorems.NoLeaseBeforeResubmission` | packages/inference/native/expert-io.c:417-423 | Over every run after a failed, cancelled or discarded load, no lease on the slot is granted under any generation until it is submitted again |
| `ExpertIoTheorems.RunKeepsWiring` | packages/inference/native/expert-io.c:289-292 | While wiring is on, over every run and however often it is switched, no load runs into a buffer that is not wired |
| `ExpertIoTheorems.WorkDecreases` | packages/inference/native/expert-io.c:73-103 | Every worker step, however few bytes a read returns, decreases a bound on the work that is left |
| `ExpertIoTheorems.SomeWorkerCanStep` | packages/inference/native/expert-io.c:76-80 | While a job is queued or running some worker can take a step |
| `ExpertIoTheorems.LoadsFinish` | packages/inference/native/expert-io.c:73-103 | Left alone, the workers stop after at most the bounded number of steps, and only when nothing is queued or in flight and no slot is LOADING |
| `ExpertIoTheorems.JoinedPoolIsQuiet` | packages/inference/native/expert-io.c:498-511 | Once close has joined its workers no job remains and every slot is idle or ready |
| `ExpertIoTheorems.RunKeepsInv` | packages/inference/native/expert-io.c:73-103 | The pool invariant holds after every run |
| `ExpertIoTheorems.FailedStays` | packages/inference/native/expert-io.c:85-99 | A failed job stays failed in its worker until it is published as failed |
| `ExpertIoSafety.StepKeepsInv` | packages/inference/native/expert-io.c:73-509 | Every critical section and every unlocked read keeps the pool invariant: jobs match slots and generations, no two concern one slot, copied prefixes are in place, leasable buffers are complete |
| `ExpertIoSafety.InitialInv` | packages/inference/native/expert-io.c:186-203 | A freshly opened pool satisfies the invariant |
| `ExpertIoSafety.SubmitKeepsInv` | packages/inference/native/expert-io.c:283-308 | A submission, accepted or refused, keeps the invariant |
| `ExpertIoSafety.TakeKeepsInv` | packages/inference/native/expert-io.c:76-82 | Taking a job moves it from the queue to one worker and keeps the invariant |
| `ExpertIoSafety.ReadKeepsInv` | packages/inference/native/expert-io.c:60-71 | A read that returns any number of bytes, or none, keeps every copied prefix in place |
| `ExpertIoSafety.FailKeepsInv` | packages/inference/native/expert-io.c:65-66 | A failed read keeps the invariant |
| `ExpertIoSafety.FinishKeepsInv` | packages/inference/native/expert-io.c:95-101 | Publishing a job makes the slot leasable only with all of its bytes in place |
| `ExpertIoSafety.CancelKeepsInv` | packages/inference/native/expert-io.c:392-400 | Cancelling keeps the invariant |
| `ExpertIoSafety.LeaseKeepsInv` | packages/inference/native/expert-io.c:417-423 | Leasing keeps the invariant |
| `ExpertIoSafety.ReleaseKeepsInv` | packages/inference/native/expert-io.c:425-432 | Releasing keeps the invariant |
| `ExpertIoSafety.DiscardKeepsInv` | packages/inference/native/expert-io.c:434-453 | Discarding keeps the invariant whatever is left in the buffer |
| `ExpertIoSafety.ExitKeepsInv` | packages/inference/native/expert-io.c:77-78 | A worker leaves only when the pool is stopping and the queue is empty |
| `ExpertIoSafety.ValidateIsWellFormed` | packages/inference/native/expert-io.c:269-282 | The checks in their order pass exactly the loads whose segments name an open file, a nonempty range below 2^63, a place inside the buffer, and overlap nowhere |
| `ExpertIoSafety.ExtentIsLargestEnd` | packages/inference/native/expert-io.c:276-277 | The extent is the end of some segment and no segment ends after it |
| `ExpertIoWait.WaitZeroMayNotBeLeasable` | packages/inference/native/expert-io.c:402-408 | A reachable state in which wait has returned 0 and a lease with the same generation is refused: the slot was discarded in between |
| `ExpertIoWait.WaitZeroIsLeasableExactly` | packages/inference/native/expert-io.c:402-423 | Over every run: a lease is granted if and only if wait would return zero and the last successful call on the slot was a submission or a release; after a discard or a lease it is refused in spite of the zero, after a cancellation there is no zero |
| `ExpertIoWait.LeasableUntilTouched` | packages/inference/native/expert-io.c:402-453 | A slot that can be leased stays so over every run without a successful call on it |
| `ExpertIoWait.SubmissionIsLeasableExactly` | packages/inference/native/expert-io.c:73-103 | Over every run after an accepted submission in which no other call on its slot succeeds, once the workers have come to rest: a lease is granted if and only if no read of the load failed or found the end of a file, and then the buffer holds every submitted segment |
| `ExpertIoClient.GpuLeaseNeedsAFence` | packages/inference/native/expert-io.c:417-432 | After a lease was granted, over every run without a successful release of the slot: a release answers EBUSY if the lease was asked for on behalf of the GPU and the release is not fenced, and succeeds otherwise |
| `ExpertIoClient.PollAnswers` | packages/inference/native/expert-io.c:402-415 | Over every run: poll answers ESTALE for any generation but that of the last accepted submission, EAGAIN while a job for the slot is queued or in a worker, and then what the load came to: the errno of its read, ENODATA, ECANCELED, or zero; what failed has length zero |
| `ExpertIoClient.CancelAnswers` | packages/inference/native/expert-io.c:392-400 | Over every run: a cancellation succeeds exactly when the last successful call on the slot was a submission, a cancellation or a release, and answers ESTALE or EBUSY otherwise |
| `ExpertIoClient.LeaseAnswers` | packages/inference/native/expert-io.c:417-423 | Over every run: a lease is granted exactly for a submitted or released load with no job left and no read error; the buffer is handed out exactly while the last successful call is a lease |
| `ExpertIoClient.ReleaseAnswers` | packages/inference/native/expert-io.c:425-432 | Over every run: a release is accepted exactly while a lease of that generation is out, one that was asked for on behalf of the GPU only behind a fence; ESTALE, EINVAL and EBUSY are told apart |
| `ExpertIoClient.DiscardAnswers` | packages/inference/native/expert-io.c:434-453 | Over every run: a discard gets to the system calls exactly for a load that is done and not leased, and reports munlock exactly if the buffer has been wired and not unwired since, else madvise |
| `ExpertIoClient.SubmitAnswers` | packages/inference/native/expert-io.c:262-309 | Over every run: a submission answers the complaint about its first bad segment, EBUSY for a load in work or a lease, the status of mlock if wiring was last switched on and the buffer is not wired, and zero otherwise; while wiring is on every load in work has a wired buffer |
| `ExpertIoClient.GoodExactly` | packages/inference/native/expert-io.c:269-282 | A segment passes its checks exactly if its file is open, its range is nonempty and acceptable, it lies in the buffer, and no byte position is written by it and an earlier one |
| `ExpertIoClient.SetWiringAnswers` | packages/inference/native/expert-io.c:369-381 | Over every run: wiring can be switched exactly while no job is queued or in a worker and no lease is out |
| `ExpertIoClient.WiringIsAsAsked` | packages/inference/native/expert-io.c:369-381 | Over every run wiring is what the last successful call asked for |
| `ExpertIoClient.CloseAnswers` | packages/inference/native/expert-io.c:498-509 | Over every run: the pool can be closed exactly while no lease is out; a refused close changes nothing; after an accepted one clients can do nothing and idle workers leave once the queue is empty |
| `ExpertIoPool.CheckSegments` | packages/inference/native/expert-io.c:269-282 | The 64-bit loops compute the verdict and the exact extent without overflow |
| `ExpertIoPool.Pool.Open` | packages/inference/native/expert-io.c:156-191 | A pool is opened exactly for at least one path, all nonempty and readable, 1 to UINT32_MAX / 2 slots, a positive capacity, 1 to 64 workers and an alignment that is a power of two of at least the size of an address, if the system grants memory and threads; its files are those of the paths in order |
| `ExpertIoPool.AlignmentTest` | packages/inference/native/expert-io.c:160-161 | The bit test of the alignment is passed by exactly the powers of two |
| `ExpertIoPool.Pool.constructor` | packages/inference/native/expert-io.c:186-207 | An opened pool is idle, its ring is empty with twice as many cells as slots |
| `ExpertIoPool.Pool.Submit` | packages/inference/native/expert-io.c:262-309 | In place: same new state and status as the state machine, invariant kept |
| `ExpertIoPool.Pool.Cancel` | packages/inference/native/expert-io.c:392-400 | In place: same new state and status as the state machine, invariant kept |
| `ExpertIoPool.Pool.Poll` | packages/inference/native/expert-io.c:410-415 | Reports what the state machine reports |
| `ExpertIoPool.Pool.Lease` | packages/inference/native/expert-io.c:417-423 | In place: same new state and status as the state machine, invariant kept |
| `ExpertIoPool.Pool.Ptr` | packages/inference/native/expert-io.c:485-496 | The buffer handed out to a lease holder is filled with the whole load, and the length is its extent |
| `ExpertIoPool.Pool.Release` | packages/inference/native/expert-io.c:425-432 | In place: same new state and status as the state machine, invariant kept |
| `ExpertIoPool.Pool.Discard` | packages/inference/native/expert-io.c:434-453 | In place: same new state and status as the state machine, invariant kept |
| `ExpertIoPool.Pool.Forget` | packages/inference/native/expert-io.c:439-451 | Which of unwiring, resetting the slot and losing the buffer happens, by what munlock and madvise report |
| `ExpertIoPool.Pool.SetWiring` | packages/inference/native/expert-io.c:369-381 | In place: same new state and status as the state machine, invariant kept |
| `ExpertIoPool.Pool.Close` | packages/inference/native/expert-io.c:498-509 | In place: refused while a slot is leased, else the stop flag is set |
| `ExpertIoPool.Pool.Wake` | packages/inference/native/expert-io.c:76-82 | A worker takes the oldest job of the ring, or leaves when the pool stops with an empty ring |
| `ExpertIoPool.Pool.Pread` | packages/inference/native/expert-io.c:60-71 | One read copies any allowed number of bytes, or ends the load when the file ends |
| `ExpertIoPool.Pool.PreadFailed` | packages/inference/native/expert-io.c:65-66 | A failed read ends the load with its errno |
| `ExpertIoPool.Pool.Publish` | packages/inference/native/expert-io.c:95-101 | Finishing a job publishes its result and leaves the slot READY |
| `CircularQueues.WrapIsModulo` | packages/inference/native/expert-io.c:80 | Advancing an index modulo the capacity is wrapping it once |
| `CircularQueues.RingPush` | packages/inference/native/expert-io.c:296-305 | Writing the cell at the tail appends to the sequence a ring holds |
| `CircularQueues.RingPop` | packages/inference/native/expert-io.c:79-80 | Moving the head on removes the first element and keeps the order of the others |
| `CircularQueues.CircularQueue.Push` | packages/inference/native/expert-io.c:296-305 | The ring with 32-bit head, tail and length, tail = head + length modulo the capacity, appends as a first-in first-out sequence, without overflow |
| `CircularQueues.CircularQueue.Pop` | packages/inference/native/expert-io.c:79-80 | The ring removes and returns the first element of that sequence |
| `ExpertHints.HintsAreConserved` | packages/inference/native/expert-io.c:127-154 | Over every run the accepted hints are, in order, the completed ones, the one in flight and the queue |
| `ExpertHints.HintAnswers` | packages/inference/native/expert-io.c:311-351 | Over every run: a hint is refused for its size, for its first bad extent (EINVAL or EOVERFLOW), with ECANCELED after a stop, with EAGAIN exactly when 4096 accepted hints are still to be taken, and accepted otherwise |
| `ExpertHints.NothingTakenAfterStop` | packages/inference/native/expert-io.c:129-133 | After a stop no hint is taken or accepted over any run |
| `ExpertHints.CountersCount` | packages/inference/native/expert-io.c:329-347 | The submitted, completed and dropped counters count accepted hints, finished hints and hints refused for a full queue, modulo 2^64 |
| `ExpertHints.OperationsCount` | packages/inference/native/expert-io.c:345 | The operations counter adds up the segments of the accepted hints, modulo 2^64 |
| `ExpertHints.BytesCount` | packages/inference/native/expert-io.c:346 | The bytes counter adds up the bytes of the accepted hints, modulo 2^64 |
| `ExpertHints.ErrorsCount` | packages/inference/native/expert-io.c:148-149 | The errors counter counts the hints whose advice failed |
| `ExpertHints.StatsAddUp` | packages/inference/native/expert-io.c:353-367 | What the statistics show adds up: submitted = completed + queued + in flight |
| `ExpertHints.CheckExtents` | packages/inference/native/expert-io.c:318-325 | The checks of a hint in 64-bit arithmetic give the verdict and the exact byte total |
| `ExpertHints.HintQueue.constructor` | packages/inference/native/expert-io.c:187-189 | A new hint queue is empty with all counters zero |
| `ExpertHints.HintQueue.Hint` | packages/inference/native/expert-io.c:311-351 | In place: the hint is accepted, refused or dropped as the state machine says, with its counters |
| `ExpertHints.HintQueue.Take` | packages/inference/native/expert-io.c:129-138 | The hint worker takes the oldest hint and marks it in flight |
| `ExpertHints.HintQueue.Finish` | packages/inference/native/expert-io.c:147-152 | A finished hint is counted, as an error if it failed |
| `ExpertHints.Plus` | packages/inference/native/expert-io.c:344-346 | Unsigned 64-bit counters wrap |
| `EventHubTheorems.QueueIsTheSuffix` | packages/app-services/src/events.ts:76-121 | Over every run, for every active subscriber: the live queue is exactly the accepted events from position delivered + dropped on, accepted = delivered + dropped + pending, pending is at most the buffer size if that is a number, and the handler was given exactly the accepted events that were not dropped, in order |
| `EventHubHistory.AcceptedIsWhatWasPublished` | packages/app-services/src/events.ts:107-134 | Told from the run alone: the subscriber made by a subscription on an open hub accepts exactly the events of the kinds given then that are published before it leaves or the hub closes, in order, whoever publishes; its handler has been given those that were not dropped and are not queued, in order; it is active until then |
| `EventHubHistory.NothingAfterLeaving` | packages/app-services/src/events.ts:127-151 | After an unsubscription or a close nothing more is handed over over any run, not even what was queued |
| `EventHubHistory.PassEndsExactly` | packages/app-services/src/events.ts:83-99 | Over every run: since its start a pass has handed over at most a batch, and it ends exactly when that is full, the queue is empty or the subscriber has left |
| `EventHubHistory.CountersCount` | packages/app-services/src/events.ts:107-110 | The published and rejected counters count the well-formed and malformed messages offered before the hub closes |
| `EventHubHistory.FailuresCount` | packages/app-services/src/events.ts:78-81 | The failure counter of a subscriber counts the failures of its handler |
| `EventHubTheorems.CompactionIsAmortised` | packages/app-services/src/events.ts:86-117 | Elements ever copied plus the current head are at most delivered + dropped; the head stays below max(64, bufferSize) and the array below bufferSize + max(64, bufferSize); with an unlimited buffer the number of pending events takes the place of the size |
| `EventHubTheorems.DeliverySeldomCopies` | packages/app-services/src/events.ts:86-91 | Taking an event copies the array exactly when at least 64 events and at least half of the array have been consumed |
| `EventHubTheorems.NoPassIsLost` | packages/app-services/src/events.ts:78-105 | One delivery pass waits for a subscriber exactly when its flag is set, and an active subscriber with pending events always has a pass waiting or running |
| `EventHubTheorems.QueuesDrain` | packages/app-services/src/events.ts:83-99 | Once calls stop, delivery ends after boundedly many steps in any order of the passes, and only with every active queue empty, unless the hub is starved: something is pending and a batch is full from the start |
| `EventHubTheorems.DeliveryEndsExactly` | packages/app-services/src/events.ts:85-98 | From every state that satisfies the invariant: the lengths of the delivery runs have a bound if and only if the hub is not starved |
| `EventHubTheorems.StarvedDeliversNothing` | packages/app-services/src/events.ts:85-98 | With a batch that is full from the start, no run of delivery passes hands over, drops or loses an event of any subscriber |
| `EventHubTheorems.StarvedHubIsReached` | packages/app-services/src/events.ts:71 | With such a batch one subscription and one publication starve the hub |
| `EventHubTheorems.DeliveryDecreases` | packages/app-services/src/events.ts:83-99 | Every step of a delivery pass in a hub that is not starved decreases the bound |
| `EventHubTheorems.OfferedRefines` | packages/app-services/src/events.ts:113-118 | Publishing to a subscriber drops the oldest live event exactly when there are as many as the buffer size and appends the new one; slicing does not show |
| `EventHubTheorems.TakenRefines` | packages/app-services/src/events.ts:86-92 | Delivery hands over the oldest live event; slicing does not show |
| `EventHubTheorems.RunKeepsInv` | packages/app-services/src/events.ts:69-152 | The hub invariant holds after every run |
| `EventHubTheorems.StepKeepsInv` | packages/app-services/src/events.ts:78-151 | Publishing, subscribing, unsubscribing, closing, a failing handler and each step of a pass keep the invariant |
| `EventHubTheorems.PublishSchedules` | packages/app-services/src/events.ts:101-119 | After a publication each subscriber still has one waiting pass exactly when its flag is set |
| `EventHubTheorems.PublishKeepsInv` | packages/app-services/src/events.ts:107-121 | Publishing keeps the invariant |
| `EventHubTheorems.FinishKeepsInv` | packages/app-services/src/events.ts:98-98 | The end of a pass reschedules what is left without doubling a pass |
| `EventHubs.Subscriber.Push` | packages/app-services/src/events.ts:113-118 | In place: drop-oldest, slicing by the buffer size and append, as the state machine says |
| `EventHubs.Subscriber.Take` | packages/app-services/src/events.ts:86-92 | In place: takes the oldest event and slices once the consumed prefix dominates |
| `EventHubs.SizesMean` | packages/app-services/src/events.ts:70-71 | Which counts are at least, or below, a size that was left out, fractional, infinite or not a number |
| `EventHubs.EventHub.constructor` | packages/app-services/src/events.ts:70-74 | Each size may be left out, fractional, negative, infinite or not a number; the limits the hub goes by agree with the comparisons of lines 85 and 113 on every count, and a batch is full from the start exactly if its size is not a number |
| `EventHubs.EventHub.Publish` | packages/app-services/src/events.ts:107-121 | In place: the whole new state of the hub after a publication |
| `EventHubs.EventHub.Distribute` | packages/app-services/src/events.ts:110-121 | In place: an event for an open hub is counted and offered to all |
| `EventHubs.EventHub.OfferAll` | packages/app-services/src/events.ts:111-120 | The loop over the subscribers offers the event to each of them once and schedules the missing passes in order |
| `EventHubs.EventHub.Enqueue` | packages/app-services/src/events.ts:101-105 | A pass is scheduled unless one is waiting |
| `EventHubs.EventHub.Subscribe` | packages/app-services/src/events.ts:123-134 | In place: a new active subscriber, or none once the hub is closed |
| `EventHubs.EventHub.Unsubscribe` | packages/app-services/src/events.ts:128-132 | In place: the subscriber is silenced and its queue given up |
| `EventHubs.EventHub.Close` | packages/app-services/src/events.ts:147-151 | In place: every subscriber is silenced |
| `EventHubs.EventHub.Fail` | packages/app-services/src/events.ts:78-81 | A failing handler is counted and nothing else changes |
| `EventHubs.EventHub.Deliver` | packages/app-services/src/events.ts:83-99 | One delivery pass, whatever the handlers call on the way, is a run of the state machine that starts this pass and ends it; a pass without a limit is followed as long as the script of its handler lasts |
| `EventHubs.EventHub.HandBatch` | packages/app-services/src/events.ts:85-97 | The batch loop hands events over until the batch is full, the queue is empty or the subscriber has left, and not before |
| `ImageHostSafety.PipelinesAreOwned` | packages/app-services/src/image-model-host.ts:132-143 | Over every run every pipeline the backend returned is resident in exactly one slot and undisposed, or resident nowhere and disposed exactly once |
| `ImageHostSafety.CountersCount` | packages/app-services/src/image-model-host.ts:216-262 | The lease counter equals the callers of acquire that hold or are obtaining a lease, the waiter counter those in the shared open; neither is negative; loads and unloads differ by what is resident |
| `ImageHostSafety.ClosedHostIsEmpty` | packages/app-services/src/image-model-host.ts:307-316 | When close settles nothing is resident or loading, no timer is armed and every pipeline was disposed exactly once |
| `ImageHostSafety.NothingOpensAfterClose` | packages/app-services/src/image-model-host.ts:177-206 | After close has begun no step starts an open or makes a pipeline resident |
| `ImageHostSafety.ClosedBranchIsDead` | packages/app-services/src/image-model-host.ts:205 | The check of the closed flag before publishing is never taken: the open has been aborted by then |
| `ImageHostSafety.CloseCanSettle` | packages/app-services/src/image-model-host.ts:311-315 | Close never hangs: it can settle, or an open in flight can |
| `ImageHostSafety.LeasedPipelinesAreAlive` | packages/app-services/src/image-model-host.ts:235-262 | From every reachable state, over every run without close and without a forced unload of the same model: every lease asked for in it, granted or about to be, is on the resident and undisposed pipeline of its slot, whatever was forced before or elsewhere |
| `ImageHostSafety.ForceDisposesUnderALease` | packages/app-services/src/image-model-host.ts:287-288 | With force the same pipeline is disposed under its lease |
| `ImageHostSafety.LastLeaseDecides` | packages/app-services/src/image-model-host.ts:145-151 | When the last lease of an unpinned model ends on an open host with nobody opening it, its pipeline is disposed at once, or its timer runs and disposes it when it fires without leases |
| `ImageHostSafety.PinnedIsNeverTimed` | packages/app-services/src/image-model-host.ts:145-150 | In every reachable state no idle timer runs for a pinned model, pinned from the start, before it opened or afterwards |
| `ImageHostSafety.PinnedStaysOpen` | packages/app-services/src/image-model-host.ts:123-151 | From every reachable state the open pipeline of a pinned model stays open and undisposed over every run, whatever leases come and go and whatever is forced elsewhere, until it is unloaded on request or unpinned or the host is closed |
| `ImageHostSafety.AbortNeedsLastWaiterOrClose` | packages/app-services/src/image-model-host.ts:221-226 | A shared open is aborted only by close, or by the last counted waiter leaving, and then nobody waits for it |
| `ImageHostSafety.NobodyWaitsForAborted` | packages/app-services/src/image-model-host.ts:179-184 | On an open host an aborted open has no waiters |
| `ImageHostSafety.CancellationIsPrivate` | packages/app-services/src/image-model-host.ts:216-226 | A waiting caller that was not cancelled itself fails only if the host closed or the open itself broke |
| `ImageHostSafety.OthersStayPut` | packages/app-services/src/image-model-host.ts:216-262 | A step of one caller moves no other caller |
| `ImageHostSafety.AbortedOpenReachesNobody` | packages/app-services/src/image-model-host.ts:194-206 | An aborted open never publishes; a pipeline it still gets is disposed on the spot |
| `ImageHostSafety.DrainedCallerStartsAfresh` | packages/app-services/src/image-model-host.ts:180-184 | A caller that waited for an aborted open to drain gets a resident pipeline, a live open or a fresh one, never the aborted one |
| `ImageHostSafety.CallersProceed` | packages/app-services/src/image-model-host.ts:177-263 | Every caller inside the host can take its next step or waits for an open in flight |
| `ImageHostClient.AcquireSucceeds` | packages/app-services/src/image-model-host.ts:235-252 | From every reachable state of an open host, over every run after a call of acquire in which its signal does not fire, no open of the model breaks, nobody forces its unload or closes the host and the lease is not released: the caller is never turned away, and once acquire has returned it holds a lease on the resident, undisposed pipeline |
| `ImageHostClient.AbortedGetsNothing` | packages/app-services/src/image-model-host.ts:244-251 | A caller whose signal fires before acquire returned, or of preload, never holds a lease over any run; once the call has returned the lease counters do not count it |
| `ImageHostClient.AbortIsHeeded` | packages/app-services/src/image-model-host.ts:177-226 | A waiting caller whose signal has fired can go on at once, fails, and starts no open |
| `ImageHostClient.OneOpenAtATime` | packages/app-services/src/image-model-host.ts:180-214 | In every reachable state at most one open of a model is in flight, and none while it is resident |
| `ImageHostClient.LastWaiterAbortsTheOpen` | packages/app-services/src/image-model-host.ts:222-226 | An open in flight is aborted when the caller that gives up is the only one waiting for the model |
| `ImageHostClient.CloseAnswers` | packages/app-services/src/image-model-host.ts:307-316 | A close settles at once, with every pipeline disposed, exactly if no open is in flight; otherwise it aborts those; a second close changes nothing |
| `ImageHostClient.AcquireStopsTheTimer` | packages/app-services/src/image-model-host.ts:240-241 | A call of acquire stops the idle timer of its model |
| `ImageHostClient.LeaseEndSparesWaiters` | packages/app-services/src/image-model-host.ts:145-151 | A lease that ends while a caller waits for an open of the model neither unloads it nor arms its timer |
| `ImageHostClient.PinnedAsWanted` | packages/app-services/src/image-model-host.ts:291-292 | Over every run a model is pinned exactly if the last pin or unpin of it was a pin, or there was none and it was configured so |
| `ImageHostClient.UnloadAnswers` | packages/app-services/src/image-model-host.ts:282-289 | An unload is refused exactly if it is not forced, the model is open and a caller of acquire has or awaits a lease on it; otherwise its pipeline is disposed and gone |
| `ImageHostSafety.StepSparesLeases` | packages/app-services/src/image-model-host.ts:132-289 | No unforced step takes the pipeline from under a lease |
| `ImageHostTheorems.StepKeepsInv` | packages/app-services/src/image-model-host.ts:126-316 | Every step of callers, opens, timers, unloads, pins and close keeps the invariant |
| `ImageHostTheorems.RunKeepsInv` | packages/app-services/src/image-model-host.ts:114-317 | The invariant holds after every run |
| `ImageHostTheorems.InvIsIndexed` | packages/app-services/src/image-model-host.ts:63-81 | The invariant implies that every index points at something, so no run is cut short by that side condition |
| `ImageHostTheorems.EnterKeepsInv` | packages/app-services/src/image-model-host.ts:177-216 | Entering ensureOpened in any state of the slot keeps the invariant |
| `ImageHostTheorems.SettleKeepsInv` | packages/app-services/src/image-model-host.ts:189-214 | However an open ends, the invariant is kept |
| `ImageHostTheorems.CloseKeepsInv` | packages/app-services/src/image-model-host.ts:307-316 | Closing keeps the invariant |
| `ImageHostTheorems.ReleaseAllDisposes` | packages/app-services/src/image-model-host.ts:312 | Releasing the slots disposes each resident pipeline once and no other |
| `ImageModelHosts.ImageModelHost.constructor` | packages/app-services/src/image-model-host.ts:119-123 | A new host is empty |
| `ImageModelHosts.ImageModelHost.CancelTimer` | packages/app-services/src/image-model-host.ts:127-130 | In place, as the state machine says |
| `ImageModelHosts.ImageModelHost.Dispose` | packages/app-services/src/image-model-host.ts:132-143 | In place: disposes the resident pipeline, if any, and reports whether there was one |
| `ImageModelHosts.ImageModelHost.ArmIdle` | packages/app-services/src/image-model-host.ts:145-151 | In place: keep, unload now or arm the timer |
| `ImageModelHosts.ImageModelHost.Enter` | packages/app-services/src/image-model-host.ts:177-216 | In place: ensureOpened up to its first await |
| `ImageModelHosts.ImageModelHost.Arrive` | packages/app-services/src/image-model-host.ts:235-244 | In place: a caller reserves its lease and enters |
| `ImageModelHosts.ImageModelHost.Resume` | packages/app-services/src/image-model-host.ts:217-226 | In place: a waiter gets the pipeline, fails, or restarts; the last one to fail aborts the open |
| `ImageModelHosts.ImageModelHost.Return` | packages/app-services/src/image-model-host.ts:244-263 | In place: acquire returns a lease, or gives the reservation back |
| `ImageModelHosts.ImageModelHost.EndLease` | packages/app-services/src/image-model-host.ts:255-261 | In place: a lease ends and the idle policy applies |
| `ImageModelHosts.ImageModelHost.Settle` | packages/app-services/src/image-model-host.ts:193-214 | In place: how an open publishes, or disposes what it got |
| `ImageModelHosts.ImageModelHost.FireTimer` | packages/app-services/src/image-model-host.ts:150 | In place: the idle timer unloads only without leases |
| `ImageModelHosts.ImageModelHost.Unload` | packages/app-services/src/image-model-host.ts:282-289 | In place: refused when leased unless forced |
| `ImageModelHosts.ImageModelHost.Pin` | packages/app-services/src/image-model-host.ts:291 | In place: pinning stops the timer |
| `ImageModelHosts.ImageModelHost.Unpin` | packages/app-services/src/image-model-host.ts:292 | In place: only the pin goes; no timer is armed by it |
| `ImageModelHosts.ImageModelHost.Close` | packages/app-services/src/image-model-host.ts:307-316 | In place: idempotent; aborts the opens in flight and releases at once if there are none |
| `ImageModelHosts.ImageModelHost.SettleClose` | packages/app-services/src/image-model-host.ts:312-315 | In place: the release after the opens have settled |
| `ImageTurns.OneRunAtATime` | packages/app-services/src/image-model-host.ts:83-104 | At most one generate is in the pipeline, and every run called before it is over, however many queued runs aborted |
| `ImageTurns.RunsStartInCallOrder` | packages/app-services/src/image-model-host.ts:90-97 | Runs reach the pipeline in the order of the calls, each at most once |
| `ImageTurns.CancelledNeverStarts` | packages/app-services/src/image-model-host.ts:93-97 | A run that is cancelled while queued never reaches the pipeline over any run, and can give up without waiting for its turn |
| `ImageTurns.QueueEmpties` | packages/app-services/src/image-model-host.ts:94-101 | Every run that is not aborted gets its turn after boundedly many steps; the chain stops only when every run is over and has passed its turn on |
| `ImageTurns.RunKeepsInv` | packages/app-services/src/image-model-host.ts:85-104 | The chain invariant holds after every run |
| `ImageTurns.Opened.constructor` | packages/app-services/src/image-model-host.ts:196 | The first tail is resolved |
| `ImageTurns.Opened.Generate` | packages/app-services/src/image-model-host.ts:91-93 | In place: a call takes the tail as its turn and leaves its own promise as the tail |
| `ImageTurns.Opened.Abort` | packages/app-services/src/image-model-host.ts:57 | In place: the signal of a queued or running run fires |
| `ImageTurns.Opened.Continue` | packages/app-services/src/image-model-host.ts:95-97 | In place: the run starts when its turn has come, or gives up when its signal has fired |
| `ImageTurns.Opened.Finish` | packages/app-services/src/image-model-host.ts:97-98 | In place: the pipeline is done with the run |
| `ImageTurns.Opened.PassOn` | packages/app-services/src/image-model-host.ts:100 | In place: a finished run passes its turn on only after the previous one has |
| `DownloadModel.AttemptIsSound` | packages/hub/src/download.ts:316-413 | Whatever the server, the disk and the signal do: bytes are published only with the expected size and if their sha256, for an id of 64 digits, or the sha1 of the header and them, for another, is the id; and never once the signal was seen |
| `DownloadModel.NoRequestAfterAbort` | packages/hub/src/download.ts:353 | Once the signal was seen before a request nothing more is received |
| `DownloadModel.RefusedRequestKeepsThePart` | packages/hub/src/download.ts:355-365 | A reply that ignores the range after the signal fired, and any status but 200 and 206, leave the partial file alone |
| `DownloadModel.ReceiveExactly` | packages/hub/src/download.ts:366-391 | A body ends normally exactly if no read or write of it fails and the signal does not fire; what arrived before is behind what was there |
| `DownloadModel.RestartsAtMostOnce` | packages/hub/src/download.ts:352-361 | The restart after a 200 to a range request happens at most once: no attempt makes a third request |
| `DownloadModel.FailureKeepsThePrefix` | packages/hub/src/download.ts:366-402 | A failed attempt keeps the bytes that were on disk, unless they were too many, the range was ignored, or the complete file had the wrong digest |
| `DownloadModel.HonestFill` | packages/hub/src/download.ts:352-391 | Against an honest server an attempt completes the file from any usable partial file |
| `DownloadModel.HonestAttemptPublishes` | packages/hub/src/download.ts:316-413 | A partial file that is a prefix of contents whose hash, by the kind of the id, is the id, is completed to exactly these contents and published |
| `DownloadModel.TwoHonestAttemptsHeal` | packages/hub/src/download.ts:403-411 | No partial file is a trap: whatever is on disk, the first or the second honest attempt publishes contents whose hash is the id |
| `RepoPaths.WrittenLinkLeadsToItsBlob` | packages/hub/src/download.ts:543-549 | For every accepted file name at any depth, and wherever the repository lies, the link that the downloader writes leads, without detours, to the blob in the repository's own blob directory, and garbage collection reads exactly that id from it |
| `RepoPaths.OneDepthLeadsToTheBlob` | packages/hub/src/download.ts:546-548 | The number of "../" is right exactly: for a name with k components only k + 1 of them lead to the repository's own blob; fewer stay inside the snapshots, more leave the repository |
| `RepoPaths.AbsoluteLinkLeadsToTheBlob` | packages/hub/src/registry.ts:467-478 | An absolute link to a blob of the repository leads to it from anywhere in a snapshot |
| `RepoPaths.LinkToBlobIsRead` | packages/hub/src/registry.ts:467-478 | Whoever wrote it, a link, relative or absolute, that leads to a blob of the repository is read as that blob |
| `RepoPaths.SafeNamesExactly` | packages/hub/src/download.ts:204-208 | A file name is accepted exactly if it is made of names of directory entries joined by slashes and holds no zero character |
| `ModelCache.FetchIsSound` | packages/hub/src/download.ts:520-537 | Handling a missing blob touches only the blob and its partial file, and any blob it leaves anew has the listed size and is authentic |
| `ModelCache.StepGrows` | packages/hub/src/download.ts:520-550 | One turn of the file loop never changes or removes an entry of a snapshot; it adds directories on the way and a link to a blob that is there |
| `ModelCacheTheorems.RunKeepsStore` | packages/hub/src/download.ts:448-567 | Over every sequence of downloads from any server, aborted anywhere, and of garbage collections: the sha256 of every blob of 64 digits, and the sha1 of header and contents of every other, is its name, every link of every snapshot leads to a blob, and snapshots are trees |
| `ModelCacheTheorems.ActionKeepsStore` | packages/hub/src/download.ts:448-567 | One download or one garbage collection keeps the store invariant |
| `ModelCacheTheorems.GcKeepsStore` | packages/hub/src/registry.ts:487-569 | Garbage collection keeps the store invariant |
| `ModelCacheTheorems.PartialsSurvive` | packages/hub/src/registry.ts:527-531 | A partial download survives a collection unchanged, under the name the downloader gives it |
| `ModelCacheTheorems.StepKeepsStore` | packages/hub/src/download.ts:520-550 | One turn of the file loop keeps the store invariant, also when it fails |
| `ModelCacheTheorems.RefMeansCompleteExactly` | packages/hub/src/download.ts:520-565 | The ref is written only by a download that came to its end; then, whatever was in the cache, every listed file is linked to an authentic blob of its size in this repository if and only if, before the call, no entry was in the way, the listing agreed with itself, and no blob had a listed size but other contents; the downloader checks none of these |
| `ModelCacheCorners.RefMayBeWrittenOverAStranger` | packages/hub/src/download.ts:545-549 | A directory, a regular file, or a link to something that exists elsewhere, in the way of a file, is taken for its link, and the ref is written all the same |
| `ModelCacheCorners.CorruptBlobIsLinked` | packages/hub/src/download.ts:526 | A blob with the listed size and another digest is taken for finished: the file is linked to it and the ref is written |
| `ModelCacheTheorems.RefNamesASnapshotExactly` | packages/hub/src/download.ts:543-565 | The ref of a finished download names a snapshot if and only if the listing has files or the snapshot was there |
| `ModelCacheCorners.EmptyListingGetsADanglingRef` | packages/hub/src/download.ts:520-565 | A finished download of an empty listing whose ref names no snapshot |
| `ModelCacheTheorems.RerunNeedsNoNetwork` | packages/hub/src/download.ts:415-417 | A download whose files are all there changes nothing and needs no reply from any server |
| `HonestDownloads.HonestDownloadSucceeds` | packages/hub/src/download.ts:448-567 | With well-formed names and ids, an honest server, a working disk with a gibibyte to spare, and nothing in the way in the cache, a download comes to its end: the ref is written and every file is linked to a blob with the listed size and hash, whatever prefix or oversize partial files were there |
| `HonestDownloads.FirstDownloadSucceeds` | packages/hub/src/download.ts:448-567 | All of that can be met: the download of one file, with any contents and a name without a slash, from a server that sends it, into a new cache with a gibibyte to spare, ends with the file served and the ref written |
| `HonestDownloads.RefusalChangesNothing` | packages/hub/src/download.ts:448-496 | A listing with a malformed id or an unsafe name, or that does not fit with a gibibyte to spare, is refused and nothing changes |
| `HonestDownloads.StopsAtOnce` | packages/hub/src/download.ts:525-533 | A fired signal, or a blob that another process is fetching, stops a download at that file with nothing changed |
| `HonestDownloads.StopsAtTheLink` | packages/hub/src/download.ts:543-549 | A disk that refuses, an entry on the way that is no directory, and a link in the way that leads to nothing, stop a download |
| `ModelCacheTheorems.ServedForGood` | packages/hub/src/registry.ts:487-569 | A file of a downloaded revision stays linked to its blob through every sequence of collections, forced or not, and other downloads, while its ref is not moved, the revision name has no slash and no listing gives the blob another size of which contents with the same digest exist |
| `ModelCacheTheorems.RefProtectsExactly` | packages/hub/src/registry.ts:499-521 | Exactly when the snapshot of a ref survives a collection; the ref of a revision with a slash in its name is not read and does not protect by itself |
| `ModelCacheCorners.SlashedRefLosesItsSnapshot` | packages/hub/src/registry.ts:499-521 | A run of two downloads and one collection, forced or not, that deletes the snapshot named by the ref `refs/pr/1` |
| `DownloadSpace.PlanDownloadSpace` | packages/hub/src/download.ts:80-104 | Every file is complete or remaining; remaining and resumable bytes add up to the sizes of the latter |
| `DiskUse.PreflightIsExact` | packages/hub/src/download.ts:71-104 | For every listing that does not exhibit a collision of the hash, any cache and any server: a download that succeeds, restarts included, adds at most the bytes the preflight counted to the blob directory, and exactly those if and only if no blob that is to be fetched is counted twice, none of another size is there and no partial file is too long |
| `DiskUse.StepGrowth` | packages/hub/src/download.ts:520-537 | A file that is fetched with success grows the blob directory by its size less what its old blob and partial file took: by what it was counted for, or by less exactly if an old blob or an oversize partial file went |
| `DownloadSpace.TwoSizesNeedACollision` | packages/hub/src/download.ts:403-411 | A download comes to its end with a listing that gives one blob two sizes only if contents of both sizes have that digest, or the blob was there with another digest |
| `DiskUse.PeakIsCounted` | packages/hub/src/download.ts:476-496 | At no time does a download that succeeds take more space on top of the cache than the preflight counted, and at its peak that much if and only if nothing is counted twice and nothing that goes, an old blob at its rename or an oversize partial file at its turn, makes room for bytes still to come |
| `DiskUse.PreflightRefusesExactly` | packages/hub/src/download.ts:481-496 | A download that is let through never eats into the reserve, if it succeeds; one that would have fitted is refused for some amount of free space if and only if something is counted twice or something that goes makes room for bytes still to come |
| `ModelCacheCorners.PreflightMayCountTwice` | packages/hub/src/download.ts:88-102 | A listing with two names for one missing blob: the download receives its bytes once, the preflight counts them twice and refuses it |
| `ModelCacheCorners.OversizePartialMakesRoom` | packages/hub/src/download.ts:323-326 | With a partial file that is too long the directory shrinks and never grows on the way, and the preflight refuses a disk with just the reserve free |
| `ModelCacheCorners.RestartReceivesMore` | packages/hub/src/download.ts:355-361 | A server that ignores the range of a resume sends the whole file, more than was counted; the growth on disk is what was counted |
| `DownloadSpace.StepReceivesLeft` | packages/hub/src/download.ts:352-391 | A file that is handled with success receives exactly what it still needed, and once more what a restart threw away, whatever the server |
| `DownloadSpace.ReceivedIsCounted` | packages/hub/src/download.ts:352-391 | Apart from what restarts threw away, a download that succeeds receives at most the bytes the preflight counted, and exactly those if and only if nothing is counted twice |
| `RepoStores.Rehash` | packages/hub/src/download.ts:334-350 | In reads of any length up to 8 MiB, exactly the asked-for prefix is hashed, or all there is when the file ends before |
| `RepoStores.RepoStore.ReceiveBody` | packages/hub/src/download.ts:366-391 | In place: the bytes hashed are the bytes on disk whenever a body ends normally |
| `RepoStores.RepoStore.Publish` | packages/hub/src/download.ts:395-412 | In place: publish, keep or remove the partial file, by the digest of what was hashed |
| `RepoStores.RepoStore.DownloadOneLocked` | packages/hub/src/download.ts:316-413 | In place: the blob directory and the outcome of an attempt, for any lengths of the reads |
| `RepoStores.RepoStore.LinkUp` | packages/hub/src/download.ts:543-549 | In place: directories and link, unless there is an entry |
| `RepoStores.RepoStore.HandleFile` | packages/hub/src/download.ts:520-549 | In place: one turn of the file loop |
| `RepoStores.RepoStore.DownloadModel` | packages/hub/src/download.ts:448-567 | In place: the whole download; refused listings and a full disk change nothing, the ref comes last |
| `RegistryGc.SurvivingLinksResolve` | packages/hub/src/registry.ts:523-535 | Every link of a kept or skipped snapshot that led to a blob leads to the same bytes afterwards |
| `RegistryGc.BlobsThatSurvive` | packages/hub/src/registry.ts:523-535 | Exactly which blobs survive: names that end in .incomplete or .lock, what is the last component of a link with "blobs" in its target in a surviving snapshot, and everything when no ref names a snapshot |
| `RegistryGc.RefsStayValid` | packages/hub/src/registry.ts:499-513 | No ref is touched, and a ref that named a snapshot that the collector sees still does |
| `RegistryGc.NamesRemain` | packages/hub/src/registry.ts:515-521 | On the entries of the snapshots: without force no path of a file or link disappears from the repository; with force exactly those of the kept snapshots remain |
| `RegistryGc.SecondPlanIsEmpty` | packages/hub/src/registry.ts:480-537 | Planning again on the result finds nothing to delete |
| `RegistryGc.PlanRepoGc` | packages/hub/src/registry.ts:487-537 | In whatever order the directories are read, the plan lists exactly the kept, prunable and skipped snapshots and the dead blobs, each once, with the files and links that each skipped snapshot has and no kept one, and the sum of the sizes |
| `RegistryGc.SortSnapshots` | packages/hub/src/registry.ts:506-511 | Snapshots are kept exactly when a ref names them |
| `RegistryGc.SortCandidates` | packages/hub/src/registry.ts:517-521 | A candidate is pruned exactly if forced or without a file or link that the kept ones lack; otherwise it is reported with exactly those |
| `RegistryGc.ListDead` | packages/hub/src/registry.ts:527-535 | The dead blobs and their total size |
| `DiskUse.ReclaimsExactly` | packages/hub/src/registry.ts:527-569 | A collection frees exactly the bytes that its plan promises |
| `RepoStores.RepoStore.ExecuteGc` | packages/hub/src/registry.ts:550-569 | In place: deletes what was planned and nothing else, and reclaims the bytes the plan promised |
| `RepoStores.RepoStore.CollectGarbage` | packages/hub/src/registry.ts:487-569 | Planning and executing together delete exactly what a plan calls for, in whatever order the directories are read, and reclaim what it promised |
| `Publication.PublicationPlan` | scripts/prepare-release.ts:25-48 | An order is returned if and only if names differ, every dependency can be published and the dependency graph has no cycle; it lists every manifest once, dependencies first, with what is pending; a refusal names a package on a cycle or a dependency that cannot be published, for its own reason |
| `Publication.PendingExactly` | scripts/prepare-release.ts:44-47 | A remark is pending exactly for each private manifest and each manifest of version 0.0.0 |
| `Publication.EntryFitsExactly` | scripts/prepare-release.ts:34-40 | A dependency can be published exactly if its range does not begin with workspace:, file: or link:, a package of the workspace has a version in the range, and any other name does not begin with @mlx-bun/ |
| `Publication.Planner.Visit` | scripts/prepare-release.ts:29-42 | The recursion ends, since the names neither ordered nor being visited become fewer, and leaves the package ordered after everything it needs, or a justified refusal |
| `Publication.Planner.VisitEntry` | scripts/prepare-release.ts:33-40 | One dependency is orderable and ordered, or refused for a reason it has |
| `Publication.Index` | scripts/prepare-release.ts:26-27 | The index by name is smaller than the list exactly if two names agree |
| `Publication.SettledMeansAcyclic` | scripts/prepare-release.ts:29-43 | A complete order with dependencies first rules out every cycle |
| `Publication.WalkDescends` | scripts/prepare-release.ts:29-43 | Along any walk of dependencies the places in the order go down |
| `Publication.ChainCloses` | scripts/prepare-release.ts:31 | Meeting a package that is being visited closes a real cycle through it |
| `Publication.OrderIsComplete` | scripts/prepare-release.ts:43-44 | An order of everything has as many entries as there are manifests |

## Left out

- System calls of the pool: `mlock`, `munlock` and `madvise` report an arbitrary status and a discarded buffer holds arbitrary bytes; `F_NOCACHE`, readahead, footprint queries, the placement of buffers in memory and the clean-up of a failed `open_pool` are not modelled.
- Pool calls that run concurrently with `close`: its lease check and its stop flag are separate critical sections, so it relies on quiet callers, and so does the model. Pool generations are not assumed to be unique.
- Condition variables of the pool are guards of steps, so a lost or spurious wake-up cannot be seen.
- Splitting the path blob of the multi-file pool, and the single-segment wrapper `submit`.
- The advice calls of the hint worker: each hint either fails or does not.
- Event hub: the scoped publisher's prefix rule, `onHandlerError` reporting, the list that `stats` returns, and a scheduler that runs a pass from inside `publish`.
- Image host: catalog lookups (every slot exists from the start, one for each model), operations a model does not declare, pinning by an alias, timing numbers, logging and published events, and errors thrown by them.
- ImageModelHosts.ImageModelHost.Close: a slot first created after close has begun is not modelled; it could not open anything.
- A `generate` called after its lease was released, and what a pipeline does in a run.
- `whisper-model-host.ts`: a simpler sibling of the image host.
- Downloads: lock stealing (one writer for each blob; a lock is free or held), redirects, tokens, progress, rates and the tracker, reading the listing, writing the ref failing or being torn, and deaths of the process between two file operations of one turn that an abort or a failing disk does not cover.
- ModelCache.StepGrows: a file-name component that the file system folds with another (case, Unicode) is not modelled.
- ModelCacheTheorems.RefMeansCompleteExactly: links are followed name by name from the repository's directory; directories that are themselves links are not followed, and whether the directories on a detour and the things a link finds outside the blobs exist is arbitrary.
- Commit ids and revisions are used as single directory entries, or as names of refs; ids with slashes or dots in the place of a commit are not modelled.
- Garbage collection over all repositories of the cache, directory read errors, and symbolic links in the place of snapshot directories; collections do not run while a download does.
- Publication.PublicationPlan: version ranges are an uninterpreted predicate.
- RegistryGc.PlanRepoGc: the extra files of a skipped snapshot are a set; their order is not modelled.
- Registry scanning, release signing, archives, HTTP routes, command lines, benchmarks and everything that runs on the GPU.
