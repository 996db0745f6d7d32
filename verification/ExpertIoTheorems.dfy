/** What the invariant of the expert I/O pool gives its clients, over every run. */
module ExpertIoTheorems {
  import opened Words
  import opened ExpertIoModel
  import opened ExpertIoSafety
  import Counting

  lemma {:induction false} RunKeepsInv(c: Config, s: State, steps: seq<Step>)
    requires Inv(c, s) && Legal(c, s, steps)
    ensures Inv(c, After(c, s, steps))
    decreases |steps|
  {
    if steps != [] {
      StepKeepsInv(c, s, steps[0]);
      RunKeepsInv(c, Do(c, s, steps[0]).0, steps[1..]);
    }
  }

  // ---- Leased buffers -------------------------------------------------------------------------

  /** In every reachable state a leased buffer holds, at each destination of the last load submitted
      for its slot, exactly the bytes of the file at that offset; its length is the largest end. */
  lemma LeasedBufferIsTheLoad(c: Config, s: State, steps: seq<Step>, i: nat)
    requires Initial(c, s) && Legal(c, s, steps)
    requires i < |After(c, s, steps).slots| && After(c, s, steps).slots[i].state == Leased
    ensures var r := After(c, s, steps);
            && Sized(c, r) && WellFormed(c, r.requested[i]) && r.requested[i] != []
            && Filled(c, r.buffers[i], r.requested[i])
            && r.slots[i].length == Extent(r.requested[i])
  {
    RunKeepsInv(c, s, steps);
    assert SlotInv(c, After(c, s, steps), i);
  }

  lemma LeaseIsKept(c: Config, s: State, step: Step, i: nat)
    requires Inv(c, s) && Enabled(c, s, step)
    requires i < |s.slots| && s.slots[i].state == Leased
    ensures Do(c, s, step).0.slots[i] == s.slots[i] ||
            (step.ReleaseStep? && step.slot == i && Do(c, s, step).1 == Ok && (s.slots[i].gpuLease ==> step.gpuFenced))
  {
    match step
    case FinishStep(w) => assert JobFits(c, s, s.workers[w].task.job);
    case _ =>
  }

  lemma LeasedBufferIsKept(c: Config, s: State, step: Step, i: nat)
    requires Inv(c, s) && Enabled(c, s, step)
    requires i < |s.slots| && s.slots[i].state == Leased
    ensures Do(c, s, step).0.buffers[i] == s.buffers[i] && Do(c, s, step).0.requested[i] == s.requested[i]
  {
    match step
    case ReadStep(w, _) => assert JobFits(c, s, s.workers[w].task.job);
    case _ =>
  }

  /** While a lease is out nothing touches the buffer: whatever step any thread or client takes, the
      buffer stays as it is, and only a release of this slot ends the lease, which for a lease of the GPU
      has to be fenced. */
  lemma LeaseFreezesBuffer(c: Config, s: State, step: Step, i: nat)
    requires Inv(c, s) && Enabled(c, s, step)
    requires i < |s.slots| && s.slots[i].state == Leased
    ensures Do(c, s, step).0.buffers[i] == s.buffers[i]
    ensures Do(c, s, step).0.requested[i] == s.requested[i]
    ensures Do(c, s, step).0.slots[i] == s.slots[i] ||
            (step.ReleaseStep? && step.slot == i && Do(c, s, step).1 == Ok && (s.slots[i].gpuLease ==> step.gpuFenced))
  {
    LeaseIsKept(c, s, step, i);
    LeasedBufferIsKept(c, s, step, i);
  }

  predicate Releases(c: Config, s: State, step: Step, i: nat)
    requires Sized(c, s) && Enabled(c, s, step)
  {
    step.ReleaseStep? && step.slot == i && Do(c, s, step).1 == Ok
  }

  predicate NeverReleases(c: Config, s: State, steps: seq<Step>, i: nat)
    requires Sized(c, s) && Legal(c, s, steps)
    decreases |steps|
  {
    steps == [] || (!Releases(c, s, steps[0], i) && NeverReleases(c, Do(c, s, steps[0]).0, steps[1..], i))
  }

  /** A lease holder reads the same bytes for as long as it keeps the lease. */
  lemma {:induction false} LeaseFreezesBufferForRuns(c: Config, s: State, steps: seq<Step>, i: nat)
    requires Inv(c, s) && Legal(c, s, steps)
    requires i < |s.slots| && s.slots[i].state == Leased
    requires NeverReleases(c, s, steps, i)
    ensures var r := After(c, s, steps);
            |r.slots| == |s.slots| == |r.buffers| && r.slots[i] == s.slots[i] && r.buffers[i] == s.buffers[i]
    decreases |steps|
  {
    if steps != [] {
      LeaseFreezesBuffer(c, s, steps[0], i);
      StepKeepsInv(c, s, steps[0]);
      LeaseFreezesBufferForRuns(c, Do(c, s, steps[0]).0, steps[1..], i);
    }
  }

  /** A buffer changes only when the one worker that has a job for its slot copies into it, or when a
      client discards it; no client can obtain its address before or after that step, and no other
      worker, busy or yet to take a job, is concerned with it. */
  lemma WriterIsAlone(c: Config, s: State, step: Step, i: nat)
    requires Inv(c, s) && Enabled(c, s, step)
    requires i < |s.slots| && Do(c, s, step).0.buffers[i] != s.buffers[i]
    ensures (step.ReadStep? && s.workers[step.worker].task.job.slot == i) || (step.DiscardStep? && step.slot == i)
    ensures forall v :: 0 <= v < |s.workers| && s.workers[v].Busy? && s.workers[v].task.job.slot == i ==>
                          step.ReadStep? && step.worker == v
    ensures forall q :: 0 <= q < |s.queue| ==> s.queue[q].slot != i
    ensures forall g: uint64 :: !Obtainable(s, i, g) && !Obtainable(Do(c, s, step).0, i, g)
  {
    match step
    case ReadStep(w, _) => assert JobFits(c, s, s.workers[w].task.job);
    case DiscardStep(_, _, _, _, _) =>
      forall v | 0 <= v < |s.workers| && s.workers[v].Busy? ensures s.workers[v].task.job.slot != i {
        assert JobFits(c, s, s.workers[v].task.job);
      }
      forall q | 0 <= q < |s.queue| ensures s.queue[q].slot != i {
        assert JobFits(c, s, s.queue[q]);
      }
    case _ =>
  }

  // ---- Jobs and slots -------------------------------------------------------------------------

  /** The jobs for slot i: those in the queue and those in workers. */
  function JobsFor(s: State, i: nat): nat {
    Counting.Count(s.queue, (j: Job) => j.slot == i) + Counting.Count(s.workers, (w: Worker) => w.Busy? && w.task.job.slot == i)
  }

  lemma {:induction false} AtMostOne<T>(s: seq<T>, p: T -> bool)
    requires forall j, k :: 0 <= j < k < |s| ==> !(p(s[j]) && p(s[k]))
    ensures Counting.Count(s, p) <= 1
  {
    if s != [] {
      AtMostOne(s[1..], p);
      if p(s[0]) {
        Counting.CountZero(s[1..], p);
      }
    }
  }

  /** A slot is loading exactly when there is one job for it, queued or in a worker; otherwise there
      is none. */
  lemma LoadingHasOneJob(c: Config, s: State, i: nat)
    requires Inv(c, s) && i < |s.slots|
    ensures JobsFor(s, i) == if s.slots[i].state == Loading then 1 else 0
  {
    var queued, running := (j: Job) => j.slot == i, (w: Worker) => w.Busy? && w.task.job.slot == i;
    AtMostOne(s.queue, queued);
    AtMostOne(s.workers, running);
    Counting.CountZero(s.queue, queued);
    Counting.CountZero(s.workers, running);
    assert SlotInv(c, s, i);
    forall q | 0 <= q < |s.queue| && s.queue[q].slot == i ensures s.slots[i].state == Loading {
      assert JobFits(c, s, s.queue[q]);
    }
    forall w | 0 <= w < |s.workers| && s.workers[w].Busy? && s.workers[w].task.job.slot == i
      ensures s.slots[i].state == Loading
    {
      assert JobFits(c, s, s.workers[w].task.job);
    }
  }

  /** The slots of the busy workers, in worker order. */
  function BusySlots(workers: seq<Worker>): (r: seq<nat>)
    ensures forall k :: 0 <= k < |r| ==>
              exists w :: 0 <= w < |workers| && workers[w].Busy? && workers[w].task.job.slot == r[k]
  {
    if workers == [] then []
    else
      var rest := BusySlots(workers[..|workers| - 1]);
      var last := workers[|workers| - 1];
      if last.Busy? then rest + [last.task.job.slot] else rest
  }

  function InFlight(s: State): nat { |BusySlots(s.workers)| }

  lemma {:induction false} BusySlotsDistinct(workers: seq<Worker>)
    requires forall v, w :: 0 <= v < w < |workers| && workers[v].Busy? && workers[w].Busy? ==>
               workers[v].task.job.slot != workers[w].task.job.slot
    ensures forall j, k :: 0 <= j < k < |BusySlots(workers)| ==> BusySlots(workers)[j] != BusySlots(workers)[k]
  {
    if workers != [] {
      BusySlotsDistinct(workers[..|workers| - 1]);
    }
  }

  /** Queued and running jobs together never outnumber the slots. */
  lemma JobsFitSlots(c: Config, s: State)
    requires Inv(c, s)
    ensures |s.queue| + InFlight(s) <= |s.slots|
  {
    var queued := seq(|s.queue|, q requires 0 <= q < |s.queue| => s.queue[q].slot);
    BusySlotsDistinct(s.workers);
    var all := queued + BusySlots(s.workers);
    forall k | 0 <= k < |all| ensures all[k] < |s.slots| {
      if k < |queued| {
        assert JobFits(c, s, s.queue[k]);
      }
    }
    Counting.Pigeonhole(all, |s.slots|);
  }

  /** The ring, which has two cells for each slot, is never full. */
  lemma QueueNeverFull(c: Config, s: State)
    requires Inv(c, s)
    ensures |s.queue| < 2 * |s.slots|
  {
    JobsFitSlots(c, s);
  }

  /** Which submissions the pool accepts, without reference to the order of its checks. In particular
      neither the queue-full branch nor the second capacity check ever refuses one. */
  lemma SubmitAcceptsExactly(c: Config, s: State, slot: nat, generation: uint64, segments: seq<Segment>, mlock: Status)
    requires Inv(c, s)
    ensures Submit(c, s, slot, generation, segments, mlock).1 == Ok <==>
            && slot < |s.slots| && generation != 0 && 0 < |segments| <= MAX_SEGMENTS
            && WellFormed(c, segments)
            && (s.slots[slot].state == Idle || s.slots[slot].state == Ready)
            && (!s.wireSlots || s.slots[slot].wired || mlock == Ok)
  {
    ValidateIsWellFormed(c, segments);
    QueueNeverFull(c, s);
    if WellFormed(c, segments) {
      ExtentFits(c, segments);
    }
  }

  /** A worker that finishes always finds its slot still loading, under the generation of its job, so
      its result is always published; a lease then succeeds exactly if no read failed and nobody cancelled. */
  lemma FinishAlwaysPublishes(c: Config, s: State, w: nat)
    requires Inv(c, s) && CanFinish(s, w)
    ensures var t := s.workers[w].task;
            && Guard(s, t.job)
            && Finish(s, w).slots[t.job.slot].state == Ready
            && forall gpu :: Lease(Finish(s, w), t.job.slot, t.job.generation, gpu).1 == Ok <==>
                 t.error == Ok && !s.slots[t.job.slot].cancelled
  {
    assert JobFits(c, s, s.workers[w].task.job);
  }

  // ---- Failed and cancelled loads -------------------------------------------------------------

  /** Slot i cannot become leasable without being submitted again: it is empty, or its last load has
      failed or been cancelled, or will be published as failed or cancelled. */
  predicate Doomed(s: State, i: nat)
    requires i < |s.slots|
  {
    var slot := s.slots[i];
    || slot.state == Idle
    || (slot.state == Ready && slot.error != Ok)
    || (slot.state == Loading && (slot.cancelled ||
          exists w :: 0 <= w < |s.workers| && FailedIn(s, w, i)))
  }

  predicate Resubmits(c: Config, s: State, step: Step, i: nat)
    requires Sized(c, s) && Enabled(c, s, step)
  {
    step.SubmitStep? && step.slot == i && Do(c, s, step).1 == Ok
  }

  predicate NeverResubmits(c: Config, s: State, steps: seq<Step>, i: nat)
    requires Sized(c, s) && Legal(c, s, steps)
    decreases |steps|
  {
    steps == [] || (!Resubmits(c, s, steps[0], i) && NeverResubmits(c, Do(c, s, steps[0]).0, steps[1..], i))
  }

  /** A cancellation that returned zero, a read error, an end of file inside a segment, and a discard
      each make the slot unleasable. */
  lemma WhatDooms(c: Config, s: State, step: Step, i: nat)
    requires Inv(c, s) && Enabled(c, s, step) && i < |s.slots|
    requires || (step.CancelStep? && step.slot == i && Do(c, s, step).1 == Ok)
             || (step.DiscardStep? && step.slot == i && Do(c, s, step).1 == Ok)
             || (step.FailStep? && s.workers[step.worker].task.job.slot == i)
             || (step.ReadStep? && step.n == 0 && s.workers[step.worker].task.job.slot == i)
    ensures Doomed(Do(c, s, step).0, i)
  {
    if step.FailStep? || step.ReadStep? {
      var s' := Do(c, s, step).0;
      assert JobFits(c, s, s.workers[step.worker].task.job);
      assert FailedIn(s', step.worker, i);
    }
  }

  /** Does a worker hold a job for slot i that has already failed? */
  predicate FailedIn(s: State, w: nat, i: nat) {
    w < |s.workers| && s.workers[w].Busy? && s.workers[w].task.job.slot == i && s.workers[w].task.error != Ok
  }

  lemma FailedIsPublished(c: Config, s: State, w: nat, i: nat)
    requires Inv(c, s) && CanFinish(s, w) && i < |s.slots| && FailedIn(s, w, i)
    ensures Doomed(Finish(s, w), i)
  {
    assert JobFits(c, s, s.workers[w].task.job);
  }

  /** A worker whose job has failed takes no step but to publish it. */
  lemma FailedWaits(c: Config, s: State, step: Step, w: nat, i: nat)
    requires Sized(c, s) && Enabled(c, s, step) && FailedIn(s, w, i) && step != FinishStep(w)
    ensures FailedIn(Do(c, s, step).0, w, i)
  {
  }

  lemma FailedStays(c: Config, s: State, step: Step, w: nat, i: nat)
    requires Inv(c, s) && Enabled(c, s, step) && i < |s.slots|
    requires FailedIn(s, w, i)
    ensures if step == FinishStep(w) then Doomed(Do(c, s, step).0, i)
            else FailedIn(Do(c, s, step).0, w, i) && Do(c, s, step).0.slots[i].state == Loading
  {
    if step == FinishStep(w) {
      FailedIsPublished(c, s, w, i);
    } else {
      FailedWaits(c, s, step, w, i);
      StepKeepsInv(c, s, step);
      var s' := Do(c, s, step).0;
      assert JobFits(c, s', s'.workers[w].task.job);
    }
  }

  lemma DoomedStays(c: Config, s: State, step: Step, i: nat)
    requires Inv(c, s) && Enabled(c, s, step) && i < |s.slots|
    requires Doomed(s, i) && !Resubmits(c, s, step, i)
    ensures Doomed(Do(c, s, step).0, i)
  {
    if w :| 0 <= w < |s.workers| && FailedIn(s, w, i) {
      FailedStays(c, s, step, w, i);
    } else if step.FinishStep? {
      assert JobFits(c, s, s.workers[step.worker].task.job);
    }
  }

  /** After a load failed or was cancelled, no run leads to a lease on its slot before the slot is
      submitted again. */
  lemma {:induction false} NoLeaseBeforeResubmission(c: Config, s: State, steps: seq<Step>, i: nat)
    requires Inv(c, s) && Legal(c, s, steps) && i < |s.slots|
    requires Doomed(s, i) && NeverResubmits(c, s, steps, i)
    ensures var r := After(c, s, steps);
            && i < |r.slots| && Doomed(r, i) && r.slots[i].state != Leased
            && forall g: uint64, gpu :: Lease(r, i, g, gpu).1 != Ok
    decreases |steps|
  {
    if steps != [] {
      DoomedStays(c, s, steps[0], i);
      StepKeepsInv(c, s, steps[0]);
      NoLeaseBeforeResubmission(c, Do(c, s, steps[0]).0, steps[1..], i);
    }
  }

  // ---- Wiring ---------------------------------------------------------------------------------

  predicate LoadsAreWired(s: State) {
    s.wireSlots ==> forall i :: 0 <= i < |s.slots| && s.slots[i].state == Loading ==> s.slots[i].wired
  }

  lemma StepKeepsWiring(c: Config, s: State, step: Step)
    requires Inv(c, s) && Enabled(c, s, step) && LoadsAreWired(s)
    ensures LoadsAreWired(Do(c, s, step).0)
  {
  }

  /** While wiring is on, no load runs into a buffer that is not wired, however often wiring is switched. */
  lemma {:induction false} RunKeepsWiring(c: Config, s: State, steps: seq<Step>)
    requires Inv(c, s) && Legal(c, s, steps) && LoadsAreWired(s)
    ensures LoadsAreWired(After(c, s, steps))
    decreases |steps|
  {
    if steps != [] {
      StepKeepsWiring(c, s, steps[0]);
      StepKeepsInv(c, s, steps[0]);
      RunKeepsWiring(c, Do(c, s, steps[0]).0, steps[1..]);
    }
  }

  // ---- Every load finishes --------------------------------------------------------------------

  function Bytes(segments: seq<Segment>): nat {
    if segments == [] then 0 else segments[0].Len() + Bytes(segments[1..])
  }

  /** The steps a worker may still need: one for each byte, one to publish. */
  function TaskWork(t: Task): nat {
    if Copying(t) && t.copied <= Bytes(t.job.segments[t.index..]) then 1 + Bytes(t.job.segments[t.index..]) - t.copied else 1
  }

  function WorkerWork(w: Worker): nat {
    match w
    case Exited => 0
    case Resting => 1
    case Busy(t) => 1 + TaskWork(t)
  }

  function QueueWork(queue: seq<Job>): nat {
    if queue == [] then 0 else 2 + Bytes(queue[0].segments) + QueueWork(queue[1..])
  }

  function WorkersWork(workers: seq<Worker>): nat {
    if workers == [] then 0 else WorkerWork(workers[0]) + WorkersWork(workers[1..])
  }

  /** An upper bound on the worker steps that are left if clients stay away. */
  function Work(s: State): nat { QueueWork(s.queue) + WorkersWork(s.workers) }

  lemma {:induction false} WorkersWorkUpdate(workers: seq<Worker>, w: nat, x: Worker)
    requires w < |workers|
    ensures WorkersWork(workers[w := x]) == WorkersWork(workers) - WorkerWork(workers[w]) + WorkerWork(x)
  {
    if w == 0 {
      assert workers[w := x][1..] == workers[1..];
    } else {
      assert workers[w := x][1..] == workers[1..][w - 1 := x];
      WorkersWorkUpdate(workers[1..], w - 1, x);
    }
  }

  lemma CopyingWork(c: Config, buffer: seq<byte>, t: Task, n: nat)
    requires WellFormed(c, t.job.segments) && |buffer| == c.Capacity() && TaskFits(c, buffer, t)
    requires n > 0 && RoomFor(c, buffer, t, n)
    ensures TaskWork(Advance(t, n)) < TaskWork(t)
  {
    var rest := t.job.segments[t.index..];
    assert rest[0] == t.job.segments[t.index] && rest[1..] == t.job.segments[t.index + 1..];
  }

  /** Every step of a worker uses up some of the work that is left. */
  lemma WorkDecreases(c: Config, s: State, step: Step)
    requires Inv(c, s) && Enabled(c, s, step) && step.IsWork()
    ensures Work(Do(c, s, step).0) < Work(s)
  {
    var s' := Do(c, s, step).0;
    var w := step.worker;
    WorkersWorkUpdate(s.workers, w, s'.workers[w]);
    match step
    case TakeStep(_) => assert s.queue[0].segments[0..] == s.queue[0].segments;
    case ReadStep(_, n) =>
      var t := s.workers[w].task;
      assert JobFits(c, s, t.job);
      if n > 0 {
        CopyingWork(c, s.buffers[t.job.slot], t, n);
      } else {
        StoppedWork(c, s.buffers[t.job.slot], t);
      }
    case FailStep(_, _) =>
      var t := s.workers[w].task;
      assert JobFits(c, s, t.job);
      StoppedWork(c, s.buffers[t.job.slot], t);
    case _ =>
  }

  lemma StoppedWork(c: Config, buffer: seq<byte>, t: Task)
    requires WellFormed(c, t.job.segments) && |buffer| == c.Capacity() && TaskFits(c, buffer, t) && Copying(t)
    ensures TaskWork(t) > 1
  {
    assert t.job.segments[t.index..][0] == t.job.segments[t.index];
  }

  /** While anything is queued or in a worker, some worker can take a step: no load is ever stuck. */
  lemma SomeWorkerCanStep(c: Config, s: State)
    requires Inv(c, s)
    requires s.queue != [] || exists w :: 0 <= w < |s.workers| && s.workers[w].Busy?
    ensures exists step: Step :: step.IsWork() && Enabled(c, s, step)
  {
    var w: nat := 0;
    if v :| 0 <= v < |s.workers| && s.workers[v].Busy? {
      w := v;
    }
    if s.workers[w].Busy? {
      assert JobFits(c, s, s.workers[w].task.job);
      if Copying(s.workers[w].task) {
        assert Enabled(c, s, ReadStep(w, 0));
      } else {
        assert Enabled(c, s, FinishStep(w));
      }
    } else {
      assert s.workers[w].Resting?;
      assert Enabled(c, s, TakeStep(w));
    }
  }

  lemma {:induction false} NoBusySlots(workers: seq<Worker>)
    requires forall w :: 0 <= w < |workers| ==> !workers[w].Busy?
    ensures BusySlots(workers) == []
  {
    if workers != [] {
      NoBusySlots(workers[..|workers| - 1]);
    }
  }

  /** Left to themselves the workers stop after at most `Work(s)` steps, and they only stop when no
      job is queued or running and no slot is loading. */
  lemma {:induction false} LoadsFinish(c: Config, s: State, steps: seq<Step>)
    requires Inv(c, s) && Legal(c, s, steps)
    requires forall k :: 0 <= k < |steps| ==> steps[k].IsWork()
    ensures |steps| <= Work(s)
    ensures var r := After(c, s, steps);
            (Sized(c, r) && !exists step: Step :: step.IsWork() && Enabled(c, r, step)) ==>
              && r.queue == [] && InFlight(r) == 0
              && forall i :: 0 <= i < |r.slots| ==> r.slots[i].state != Loading
    decreases |steps|
  {
    if steps == [] {
      if !exists step: Step :: step.IsWork() && Enabled(c, s, step) {
        if s.queue != [] || exists w :: 0 <= w < |s.workers| && s.workers[w].Busy? {
          SomeWorkerCanStep(c, s);
        }
        forall i | 0 <= i < |s.slots| ensures s.slots[i].state != Loading {
          assert SlotInv(c, s, i);
        }
        NoBusySlots(s.workers);
      }
    } else {
      StepKeepsInv(c, s, steps[0]);
      WorkDecreases(c, s, steps[0]);
      LoadsFinish(c, Do(c, s, steps[0]).0, steps[1..]);
    }
  }

  /** Once close has joined its workers nothing is queued and no slot is loading or leased, so the
      buffers can be freed. */
  lemma JoinedPoolIsQuiet(c: Config, s: State, steps: seq<Step>)
    requires Initial(c, s) && Legal(c, s, steps)
    requires forall w :: 0 <= w < |After(c, s, steps).workers| ==> After(c, s, steps).workers[w].Exited?
    ensures var r := After(c, s, steps);
            r.queue == [] && forall i :: 0 <= i < |r.slots| ==> r.slots[i].state == Idle || r.slots[i].state == Ready
  {
    RunKeepsInv(c, s, steps);
    var r := After(c, s, steps);
    assert r.workers[0].Exited?;
    forall i | 0 <= i < |r.slots| ensures r.slots[i].state == Idle || r.slots[i].state == Ready {
      assert SlotInv(c, r, i);
    }
  }
}
