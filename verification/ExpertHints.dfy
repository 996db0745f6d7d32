/** The advisory side of the expert I/O pool: a second ring of jobs with one worker and six 64-bit
    counters (packages/inference/native/expert-io.c:127-154, 311-367). */
module ExpertHints {
  import opened Words
  import opened CircularQueues
  import ExpertIoModel

  const HINT_QUEUE_CAP := 4096

  datatype Extent = Extent(file: uint32, offset: uint64, length: uint64)

  type HintJob = seq<Extent>

  /** `inflight` holds the job the hint worker is advising, if any: the C counter hint_inflight is its
      length. The six counters wrap at 64 bits. */
  datatype Hints = Hints(queue: seq<HintJob>, inflight: seq<HintJob>, stopping: bool, submitted: nat, completed: nat,
                         dropped: nat, operations: nat, bytes: nat, errors: nat)

  const EMPTY := Hints([], [], false, 0, 0, 0, 0, 0, 0)

  // ---- Validation -----------------------------------------------------------------------------

  function Total(job: HintJob): nat {
    if job == [] then 0 else Total(job[..|job| - 1]) + job[|job| - 1].length as int
  }

  predicate ExtentFits(files: nat, e: Extent) {
    e.file as int < files && 0 < e.length && e.offset as int + e.length as int <= INT64_MAX
  }

  /** The checks of a hint from extent i on, in the order of the C code. */
  function Check(files: nat, job: HintJob, i: nat): Status
    requires i <= |job|
    decreases |job| - i
  {
    if i == |job| then Ok
    else if job[i].file as int >= files || job[i].length == 0 then EINVAL
    else if !ExtentFits(files, job[i]) then EOVERFLOW
    else if Total(job[..i + 1]) > UINT64_MAX then EOVERFLOW
    else Check(files, job, i + 1)
  }

  /** The same checks with an accumulator of 64 bits, which never overflows. */
  method CheckExtents(files: uint32, job: HintJob) returns (error: Status, bytes: uint64)
    ensures error == Check(files as int, job, 0)
    ensures error == Ok ==> bytes as int == Total(job)
  {
    bytes := 0;
    for i := 0 to |job|
      invariant Check(files as int, job, 0) == Check(files as int, job, i)
      invariant bytes as int == Total(job[..i])
    {
      var e := job[i];
      assert job[..i + 1][..i] == job[..i];
      if e.file >= files || e.length == 0 {
        return EINVAL, bytes;
      }
      if e.offset > INT64_MAX as uint64 || e.length > INT64_MAX as uint64 - e.offset {
        return EOVERFLOW, bytes;
      }
      if bytes > UINT64_MAX as uint64 - e.length {
        return EOVERFLOW, bytes;
      }
      bytes := bytes + e.length;
    }
    assert job[..|job|] == job;
    error := Ok;
  }

  // ---- Steps ----------------------------------------------------------------------------------

  function Submit(files: nat, h: Hints, job: HintJob): (Hints, Status) {
    if job == [] || |job| > ExpertIoModel.MAX_SEGMENTS then (h, EINVAL)
    else if Check(files, job, 0) != Ok then (h, Check(files, job, 0))
    else if h.stopping then (h, ECANCELED)
    else if |h.queue| == HINT_QUEUE_CAP then (h.(dropped := Wrap64(h.dropped + 1)), EAGAIN)
    else
      (h.(queue := h.queue + [job], submitted := Wrap64(h.submitted + 1),
          operations := Wrap64(h.operations + |job|), bytes := Wrap64(h.bytes + Total(job))), Ok)
  }

  datatype Step = SubmitStep(job: HintJob) | TakeStep | FinishStep(failed: bool) | StopStep

  predicate Enabled(h: Hints, step: Step) {
    match step
    case TakeStep => !h.stopping && h.queue != [] && h.inflight == []
    case FinishStep(_) => h.inflight != []
    case _ => true
  }

  function Do(files: nat, h: Hints, step: Step): Hints
    requires Enabled(h, step)
  {
    match step
    case SubmitStep(job) => Submit(files, h, job).0
    case TakeStep => h.(queue := h.queue[1..], inflight := [h.queue[0]])
    case FinishStep(failed) =>
      h.(inflight := [], completed := Wrap64(h.completed + 1), errors := if failed then Wrap64(h.errors + 1) else h.errors)
    case StopStep => h.(stopping := true)
  }

  predicate Legal(files: nat, h: Hints, steps: seq<Step>)
    decreases |steps|
  {
    steps == [] || (Enabled(h, steps[0]) && Legal(files, Do(files, h, steps[0]), steps[1..]))
  }

  function After(files: nat, h: Hints, steps: seq<Step>): Hints
    requires Legal(files, h, steps)
    decreases |steps|
  {
    if steps == [] then h else After(files, Do(files, h, steps[0]), steps[1..])
  }

  /** The jobs a run accepts, in order. */
  function Accepted(files: nat, h: Hints, steps: seq<Step>): seq<HintJob>
    requires Legal(files, h, steps)
    decreases |steps|
  {
    if steps == [] then []
    else
      (if steps[0].SubmitStep? && Submit(files, h, steps[0].job).1 == Ok then [steps[0].job] else [])
      + Accepted(files, Do(files, h, steps[0]), steps[1..])
  }

  /** The jobs a run completes, in order. */
  function Completed(files: nat, h: Hints, steps: seq<Step>): seq<HintJob>
    requires Legal(files, h, steps)
    decreases |steps|
  {
    if steps == [] then []
    else (if steps[0].FinishStep? then h.inflight else []) + Completed(files, Do(files, h, steps[0]), steps[1..])
  }

  /** How many hints a run refuses because the queue is full. */
  function Refused(files: nat, h: Hints, steps: seq<Step>): nat
    requires Legal(files, h, steps)
    decreases |steps|
  {
    if steps == [] then 0
    else
      (if steps[0].SubmitStep? && Submit(files, h, steps[0].job).1 == EAGAIN then 1 else 0)
      + Refused(files, Do(files, h, steps[0]), steps[1..])
  }

  // ---- Conservation ---------------------------------------------------------------------------

  lemma StepConserves(files: nat, h: Hints, step: Step)
    requires Enabled(h, step) && |h.inflight| <= 1
    ensures var h' := Do(files, h, step);
            var accepted: seq<HintJob> := if step.SubmitStep? && Submit(files, h, step.job).1 == Ok then [step.job] else [];
            && (h.inflight + h.queue) + accepted == (if step.FinishStep? then h.inflight else []) + (h'.inflight + h'.queue)
            && |h'.inflight| <= 1
  {
  }

  /** No hint is lost, invented or overtaken: what a run accepts, behind what was already there, is
      what it completes, followed by the job being advised and the queue. */
  lemma {:induction false} HintsAreConserved(files: nat, h: Hints, steps: seq<Step>)
    requires Legal(files, h, steps) && |h.inflight| <= 1
    ensures var r := After(files, h, steps);
            && (h.inflight + h.queue) + Accepted(files, h, steps) == Completed(files, h, steps) + (r.inflight + r.queue)
            && |r.inflight| <= 1
    decreases |steps|
  {
    if steps != [] {
      var h' := Do(files, h, steps[0]);
      StepConserves(files, h, steps[0]);
      HintsAreConserved(files, h', steps[1..]);
      var first: seq<HintJob> := if steps[0].SubmitStep? && Submit(files, h, steps[0].job).1 == Ok then [steps[0].job] else [];
      var done := if steps[0].FinishStep? then h.inflight else [];
      var r := After(files, h', steps[1..]);
      Chain(h.inflight + h.queue, first, Accepted(files, h', steps[1..]), done, h'.inflight + h'.queue,
            Completed(files, h', steps[1..]), r.inflight + r.queue);
    }
  }

  lemma Chain<T>(a: seq<T>, first: seq<T>, later: seq<T>, done: seq<T>, b: seq<T>, rest: seq<T>, c: seq<T>)
    requires a + first == done + b && b + later == rest + c
    ensures a + (first + later) == (done + rest) + c
  {
    calc {
      a + (first + later);
      (a + first) + later;
      done + (b + later);
      (done + rest) + c;
    }
  }

  /** The counters count what they are named after, and only hints refused for a full queue are
      counted as dropped; all of them wrap at 64 bits. */
  lemma {:induction false} CountersCount(files: nat, h: Hints, steps: seq<Step>)
    requires Legal(files, h, steps) && |h.inflight| <= 1
    ensures var r := After(files, h, steps);
            && Wrap64(r.submitted) == Wrap64(h.submitted + |Accepted(files, h, steps)|)
            && Wrap64(r.completed) == Wrap64(h.completed + |Completed(files, h, steps)|)
            && Wrap64(r.dropped) == Wrap64(h.dropped + Refused(files, h, steps))
    decreases |steps|
  {
    if steps != [] {
      StepConserves(files, h, steps[0]);
      CountersCount(files, Do(files, h, steps[0]), steps[1..]);
      CounterStep(files, h, steps[0], |Accepted(files, Do(files, h, steps[0]), steps[1..])|);
      CounterStep(files, h, steps[0], |Completed(files, Do(files, h, steps[0]), steps[1..])|);
      CounterStep(files, h, steps[0], Refused(files, Do(files, h, steps[0]), steps[1..]));
    }
  }

  /** One step moves each counter by one or not at all, however often it has wrapped; y is what is
      still to come. */
  lemma CounterStep(files: nat, h: Hints, step: Step, y: nat)
    requires Enabled(h, step) && |h.inflight| <= 1
    ensures var h' := Do(files, h, step);
            var status := if step.SubmitStep? then Submit(files, h, step.job).1 else EINVAL;
            && Wrap64(h'.submitted + y) == Wrap64(h.submitted + (if status == Ok then 1 else 0) + y)
            && Wrap64(h'.completed + y) == Wrap64(h.completed + (if step.FinishStep? then 1 else 0) + y)
            && Wrap64(h'.dropped + y) == Wrap64(h.dropped + (if status == EAGAIN then 1 else 0) + y)
  {
    WrapAdds(h.submitted + 1, y);
    WrapAdds(h.completed + 1, y);
    WrapAdds(h.dropped + 1, y);
    if step.SubmitStep? {
      CheckNeverAgain(files, step.job, 0);
    }
  }

  function Operations(jobs: seq<HintJob>): nat {
    if jobs == [] then 0 else |jobs[0]| + Operations(jobs[1..])
  }

  function TotalBytes(jobs: seq<HintJob>): nat {
    if jobs == [] then 0 else Total(jobs[0]) + TotalBytes(jobs[1..])
  }

  /** How many of the hints a run completes were refused by the system. */
  function Failures(files: nat, h: Hints, steps: seq<Step>): nat
    requires Legal(files, h, steps)
    decreases |steps|
  {
    if steps == [] then 0
    else (if steps[0] == FinishStep(true) then 1 else 0) + Failures(files, Do(files, h, steps[0]), steps[1..])
  }

  /** One counter counts the advice that failed. */
  lemma {:induction false} ErrorsCount(files: nat, h: Hints, steps: seq<Step>)
    requires Legal(files, h, steps)
    ensures Wrap64(After(files, h, steps).errors) == Wrap64(h.errors + Failures(files, h, steps))
    decreases |steps|
  {
    if steps != [] {
      var h' := Do(files, h, steps[0]);
      ErrorsCount(files, h', steps[1..]);
      AmountStep(files, h, steps[0], Failures(files, h', steps[1..]));
    }
  }

  /** One counter adds up the extents of the accepted hints. */
  lemma {:induction false} OperationsCount(files: nat, h: Hints, steps: seq<Step>)
    requires Legal(files, h, steps)
    ensures Wrap64(After(files, h, steps).operations) == Wrap64(h.operations + Operations(Accepted(files, h, steps)))
    decreases |steps|
  {
    if steps != [] {
      var h' := Do(files, h, steps[0]);
      OperationsCount(files, h', steps[1..]);
      AmountStep(files, h, steps[0], Operations(Accepted(files, h', steps[1..])));
      AmountsAdd(files, h, steps);
    }
  }

  /** One counter adds up the bytes of the accepted hints. */
  lemma {:induction false} BytesCount(files: nat, h: Hints, steps: seq<Step>)
    requires Legal(files, h, steps)
    ensures Wrap64(After(files, h, steps).bytes) == Wrap64(h.bytes + TotalBytes(Accepted(files, h, steps)))
    decreases |steps|
  {
    if steps != [] {
      var h' := Do(files, h, steps[0]);
      BytesCount(files, h', steps[1..]);
      AmountStep(files, h, steps[0], TotalBytes(Accepted(files, h', steps[1..])));
      AmountsAdd(files, h, steps);
    }
  }

  lemma AmountsAdd(files: nat, h: Hints, steps: seq<Step>)
    requires steps != [] && Legal(files, h, steps)
    ensures var accepted := steps[0].SubmitStep? && Submit(files, h, steps[0].job).1 == Ok;
            var all, later := Accepted(files, h, steps), Accepted(files, Do(files, h, steps[0]), steps[1..]);
            && Operations(all) == (if accepted then |steps[0].job| else 0) + Operations(later)
            && TotalBytes(all) == (if accepted then Total(steps[0].job) else 0) + TotalBytes(later)
  {
    var all, later := Accepted(files, h, steps), Accepted(files, Do(files, h, steps[0]), steps[1..]);
    if steps[0].SubmitStep? && Submit(files, h, steps[0].job).1 == Ok {
      assert all[0] == steps[0].job && all[1..] == later;
    } else {
      assert all == later;
    }
  }

  lemma AmountStep(files: nat, h: Hints, step: Step, y: nat)
    requires Enabled(h, step)
    ensures var h' := Do(files, h, step);
            var accepted := step.SubmitStep? && Submit(files, h, step.job).1 == Ok;
            && Wrap64(h'.operations + y) == Wrap64(h.operations + (if accepted then |step.job| else 0) + y)
            && Wrap64(h'.bytes + y) == Wrap64(h.bytes + (if accepted then Total(step.job) else 0) + y)
            && Wrap64(h'.errors + y) == Wrap64(h.errors + (if step == FinishStep(true) then 1 else 0) + y)
  {
    if step.SubmitStep? {
      WrapAdds(h.operations + |step.job|, y);
      WrapAdds(h.bytes + Total(step.job), y);
    }
    WrapAdds(h.errors + 1, y);
  }

  lemma {:induction false} CheckNeverAgain(files: nat, job: HintJob, i: nat)
    requires i <= |job|
    ensures Check(files, job, i) != EAGAIN
    decreases |job| - i
  {
    if i < |job| {
      CheckNeverAgain(files, job, i + 1);
    }
  }

  /** What `hint_stats` shows of a pool since it was opened: submitted = completed + queued + in
      flight, as long as fewer than 2^64 hints were accepted. */
  lemma StatsAddUp(files: nat, steps: seq<Step>)
    requires Legal(files, EMPTY, steps) && |Accepted(files, EMPTY, steps)| <= UINT64_MAX
    ensures var r := After(files, EMPTY, steps);
            Wrap64(r.submitted) == Wrap64(r.completed) + |r.queue| + |r.inflight|
  {
    HintsAreConserved(files, EMPTY, steps);
    CountersCount(files, EMPTY, steps);
    var r := After(files, EMPTY, steps);
    assert |Accepted(files, EMPTY, steps)| == |Completed(files, EMPTY, steps)| + |r.inflight| + |r.queue|;
  }

  // ---- What a hint is answered ----------------------------------------------------------------

  /** An extent that a hint may contain: a nonempty range of an open file that the system accepts, with
      which the byte total of the hint still fits into 64 bits. */
  predicate Fine(files: nat, job: HintJob, k: nat)
    requires k < |job|
  {
    && job[k].file as int < files && job[k].length > 0
    && job[k].offset as int + job[k].length as int < 0x8000_0000_0000_0000
    && Total(job[..k + 1]) < 0x1_0000_0000_0000_0000
  }

  /** What is wrong with the first extent that is not. */
  function Complaint(files: nat, job: HintJob, i: nat): Status
    requires i <= |job|
    decreases |job| - i
  {
    if i == |job| then Ok
    else if Fine(files, job, i) then Complaint(files, job, i + 1)
    else if job[i].file as int >= files || job[i].length == 0 then EINVAL
    else EOVERFLOW
  }

  lemma {:induction false} ComplaintIsTheVerdict(files: nat, job: HintJob, i: nat)
    requires i <= |job|
    ensures Complaint(files, job, i) == Check(files, job, i)
    decreases |job| - i
  {
    if i < |job| && Fine(files, job, i) {
      ComplaintIsTheVerdict(files, job, i + 1);
    }
  }

  function Takes(steps: seq<Step>): nat {
    if steps == [] then 0 else (if steps[0] == TakeStep then 1 else 0) + Takes(steps[1..])
  }

  lemma {:induction false} QueueIsCounted(files: nat, h: Hints, steps: seq<Step>)
    requires Legal(files, h, steps)
    ensures |h.queue| + |Accepted(files, h, steps)| == Takes(steps) + |After(files, h, steps).queue|
    ensures After(files, h, steps).stopping <==> h.stopping || StopStep in steps
    decreases |steps|
  {
    if steps != [] {
      QueueIsCounted(files, Do(files, h, steps[0]), steps[1..]);
    }
  }

  /** Over every run: a hint is refused for its size, for its first bad extent, when the pool has been told
      to stop, or, and only then counted as dropped, when 4096 accepted hints are still to be taken. */
  lemma HintAnswers(files: nat, steps: seq<Step>, job: HintJob)
    requires Legal(files, EMPTY, steps)
    ensures Submit(files, After(files, EMPTY, steps), job).1 ==
              if job == [] || |job| > 8 then EINVAL
              else if Complaint(files, job, 0) != Ok then Complaint(files, job, 0)
              else if StopStep in steps then ECANCELED
              else if |Accepted(files, EMPTY, steps)| == Takes(steps) + 4096 then EAGAIN
              else Ok
  {
    QueueIsCounted(files, EMPTY, steps);
    ComplaintIsTheVerdict(files, job, 0);
  }

  /** Once the pool was told to stop, no hint is taken any more. */
  lemma {:induction false} NothingTakenAfterStop(files: nat, h: Hints, steps: seq<Step>)
    requires Legal(files, h, steps) && h.stopping
    ensures Takes(steps) == 0 && Accepted(files, h, steps) == []
    decreases |steps|
  {
    if steps != [] {
      NothingTakenAfterStop(files, Do(files, h, steps[0]), steps[1..]);
    }
  }

  // ---- The hint queue in place ----------------------------------------------------------------

  class HintQueue {
    const files: uint32
    const queue: CircularQueue<HintJob>
    var inflight: uint32
    var stopping: bool
    var submitted: uint64
    var completed: uint64
    var dropped: uint64
    var operations: uint64
    var bytes: uint64
    var errors: uint64
    ghost var current: seq<HintJob>

    ghost predicate Valid()
      reads this, queue
    {
      queue.Valid() && queue.capacity as int == HINT_QUEUE_CAP && |current| == inflight as int <= 1
    }

    ghost function State(): Hints
      reads this, queue, queue.items
      requires Valid()
    {
      Hints(queue.Contents(), current, stopping, submitted as int, completed as int,
            dropped as int, operations as int, bytes as int, errors as int)
    }

    constructor (files: uint32)
      ensures Valid() && fresh(queue) && fresh(queue.items) && State() == EMPTY && this.files == files
    {
      this.files := files;
      queue := new CircularQueue<HintJob>(HINT_QUEUE_CAP as uint32);
      inflight, stopping, current := 0, false, [];
      submitted, completed, dropped, operations, bytes, errors := 0, 0, 0, 0, 0, 0;
    }

    method Hint(job: HintJob) returns (error: Status)
      requires Valid()
      modifies this`submitted, this`dropped, this`operations, this`bytes, queue, queue.items
      ensures Valid()
      ensures (State(), error) == Submit(files as int, old(State()), job)
    {
      if job == [] || |job| > ExpertIoModel.MAX_SEGMENTS {
        return EINVAL;
      }
      var total;
      error, total := CheckExtents(files, job);
      if error != Ok {
        return;
      }
      if stopping {
        error := ECANCELED;
      } else if queue.len == queue.capacity {
        dropped := Plus(dropped, 1);
        error := EAGAIN;
      } else {
        queue.Push(job);
        submitted := Plus(submitted, 1);
        operations := Plus(operations, |job| as uint64);
        bytes := Plus(bytes, total);
      }
    }

    /** The hint worker takes the oldest job. */
    method Take() returns (job: HintJob)
      requires Valid() && Enabled(State(), TakeStep)
      modifies this`inflight, this`current, queue
      ensures Valid()
      ensures State() == Do(files as int, old(State()), TakeStep) && job == old(State()).queue[0]
    {
      job := queue.Pop();
      inflight, current := 1, [job];
    }

    method Finish(failed: bool)
      requires Valid() && inflight == 1
      modifies this`inflight, this`current, this`completed, this`errors
      ensures Valid()
      ensures State() == Do(files as int, old(State()), FinishStep(failed))
    {
      completed := Plus(completed, 1);
      if failed {
        errors := Plus(errors, 1);
      }
      inflight, current := 0, [];
    }
  }

  /** Addition of unsigned 64-bit counters. */
  function Plus(a: uint64, b: uint64): (r: uint64)
    ensures r as int == Wrap64(a as int + b as int)
  {
    if a > UINT64_MAX as uint64 - b then a - (UINT64_MAX as uint64 - b) - 1 else a + b
  }
}
