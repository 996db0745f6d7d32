/** The expert I/O pool as its clients see it: what every call answers follows from the calls made before,
    from what those answered, and from what became of the reads. */
module ExpertIoClient {
  import opened Words
  import opened ExpertIoModel
  import opened ExpertIoSafety
  import opened ExpertIoTheorems
  import opened ExpertIoWait

  // ---- A client's notes on one slot -----------------------------------------------------------

  /** The generation of the last accepted submission, the last successful call, whether the last granted
      lease was asked for on behalf of the GPU, the error that the reads of the last submission met, and
      whether the buffer has been wired and not unwired since. */
  datatype Ledger = Ledger(generation: uint64, last: Call, gpu: bool, error: Status, wired: bool)

  const BLANK := Ledger(0, Nothing, false, Ok, false)

  /** Does a discard get as far as the system calls: is a load of this generation done, and not leased? */
  predicate Discards(s: State, i: nat, l: Ledger, generation: uint64) {
    && generation != 0 && generation == l.generation && !HasJob(s, i)
    && (l.last == Submitted || l.last == Cancelled || l.last == Released)
  }

  /** Does it unwire the buffer? */
  predicate Unwires(s: State, step: Step, i: nat, l: Ledger) {
    step.DiscardStep? && step.slot == i && Discards(s, i, l, step.generation) && (l.wired ==> step.munlock == Ok)
  }

  function Note(c: Config, s: State, step: Step, i: nat, l: Ledger): Ledger
    requires Sized(c, s) && Enabled(c, s, step)
  {
    if Spoils(s, step, i) then l.(error := if step.FailStep? then step.error else ENODATA)
    else if !Concerns(step, i) || Do(c, s, step).1 != Ok then l.(wired := l.wired && !Unwires(s, step, i, l))
    else
      match step
      case SubmitStep(_, generation, _, _) => Ledger(generation, Submitted, false, Ok, l.wired || s.wireSlots)
      case CancelStep(_, _) => l.(last := Cancelled)
      case LeaseStep(_, _, gpu) => l.(last := LeasedOut, gpu := gpu)
      case ReleaseStep(_, _, _) => l.(last := Released)
      case _ => l.(last := Discarded, wired := false)
  }

  function Notes(c: Config, s: State, steps: seq<Step>, i: nat, l: Ledger): Ledger
    requires Sized(c, s) && Legal(c, s, steps)
    decreases |steps|
  {
    if steps == [] then l else Notes(c, Do(c, s, steps[0]).0, steps[1..], i, Note(c, s, steps[0], i, l))
  }

  /** What a load came to. */
  function Verdict(l: Ledger): Status {
    match l.last
    case Nothing => Ok
    case Discarded => Ok
    case Cancelled => ECANCELED
    case _ => l.error
  }

  lemma HasJobExactly(c: Config, s: State, i: nat)
    requires Inv(c, s) && i < |s.slots|
    ensures HasJob(s, i) <==> s.slots[i].state == Loading
  {
    assert SlotInv(c, s, i);
    forall q | 0 <= q < |s.queue| && s.queue[q].slot == i ensures s.slots[i].state == Loading {
      assert JobFits(c, s, s.queue[q]);
    }
    forall w | 0 <= w < |s.workers| && s.workers[w].Busy? && s.workers[w].task.job.slot == i
      ensures s.slots[i].state == Loading
    {
      assert JobFits(c, s, s.workers[w].task.job);
    }
  }

  // ---- The notes are right --------------------------------------------------------------------

  /** The notes agree with the slot. */
  predicate Right(s: State, i: nat, l: Ledger) {
    && i < |s.slots| && s.slots[i].generation == l.generation && Tells(s.slots[i], l.last) && s.slots[i].wired == l.wired
    && (l.last == LeasedOut ==> s.slots[i].gpuLease == l.gpu)
    && (s.slots[i].state == Loading ==> s.slots[i].cancelled == (l.last == Cancelled))
    && (s.slots[i].state != Loading ==> s.slots[i].error == Verdict(l))
    && (s.slots[i].error != Ok ==> s.slots[i].length == 0)
    && (l.last == LeasedOut || l.last == Released ==> l.error == Ok)
  }

  /** The notes agree with the workers and the queue. */
  predicate RightOnWork(s: State, i: nat, l: Ledger) {
    && (forall q :: 0 <= q < |s.queue| && s.queue[q].slot == i ==> l.error == Ok)
    && (forall w :: 0 <= w < |s.workers| && s.workers[w].Busy? && s.workers[w].task.job.slot == i ==>
          s.workers[w].task.error == l.error)
  }

  lemma CallIsNoted(c: Config, s: State, step: Step, i: nat, l: Ledger)
    requires Inv(c, s) && Enabled(c, s, step) && Right(s, i, l)
    requires Concerns(step, i) && Do(c, s, step).1 == Ok
    ensures Right(Do(c, s, step).0, i, Note(c, s, step, i, l))
  {
    SuccessfulCall(c, s, step, i);
  }

  lemma FinishIsNoted(c: Config, s: State, w: nat, i: nat, l: Ledger)
    requires Inv(c, s) && CanFinish(s, w) && Right(s, i, l) && RightOnWork(s, i, l)
    ensures Right(Finish(s, w), i, l)
  {
    assert JobFits(c, s, s.workers[w].task.job);
  }

  lemma OthersAreNoted(c: Config, s: State, step: Step, i: nat, l: Ledger)
    requires Inv(c, s) && Enabled(c, s, step) && Right(s, i, l) && !step.FinishStep?
    requires !(Concerns(step, i) && Do(c, s, step).1 == Ok)
    ensures Right(Do(c, s, step).0, i, Note(c, s, step, i, l))
  {
    GenerationStays(c, s, step, i);
    OnlyFinishPublishes(c, s, step, i);
    WiringIsNoted(c, s, step, i, l);
    if Spoils(s, step, i) {
      assert JobFits(c, s, s.workers[step.worker].task.job);
    }
  }

  /** A call that is refused changes the wiring of a buffer only if it is a discard that unwired it before
      it failed. */
  lemma WiringIsNoted(c: Config, s: State, step: Step, i: nat, l: Ledger)
    requires Inv(c, s) && Enabled(c, s, step) && Right(s, i, l) && !step.FinishStep?
    requires !(Concerns(step, i) && Do(c, s, step).1 == Ok)
    ensures i < |Do(c, s, step).0.slots| && Do(c, s, step).0.slots[i].wired == Note(c, s, step, i, l).wired
  {
    if step.DiscardStep? && step.slot == i {
      HasJobExactly(c, s, i);
    }
  }

  lemma StepIsNoted(c: Config, s: State, step: Step, i: nat, l: Ledger)
    requires Inv(c, s) && Enabled(c, s, step) && Right(s, i, l) && RightOnWork(s, i, l)
    ensures Right(Do(c, s, step).0, i, Note(c, s, step, i, l))
  {
    if Concerns(step, i) && Do(c, s, step).1 == Ok {
      CallIsNoted(c, s, step, i, l);
    } else if step.FinishStep? {
      FinishIsNoted(c, s, step.worker, i, l);
    } else {
      OthersAreNoted(c, s, step, i, l);
    }
  }

  /** An accepted submission finds no job for its slot; every other call leaves the jobs alone. */
  lemma SubmissionIsNoted(c: Config, s: State, step: Step, i: nat, l: Ledger)
    requires Inv(c, s) && Enabled(c, s, step) && RightOnWork(s, i, l) && step.SubmitStep?
    ensures RightOnWork(Do(c, s, step).0, i, Note(c, s, step, i, l))
  {
    if step.slot == i && Do(c, s, step).1 == Ok {
      forall w | 0 <= w < |s.workers| && s.workers[w].Busy? ensures s.workers[w].task.job.slot != i {
        assert JobFits(c, s, s.workers[w].task.job);
      }
    }
  }

  lemma CallLeavesWork(c: Config, s: State, step: Step, i: nat, l: Ledger)
    requires Sized(c, s) && Enabled(c, s, step) && RightOnWork(s, i, l) && !step.IsWork() && !step.SubmitStep?
    ensures RightOnWork(Do(c, s, step).0, i, Note(c, s, step, i, l))
  {
    assert Do(c, s, step).0.queue == s.queue && Do(c, s, step).0.workers == s.workers;
    assert Note(c, s, step, i, l).error == l.error;
  }

  lemma TakeLeavesWork(c: Config, s: State, w: nat, i: nat, l: Ledger)
    requires Inv(c, s) && CanTake(s, w) && RightOnWork(s, i, l)
    ensures RightOnWork(Take(s, w), i, l)
  {
    var s' := Take(s, w);
    forall q | 0 <= q < |s'.queue| && s'.queue[q].slot == i ensures l.error == Ok {
      assert s'.queue[q] == s.queue[q + 1];
    }
  }

  lemma OtherReadIsNoted(c: Config, s: State, step: Step, i: nat, l: Ledger)
    requires Inv(c, s) && Enabled(c, s, step) && RightOnWork(s, i, l) && (step.ReadStep? || step.FailStep?)
    requires s.workers[step.worker].task.job.slot != i
    ensures RightOnWork(Do(c, s, step).0, i, Note(c, s, step, i, l))
  {
    var s' := Do(c, s, step).0;
    forall w | 0 <= w < |s.workers| && s'.workers[w].Busy? && s'.workers[w].task.job.slot == i
      ensures s'.workers[w] == s.workers[w]
    {
    }
  }

  lemma OwnReadIsNoted(c: Config, s: State, step: Step, i: nat, l: Ledger)
    requires Inv(c, s) && Enabled(c, s, step) && RightOnWork(s, i, l) && (step.ReadStep? || step.FailStep?)
    requires s.workers[step.worker].task.job.slot == i
    ensures RightOnWork(Do(c, s, step).0, i, Note(c, s, step, i, l))
  {
    forall w | 0 <= w < |s.workers| && s.workers[w].Busy? && w != step.worker ensures s.workers[w].task.job.slot != i {
    }
    forall q | 0 <= q < |s.queue| ensures s.queue[q].slot != i {
    }
  }

  lemma WorkIsNoted(c: Config, s: State, step: Step, i: nat, l: Ledger)
    requires Inv(c, s) && Enabled(c, s, step) && RightOnWork(s, i, l)
    ensures RightOnWork(Do(c, s, step).0, i, Note(c, s, step, i, l))
  {
    if step.SubmitStep? {
      SubmissionIsNoted(c, s, step, i, l);
    } else if !step.IsWork() {
      CallLeavesWork(c, s, step, i, l);
    } else if step.TakeStep? {
      TakeLeavesWork(c, s, step.worker, i, l);
    } else if step.ReadStep? || step.FailStep? {
      if s.workers[step.worker].task.job.slot == i {
        OwnReadIsNoted(c, s, step, i, l);
      } else {
        OtherReadIsNoted(c, s, step, i, l);
      }
    }
  }

  lemma {:induction false} NotesAreRight(c: Config, s: State, steps: seq<Step>, i: nat, l: Ledger)
    requires Inv(c, s) && Legal(c, s, steps) && Right(s, i, l) && RightOnWork(s, i, l)
    ensures Inv(c, After(c, s, steps)) && Right(After(c, s, steps), i, Notes(c, s, steps, i, l))
    decreases |steps|
  {
    if steps != [] {
      StepIsNoted(c, s, steps[0], i, l);
      WorkIsNoted(c, s, steps[0], i, l);
      StepKeepsInv(c, s, steps[0]);
      NotesAreRight(c, Do(c, s, steps[0]).0, steps[1..], i, Note(c, s, steps[0], i, l));
    }
  }

  lemma NotesFromTheStart(c: Config, s: State, steps: seq<Step>, i: nat)
    requires Initial(c, s) && Legal(c, s, steps) && i < |s.slots|
    ensures var r := After(c, s, steps);
            && Inv(c, r) && Right(r, i, Notes(c, s, steps, i, BLANK))
            && (HasJob(r, i) <==> r.slots[i].state == Loading)
  {
    InitialInv(c, s);
    NotesAreRight(c, s, steps, i, BLANK);
    HasJobExactly(c, After(c, s, steps), i);
  }

  // ---- What the calls answer ------------------------------------------------------------------

  /** `poll`, and `wait` once it returns, tell what the load came to: the errno of its read, ENODATA if a
      file ended early, ECANCELED if it was cancelled. What failed has length zero. */
  lemma PollAnswers(c: Config, s: State, steps: seq<Step>, i: nat, generation: uint64)
    requires Initial(c, s) && Legal(c, s, steps) && i < |s.slots|
    ensures var r, l := After(c, s, steps), Notes(c, s, steps, i, BLANK);
            && Poll(r, i, generation) ==
                 (if generation != l.generation then ESTALE else if HasJob(r, i) then EAGAIN else Verdict(l))
            && i < |r.slots| && (!HasJob(r, i) && Verdict(l) != Ok ==> r.slots[i].length == 0)
  {
    NotesFromTheStart(c, s, steps, i);
  }

  lemma CancelAnswers(c: Config, s: State, steps: seq<Step>, i: nat, generation: uint64)
    requires Initial(c, s) && Legal(c, s, steps) && i < |s.slots|
    ensures var r, l := After(c, s, steps), Notes(c, s, steps, i, BLANK);
            Cancel(r, i, generation).1 ==
              if generation != l.generation then ESTALE
              else if l.last == Submitted || l.last == Cancelled || l.last == Released then Ok else EBUSY
  {
    NotesFromTheStart(c, s, steps, i);
  }

  /** A lease is granted exactly for a load that is done and went well, and the address of a buffer is
      handed out exactly while its lease lasts. */
  lemma LeaseAnswers(c: Config, s: State, steps: seq<Step>, i: nat, generation: uint64, gpu: bool)
    requires Initial(c, s) && Legal(c, s, steps) && i < |s.slots|
    ensures var r, l := After(c, s, steps), Notes(c, s, steps, i, BLANK);
            && Lease(r, i, generation, gpu).1 ==
                 (if generation != l.generation then ESTALE
                  else if (l.last == Submitted || l.last == Released) && !HasJob(r, i) && l.error == Ok then Ok else EBUSY)
            && (Obtainable(r, i, generation) <==> l.last == LeasedOut && generation == l.generation)
  {
    NotesFromTheStart(c, s, steps, i);
  }

  /** A release is accepted exactly while a lease is out; one that was asked for on behalf of the GPU only
      behind a fence. */
  lemma ReleaseAnswers(c: Config, s: State, steps: seq<Step>, i: nat, generation: uint64, fenced: bool)
    requires Initial(c, s) && Legal(c, s, steps) && i < |s.slots|
    ensures var r, l := After(c, s, steps), Notes(c, s, steps, i, BLANK);
            Release(r, i, generation, fenced).1 ==
              if generation != l.generation then ESTALE
              else if l.last != LeasedOut then EINVAL
              else if l.gpu && !fenced then EBUSY else Ok
  {
    NotesFromTheStart(c, s, steps, i);
  }

  /** A discard gets as far as the system calls exactly for a load that is done and not leased, and unlocks
      the buffer exactly if it is wired. */
  lemma DiscardAnswers(c: Config, s: State, steps: seq<Step>, i: nat, generation: uint64, munlock: Status, madvise: Status,
                       contents: seq<byte>)
    requires Initial(c, s) && Legal(c, s, steps) && i < |s.slots| == |After(c, s, steps).slots| == |After(c, s, steps).buffers|
    ensures var r, l := After(c, s, steps), Notes(c, s, steps, i, BLANK);
            Discard(r, i, generation, munlock, madvise, contents).1 ==
              if generation == 0 then EINVAL
              else if generation != l.generation then ESTALE
              else if !Discards(r, i, l, generation) then EBUSY
              else if l.wired && munlock != Ok then munlock else madvise
  {
    NotesFromTheStart(c, s, steps, i);
  }

  /** What the client asked for a lease it holds decides how it can be given back, whatever happens in the
      pool meanwhile: a lease of the GPU only behind a fence. */
  lemma GpuLeaseNeedsAFence(c: Config, s: State, i: nat, generation: uint64, gpu: bool, steps: seq<Step>, fenced: bool)
    requires Inv(c, s) && !s.stopping && Lease(s, i, generation, gpu).1 == Ok
    requires var s1 := Lease(s, i, generation, gpu).0; Sized(c, s1) && Legal(c, s1, steps) && NeverReleases(c, s1, steps, i)
    ensures var r := After(c, Lease(s, i, generation, gpu).0, steps);
            Release(r, i, generation, fenced).1 == if gpu && !fenced then EBUSY else Ok
  {
    LeaseKeepsInv(c, s, i, generation, gpu);
    LeaseFreezesBufferForRuns(c, Lease(s, i, generation, gpu).0, steps, i);
  }

  // ---- Wiring, submitting and closing ---------------------------------------------------------

  /** What the last successful call asked of wiring. */
  function Asked(c: Config, s: State, steps: seq<Step>, wiring: bool): bool
    requires Sized(c, s) && Legal(c, s, steps)
    decreases |steps|
  {
    if steps == [] then wiring
    else
      Asked(c, Do(c, s, steps[0]).0, steps[1..],
            if steps[0].SetWiringStep? && Do(c, s, steps[0]).1 == Ok then steps[0].enabled else wiring)
  }

  lemma {:induction false} WiringIsAsAsked(c: Config, s: State, steps: seq<Step>)
    requires Sized(c, s) && Legal(c, s, steps)
    ensures After(c, s, steps).wireSlots == Asked(c, s, steps, s.wireSlots)
    decreases |steps|
  {
    if steps != [] {
      WiringIsAsAsked(c, Do(c, s, steps[0]).0, steps[1..]);
    }
  }

  lemma {:induction false} SlotsStay(c: Config, s: State, steps: seq<Step>)
    requires Sized(c, s) && Legal(c, s, steps)
    ensures |After(c, s, steps).slots| == |s.slots|
    decreases |steps|
  {
    if steps != [] {
      SlotsStay(c, Do(c, s, steps[0]).0, steps[1..]);
    }
  }

  /** Does a segment write the byte at this position of the buffer? */
  predicate Writes(g: Segment, p: int) { g.Dst() <= p < g.End() }

  /** A segment that a load may contain: its file is open, its range is not empty and one that the system
      accepts, it lies in the slot's buffer, and it writes no byte that an earlier one writes. */
  ghost predicate Good(c: Config, segments: seq<Segment>, i: nat)
    requires i < |segments|
  {
    && Fits(c, segments[i])
    && forall j, p :: 0 <= j < i && Writes(segments[i], p) ==> !Writes(segments[j], p)
  }

  lemma GoodExactly(c: Config, segments: seq<Segment>, i: nat)
    requires i < |segments| && forall j :: 0 <= j < i ==> segments[j].Len() > 0
    ensures Good(c, segments, i) <==> SegmentError(c, segments, i) == Ok
  {
    forall j | 0 <= j < i && Fits(c, segments[i])
      ensures Overlap(segments[i], segments[j]) <==> exists p :: Writes(segments[i], p) && Writes(segments[j], p)
    {
      if Overlap(segments[i], segments[j]) {
        var p := if segments[i].Dst() > segments[j].Dst() then segments[i].Dst() else segments[j].Dst();
        assert Writes(segments[i], p) && Writes(segments[j], p);
      }
    }
  }

  /** What is wrong with the first bad segment of a load, if there is one. */
  ghost function Complaint(c: Config, segments: seq<Segment>, i: nat): Status
    requires i <= |segments|
    decreases |segments| - i
  {
    if i == |segments| then Ok
    else if Good(c, segments, i) then Complaint(c, segments, i + 1)
    else
      var g := segments[i];
      if g.file as int >= |c.files| || g.Len() == 0 then EINVAL
      else if g.Src() + g.Len() > INT64_MAX then EOVERFLOW
      else if g.End() > c.Capacity() then EBUSY
      else EINVAL
  }

  lemma {:induction false} ComplaintIsTheVerdict(c: Config, segments: seq<Segment>, i: nat)
    requires i <= |segments| && forall j :: 0 <= j < i ==> segments[j].Len() > 0
    ensures Complaint(c, segments, i) == Validate(c, segments, i)
    decreases |segments| - i
  {
    if i < |segments| {
      GoodExactly(c, segments, i);
      if Good(c, segments, i) {
        ComplaintIsTheVerdict(c, segments, i + 1);
      }
    }
  }

  /** A submission is refused for its first bad segment, for a load in work or a lease on the slot, or, from
      when wiring was switched on until it is switched off, for a buffer that cannot be wired; and for
      nothing else. While wiring is on no load is in work on a buffer that is not wired. */
  lemma SubmitAnswers(c: Config, s: State, steps: seq<Step>, i: nat, generation: uint64, segments: seq<Segment>, mlock: Status)
    requires Initial(c, s) && Legal(c, s, steps) && i < |s.slots|
    ensures var r, l := After(c, s, steps), Notes(c, s, steps, i, BLANK);
            && Sized(c, r) && i < |r.slots|
            && (Asked(c, s, steps, false) && HasJob(r, i) ==> l.wired)
            && Submit(c, r, i, generation, segments, mlock).1 ==
                 if generation == 0 || segments == [] || |segments| > 8 then EINVAL
                 else if Complaint(c, segments, 0) != Ok then Complaint(c, segments, 0)
                 else if HasJob(r, i) || l.last == LeasedOut then EBUSY
                 else if Asked(c, s, steps, false) && !l.wired then mlock
                 else Ok
  {
    InitialInv(c, s);
    NotesFromTheStart(c, s, steps, i);
    WiringIsAsAsked(c, s, steps);
    RunKeepsWiring(c, s, steps);
    ComplaintIsTheVerdict(c, segments, 0);
    ValidateIsWellFormed(c, segments);
    QueueNeverFull(c, After(c, s, steps));
    if WellFormed(c, segments) {
      ExtentFits(c, segments);
    }
  }

  /** By the notes on every slot no lease is out. */
  predicate NothingLeased(c: Config, s: State, steps: seq<Step>)
    requires Sized(c, s) && Legal(c, s, steps)
  {
    forall i :: 0 <= i < |s.slots| ==> Notes(c, s, steps, i, BLANK).last != LeasedOut
  }

  lemma NothingLeasedExactly(c: Config, s: State, steps: seq<Step>)
    requires Initial(c, s) && Legal(c, s, steps)
    ensures var r := After(c, s, steps);
            NothingLeased(c, s, steps) <==> forall i :: 0 <= i < |r.slots| ==> r.slots[i].state != Leased
  {
    SlotsStay(c, s, steps);
    var r := After(c, s, steps);
    forall i | 0 <= i < |s.slots| ensures Notes(c, s, steps, i, BLANK).last == LeasedOut <==> r.slots[i].state == Leased {
      NotesFromTheStart(c, s, steps, i);
    }
    if !NothingLeased(c, s, steps) {
      var i :| 0 <= i < |s.slots| && Notes(c, s, steps, i, BLANK).last == LeasedOut;
      assert r.slots[i].state == Leased;
    }
  }

  /** The pool can be closed exactly while no lease is out. After that the workers empty the queue and then
      leave; a close that is refused changes nothing. */
  lemma CloseAnswers(c: Config, s: State, steps: seq<Step>)
    requires Initial(c, s) && Legal(c, s, steps)
    ensures var r := After(c, s, steps);
            && (Close(r).1 == Ok <==> NothingLeased(c, s, steps))
            && (Close(r).1 != Ok ==> Close(r).0 == r)
            && (Close(r).1 == Ok ==>
                  && (forall step: Step :: Enabled(c, Close(r).0, step) ==> step.IsWork())
                  && (r.queue == [] ==>
                        forall w: nat :: w < |r.workers| && r.workers[w].Resting? ==> Enabled(c, Close(r).0, ExitStep(w))))
  {
    NothingLeasedExactly(c, s, steps);
  }

  /** Wiring can be switched exactly while no load is in work and no lease is out. */
  lemma SetWiringAnswers(c: Config, s: State, steps: seq<Step>, enabled: bool)
    requires Initial(c, s) && Legal(c, s, steps)
    ensures var r := After(c, s, steps);
            SetWiring(r, enabled).1 == Ok <==> NothingLeased(c, s, steps) && forall i: nat :: i < |s.slots| ==> !HasJob(r, i)
  {
    var r := After(c, s, steps);
    InitialInv(c, s);
    RunKeepsInv(c, s, steps);
    SlotsStay(c, s, steps);
    NothingLeasedExactly(c, s, steps);
    forall i: nat | i < |s.slots| ensures HasJob(r, i) <==> r.slots[i].state == Loading {
      HasJobExactly(c, r, i);
    }
    if r.queue != [] {
      assert JobFits(c, r, r.queue[0]);
      assert HasJob(r, r.queue[0].slot);
    } else if i :| 0 <= i < |r.slots| && r.slots[i].state == Loading {
      assert HasJob(r, i);
    }
  }
}
