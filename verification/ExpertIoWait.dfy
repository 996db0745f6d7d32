/** What `wait` on the expert I/O pool does not promise, and exactly when a lease can follow it. */
module ExpertIoWait {
  import opened Words
  import opened ExpertIoModel
  import opened ExpertIoSafety
  import opened ExpertIoTheorems

  lemma LegalCons(c: Config, s: State, step: Step, rest: seq<Step>)
    requires Sized(c, s) && Enabled(c, s, step)
    requires Sized(c, Do(c, s, step).0) && Legal(c, Do(c, s, step).0, rest)
    ensures Legal(c, s, [step] + rest) && After(c, s, [step] + rest) == After(c, Do(c, s, step).0, rest)
  {
    assert ([step] + rest)[1..] == rest;
  }

  // A pool with one one-byte file and one slot, whose load is discarded after it was published.
  const C := Config([[7]], 1)
  const G := Segment(0, 0, 0, 1)
  const J := Job(0, 1, [G])

  function At(slot: Slot, byte: byte, queue: seq<Job>, worker: Worker): State {
    State([slot], [[byte]], [[G]], queue, [worker], false, false)
  }

  const S0 := At(Slot(0, 0, Idle, Ok, false, false, false), 0, [], Resting)
  const S1 := At(Slot(1, 0, Loading, Ok, false, false, false), 0, [J], Resting)
  const S2 := At(Slot(1, 0, Loading, Ok, false, false, false), 0, [], Busy(Task(J, 0, 0, 0, Ok)))
  const S3 := At(Slot(1, 0, Loading, Ok, false, false, false), 7, [], Busy(Task(J, 1, 0, 1, Ok)))
  const S4 := At(Slot(1, 1, Ready, Ok, false, false, false), 7, [], Resting)
  const S5 := At(Slot(1, 0, Idle, Ok, false, false, false), 0, [], Resting)
  const SUBMIT := SubmitStep(0, 1, [G], Ok)
  const DISCARD := DiscardStep(0, 1, Ok, Ok, [0])

  lemma Loads()
    ensures Do(C, S0, SUBMIT).0 == S1 && Do(C, S1, TakeStep(0)).0 == S2
  {
    assert WellFormed(C, [G]);
    ValidateIsWellFormed(C, [G]);
    ExtentFits(C, [G]);
  }

  lemma Publishes()
    ensures Enabled(C, S2, ReadStep(0, 1)) && Do(C, S2, ReadStep(0, 1)).0 == S3
    ensures Enabled(C, S3, FinishStep(0)) && Do(C, S3, FinishStep(0)).0 == S4
    ensures Do(C, S4, DISCARD).0 == S5
  {
    assert Copied(C, [0], Task(J, 0, 0, 0, Ok), 1) == [7];
  }

  lemma PublishedThenDiscarded(tail: seq<Step>)
    requires tail == [ReadStep(0, 1)] + ([FinishStep(0)] + ([DISCARD] + []))
    ensures Legal(C, S2, tail) && After(C, S2, tail) == S5
  {
    Publishes();
    LegalCons(C, S4, DISCARD, []);
    LegalCons(C, S3, FinishStep(0), [DISCARD] + []);
    LegalCons(C, S2, ReadStep(0, 1), [FinishStep(0)] + ([DISCARD] + []));
  }

  lemma LoadedThenDiscarded(tail: seq<Step>)
    requires Legal(C, S2, tail) && After(C, S2, tail) == S5
    ensures Legal(C, S0, [SUBMIT] + ([TakeStep(0)] + tail)) && After(C, S0, [SUBMIT] + ([TakeStep(0)] + tail)) == S5
  {
    Loads();
    LegalCons(C, S1, TakeStep(0), tail);
    LegalCons(C, S0, SUBMIT, [TakeStep(0)] + tail);
  }

  /** `wait` returning zero does not mean that a lease will be granted: a discard leaves the
      generation and a zero error behind. */
  lemma WaitZeroMayNotBeLeasable()
    ensures exists c: Config, s: State, steps: seq<Step> ::
              && Initial(c, s) && Legal(c, s, steps)
              && Poll(After(c, s, steps), 0, 1) == Ok && Lease(After(c, s, steps), 0, 1, false).1 == EBUSY
  {
    var tail := [ReadStep(0, 1)] + ([FinishStep(0)] + ([DISCARD] + []));
    PublishedThenDiscarded(tail);
    LoadedThenDiscarded(tail);
    assert Initial(C, S0);
  }

  // ---- What a client has to remember ----------------------------------------------------------

  /** The last successful call that concerned a slot, and was not a question about it. */
  datatype Call = Nothing | Submitted | Cancelled | LeasedOut | Released | Discarded

  /** The slot a client's call is about. */
  predicate Concerns(step: Step, i: nat) {
    match step
    case SubmitStep(slot, _, _, _) => slot == i
    case CancelStep(slot, _) => slot == i
    case LeaseStep(slot, _, _) => slot == i
    case ReleaseStep(slot, _, _) => slot == i
    case DiscardStep(slot, _, _, _, _) => slot == i
    case _ => false
  }

  function Remember(c: Config, s: State, step: Step, i: nat, last: Call): Call
    requires Sized(c, s) && Enabled(c, s, step)
  {
    if !Concerns(step, i) || Do(c, s, step).1 != Ok then last
    else
      match step
      case SubmitStep(_, _, _, _) => Submitted
      case CancelStep(_, _) => Cancelled
      case LeaseStep(_, _, _) => LeasedOut
      case ReleaseStep(_, _, _) => Released
      case _ => Discarded
  }

  function LastCall(c: Config, s: State, steps: seq<Step>, i: nat, last: Call): Call
    requires Sized(c, s) && Legal(c, s, steps)
    decreases |steps|
  {
    if steps == [] then last
    else LastCall(c, Do(c, s, steps[0]).0, steps[1..], i, Remember(c, s, steps[0], i, last))
  }

  /** What the last call tells of the slot, whose state the pool does not show. */
  predicate Tells(slot: Slot, last: Call) {
    match last
    case Nothing => slot.state == Idle
    case Submitted => slot.state == Loading || slot.state == Ready
    case Cancelled => (slot.state == Loading && slot.cancelled) || (slot.state == Ready && slot.error != Ok)
    case LeasedOut => slot.state == Leased
    case Released => slot.state == Ready
    case Discarded => slot.state == Idle
  }

  /** A step that is no successful call on a slot leaves it alone, but for its wiring, or publishes its load. */
  lemma OtherSteps(c: Config, s: State, step: Step, i: nat)
    requires Inv(c, s) && Enabled(c, s, step) && i < |s.slots| && !(Concerns(step, i) && Do(c, s, step).1 == Ok)
    ensures i < |Do(c, s, step).0.slots|
    ensures var was, now := s.slots[i], Do(c, s, step).0.slots[i];
            || now.(wired := was.wired) == was
            || (was.state == Loading && now.state == Ready && (was.cancelled ==> now.error != Ok))
  {
    match step
    case FinishStep(w) => assert JobFits(c, s, s.workers[w].task.job);
    case _ =>
  }

  lemma SuccessfulCall(c: Config, s: State, step: Step, i: nat)
    requires Inv(c, s) && Enabled(c, s, step) && i < |s.slots| && Concerns(step, i) && Do(c, s, step).1 == Ok
    ensures i < |Do(c, s, step).0.slots| && Tells(Do(c, s, step).0.slots[i], Remember(c, s, step, i, Nothing))
  {
  }

  lemma StepTells(c: Config, s: State, step: Step, i: nat, last: Call)
    requires Inv(c, s) && Enabled(c, s, step) && i < |s.slots| && Tells(s.slots[i], last)
    ensures i < |Do(c, s, step).0.slots| && Tells(Do(c, s, step).0.slots[i], Remember(c, s, step, i, last))
  {
    if Concerns(step, i) && Do(c, s, step).1 == Ok {
      SuccessfulCall(c, s, step, i);
    } else {
      OtherSteps(c, s, step, i);
    }
  }

  lemma {:induction false} RunTells(c: Config, s: State, steps: seq<Step>, i: nat, last: Call)
    requires Inv(c, s) && Legal(c, s, steps) && i < |s.slots| && Tells(s.slots[i], last)
    ensures i < |After(c, s, steps).slots| && Tells(After(c, s, steps).slots[i], LastCall(c, s, steps, i, last))
    decreases |steps|
  {
    if steps != [] {
      StepTells(c, s, steps[0], i, last);
      StepKeepsInv(c, s, steps[0]);
      RunTells(c, Do(c, s, steps[0]).0, steps[1..], i, Remember(c, s, steps[0], i, last));
    }
  }

  /** Over every run: a lease is granted exactly if `wait` returns zero (or `poll` does) and the last call
      that succeeded on the slot was its submission or a release. So it is refused after a zero for as long
      as the last call was a discard or a lease, or if there was none; after a cancellation there is no
      zero. A client can check that: it made the calls. */
  lemma WaitZeroIsLeasableExactly(c: Config, s: State, steps: seq<Step>, i: nat, generation: uint64, gpu: bool)
    requires Initial(c, s) && Legal(c, s, steps) && i < |s.slots|
    ensures var r, last := After(c, s, steps), LastCall(c, s, steps, i, Nothing);
            && (Lease(r, i, generation, gpu).1 == Ok <==>
                  Poll(r, i, generation) == Ok && (last == Submitted || last == Released))
            && (last == Cancelled ==> Poll(r, i, generation) != Ok)
  {
    InitialInv(c, s);
    RunTells(c, s, steps, i, Nothing);
  }

  predicate LeftAlone(c: Config, s: State, steps: seq<Step>, i: nat)
    requires Sized(c, s) && Legal(c, s, steps)
    decreases |steps|
  {
    steps == [] ||
    (!(Concerns(steps[0], i) && Do(c, s, steps[0]).1 == Ok) && LeftAlone(c, Do(c, s, steps[0]).0, steps[1..], i))
  }

  /** A slot that can be leased stays so, whatever else happens in the pool, until a call on it succeeds. */
  lemma {:induction false} LeasableUntilTouched(c: Config, s: State, steps: seq<Step>, i: nat, generation: uint64, gpu: bool)
    requires Inv(c, s) && Legal(c, s, steps) && LeftAlone(c, s, steps, i) && Lease(s, i, generation, gpu).1 == Ok
    ensures Poll(After(c, s, steps), i, generation) == Ok && Lease(After(c, s, steps), i, generation, gpu).1 == Ok
    decreases |steps|
  {
    if steps != [] {
      LeasableAfterStep(c, s, steps[0], i, generation, gpu);
      StepKeepsInv(c, s, steps[0]);
      LeasableUntilTouched(c, Do(c, s, steps[0]).0, steps[1..], i, generation, gpu);
    }
  }

  lemma LeasableAfterStep(c: Config, s: State, step: Step, i: nat, generation: uint64, gpu: bool)
    requires Inv(c, s) && Enabled(c, s, step) && Lease(s, i, generation, gpu).1 == Ok
    requires !(Concerns(step, i) && Do(c, s, step).1 == Ok)
    ensures Lease(Do(c, s, step).0, i, generation, gpu).1 == Ok
  {
    OtherSteps(c, s, step, i);
  }

  // ---- Loads that succeed ---------------------------------------------------------------------

  /** A read of a job for slot i fails, or finds the end of the file. */
  predicate Spoils(s: State, step: Step, i: nat) {
    && (step.FailStep? || (step.ReadStep? && step.n == 0))
    && step.worker < |s.workers| && s.workers[step.worker].Busy? && s.workers[step.worker].task.job.slot == i
  }

  predicate NothingSpoils(c: Config, s: State, steps: seq<Step>, i: nat)
    requires Sized(c, s) && Legal(c, s, steps)
    decreases |steps|
  {
    steps == [] || (!Spoils(s, steps[0], i) && NothingSpoils(c, Do(c, s, steps[0]).0, steps[1..], i))
  }

  /** A load that nobody has cancelled and no read of which has failed. */
  predicate OnCourse(s: State, i: nat, generation: uint64, segments: seq<Segment>) {
    && i < |s.slots| == |s.requested| && s.slots[i].generation == generation && s.requested[i] == segments
    && (s.slots[i].state == Ready || (s.slots[i].state == Loading && !s.slots[i].cancelled))
    && (s.slots[i].state == Ready ==> s.slots[i].error == Ok)
    && forall w :: 0 <= w < |s.workers| ==> !FailedIn(s, w, i)
  }

  lemma SubmissionIsOnCourse(c: Config, s: State, i: nat, generation: uint64, segments: seq<Segment>, mlock: Status)
    requires Inv(c, s) && Submit(c, s, i, generation, segments, mlock).1 == Ok
    ensures OnCourse(Submit(c, s, i, generation, segments, mlock).0, i, generation, segments)
  {
    forall w | 0 <= w < |s.workers| && s.workers[w].Busy? ensures s.workers[w].task.job.slot != i {
      assert JobFits(c, s, s.workers[w].task.job);
    }
  }

  lemma RequestStays(c: Config, s: State, step: Step, i: nat)
    requires Sized(c, s) && Enabled(c, s, step) && i < |s.slots| && !(Concerns(step, i) && Do(c, s, step).1 == Ok)
    ensures |Do(c, s, step).0.slots| == |s.slots| == |Do(c, s, step).0.requested|
    ensures Do(c, s, step).0.requested[i] == s.requested[i]
  {
  }

  lemma NothingFailed(c: Config, s: State, step: Step, i: nat)
    requires Sized(c, s) && Enabled(c, s, step) && !Spoils(s, step, i)
    requires forall w :: 0 <= w < |s.workers| ==> !FailedIn(s, w, i)
    ensures forall w :: 0 <= w < |Do(c, s, step).0.workers| ==> !FailedIn(Do(c, s, step).0, w, i)
  {
    forall w | 0 <= w < |Do(c, s, step).0.workers| ensures !FailedIn(Do(c, s, step).0, w, i) {
      assert !FailedIn(s, w, i);
    }
  }

  lemma FinishOnCourse(c: Config, s: State, w: nat, i: nat, generation: uint64, segments: seq<Segment>)
    requires Inv(c, s) && CanFinish(s, w) && OnCourse(s, i, generation, segments)
    ensures Finish(s, w).slots[i].state == Ready ==> Finish(s, w).slots[i].error == Ok
  {
    assert JobFits(c, s, s.workers[w].task.job);
    assert !FailedIn(s, w, i);
  }

  lemma StepStaysOnCourse(c: Config, s: State, step: Step, i: nat, generation: uint64, segments: seq<Segment>)
    requires Inv(c, s) && Enabled(c, s, step) && OnCourse(s, i, generation, segments)
    requires !(Concerns(step, i) && Do(c, s, step).1 == Ok) && !Spoils(s, step, i)
    ensures OnCourse(Do(c, s, step).0, i, generation, segments)
  {
    OtherSteps(c, s, step, i);
    RequestStays(c, s, step, i);
    NothingFailed(c, s, step, i);
    GenerationStays(c, s, step, i);
    if step.FinishStep? {
      FinishOnCourse(c, s, step.worker, i, generation, segments);
    } else {
      OnlyFinishPublishes(c, s, step, i);
    }
  }

  lemma GenerationStays(c: Config, s: State, step: Step, i: nat)
    requires Sized(c, s) && Enabled(c, s, step) && i < |s.slots| && !(Concerns(step, i) && Do(c, s, step).1 == Ok)
    ensures i < |Do(c, s, step).0.slots| && Do(c, s, step).0.slots[i].generation == s.slots[i].generation
  {
  }

  lemma OnlyFinishPublishes(c: Config, s: State, step: Step, i: nat)
    requires Sized(c, s) && Enabled(c, s, step) && i < |s.slots| && !(Concerns(step, i) && Do(c, s, step).1 == Ok)
    requires !step.FinishStep?
    ensures i < |Do(c, s, step).0.slots|
    ensures Do(c, s, step).0.slots[i].(wired := s.slots[i].wired) == s.slots[i]
  {
  }

  lemma {:induction false} RunStaysOnCourse(c: Config, s: State, steps: seq<Step>, i: nat, generation: uint64, segments: seq<Segment>)
    requires Inv(c, s) && Legal(c, s, steps) && OnCourse(s, i, generation, segments)
    requires LeftAlone(c, s, steps, i) && NothingSpoils(c, s, steps, i)
    ensures OnCourse(After(c, s, steps), i, generation, segments)
    decreases |steps|
  {
    if steps != [] {
      StepStaysOnCourse(c, s, steps[0], i, generation, segments);
      StepKeepsInv(c, s, steps[0]);
      RunStaysOnCourse(c, Do(c, s, steps[0]).0, steps[1..], i, generation, segments);
    }
  }

  lemma {:induction false} NoCallNoSubmission(c: Config, s: State, steps: seq<Step>, i: nat)
    requires Inv(c, s) && Legal(c, s, steps) && LeftAlone(c, s, steps, i)
    ensures NeverResubmits(c, s, steps, i)
    decreases |steps|
  {
    if steps != [] {
      StepKeepsInv(c, s, steps[0]);
      NoCallNoSubmission(c, Do(c, s, steps[0]).0, steps[1..], i);
    }
  }

  lemma {:induction false} SpoiltIsDoomed(c: Config, s: State, steps: seq<Step>, i: nat)
    requires Inv(c, s) && Legal(c, s, steps) && i < |s.slots|
    requires LeftAlone(c, s, steps, i) && !NothingSpoils(c, s, steps, i)
    ensures forall g: uint64, gpu :: Lease(After(c, s, steps), i, g, gpu).1 != Ok
    decreases |steps|
  {
    var s' := Do(c, s, steps[0]).0;
    StepKeepsInv(c, s, steps[0]);
    RequestStays(c, s, steps[0], i);
    if Spoils(s, steps[0], i) {
      WhatDooms(c, s, steps[0], i);
      NoCallNoSubmission(c, s', steps[1..], i);
      NoLeaseBeforeResubmission(c, s', steps[1..], i);
    } else {
      SpoiltIsDoomed(c, s', steps[1..], i);
    }
  }

  /** No worker has anything left to do. */
  ghost predicate AtRest(c: Config, s: State) {
    !exists step: Step :: step.IsWork() && Enabled(c, s, step)
  }

  lemma AtRestNothingLoads(c: Config, s: State, i: nat)
    requires Inv(c, s) && AtRest(c, s) && i < |s.slots|
    ensures s.slots[i].state != Loading
  {
    assert SlotInv(c, s, i);
    if s.queue != [] || exists w :: 0 <= w < |s.workers| && s.workers[w].Busy? {
      SomeWorkerCanStep(c, s);
    }
  }

  /** What an accepted submission leads to, over every run in which no other call on the slot succeeds, once
      the workers have come to rest: the slot can be leased if and only if no read of its job failed or
      found the end of a file; and then its buffer holds all of what was submitted. */
  lemma SubmissionIsLeasableExactly(c: Config, s: State, i: nat, generation: uint64, segments: seq<Segment>, mlock: Status,
                                    steps: seq<Step>, gpu: bool)
    requires Inv(c, s) && !s.stopping && Submit(c, s, i, generation, segments, mlock).1 == Ok
    requires var s1 := Submit(c, s, i, generation, segments, mlock).0;
             Sized(c, s1) && Legal(c, s1, steps) && LeftAlone(c, s1, steps, i) && AtRest(c, After(c, s1, steps))
    ensures var s1 := Submit(c, s, i, generation, segments, mlock).0;
            var r := After(c, s1, steps);
            && (Lease(r, i, generation, gpu).1 == Ok <==> NothingSpoils(c, s1, steps, i))
            && (Lease(r, i, generation, gpu).1 == Ok ==>
                  && Sized(c, r) && i < |r.slots| && WellFormed(c, segments)
                  && Filled(c, r.buffers[i], segments) && r.slots[i].length == Extent(segments))
  {
    var s1 := Submit(c, s, i, generation, segments, mlock).0;
    SubmitKeepsInv(c, s, i, generation, segments, mlock);
    RunKeepsInv(c, s1, steps);
    var r := After(c, s1, steps);
    SubmissionIsOnCourse(c, s, i, generation, segments, mlock);
    if NothingSpoils(c, s1, steps, i) {
      RunStaysOnCourse(c, s1, steps, i, generation, segments);
      AtRestNothingLoads(c, r, i);
      assert SlotInv(c, r, i);
    } else {
      SpoiltIsDoomed(c, s1, steps, i);
    }
  }
}
