/** The image model host as its callers see it: who is given a lease and who is turned away, which opens are
    shared and which are aborted, and what pin and unload do, told from the calls themselves. */
module ImageHostClient {
  import opened Wrappers
  import opened Counting
  import opened ImageHostModel
  import opened ImageHostTheorems
  import opened ImageHostSafety

  // ---- Who is given a lease -------------------------------------------------------------------

  /** The open of model m breaks: the backend or the stage rule throws. */
  predicate Breaks(h: Host, step: Step, m: nat) {
    step.SettleStep? && step.load < |h.loads| && h.loads[step.load].slot == m && step.outcome != Returned
  }

  /** What would turn caller c of acquire away from model m, or end its lease. */
  predicate Hinders(h: Host, step: Step, c: nat, m: nat) {
    Takes(step, m) || Breaks(h, step, m) || step == AbortStep(c) || step == ReleaseStep(c)
  }

  predicate Unhindered(h: Host, steps: seq<Step>, c: nat, m: nat)
    requires Indexed(h) && Legal(h, steps)
    decreases |steps|
  {
    steps == [] || (!Hinders(h, steps[0], c, m) && Unhindered(Do(h, steps[0]), steps[1..], c, m))
  }

  /** A caller of acquire that has a lease, or nothing in the way of one. */
  predicate OnItsWay(h: Host, c: nat, m: nat) {
    && !h.closed && c < |h.callers|
    && h.callers[c].slot == m && h.callers[c].leasing && !h.callers[c].aborted
    && match h.callers[c].phase
       case Waiting(l) => l < |h.loads| && h.loads[l].slot == m && !h.loads[l].state.Failed?
       case Draining(_) => true
       case Opened(_) => true
       case Holding(_) => true
       case _ => false
  }

  lemma EntersOnItsWay(h: Host, c: nat, m: nat)
    requires Inv(h) && Indexed(h) && c < |h.callers| && !h.closed
    requires h.callers[c].slot == m && h.callers[c].leasing && !h.callers[c].aborted
    ensures OnItsWay(Enter(h, c), c, m)
  {
    assert CallerInv(h, h.callers[c]) && SlotInv(h, m);
  }

  lemma ArrivesOnItsWay(h: Host, m: nat, lingers: bool)
    requires Inv(h) && Indexed(h) && m < |h.slots| && !h.closed
    ensures OnItsWay(Arrive(h, m, true, lingers), |h.callers|, m)
  {
    AdmitKeepsInv(h, m, true, lingers);
    EntersOnItsWay(Admit(h, m, true, lingers), |h.callers|, m);
  }

  lemma ResumesOnItsWay(h: Host, c: nat, m: nat)
    requires Inv(h) && Indexed(h) && CanResume(h, c) && OnItsWay(h, c, m)
    ensures OnItsWay(Resume(h, c), c, m)
  {
    if h.callers[c].phase.Draining? {
      EntersOnItsWay(h, c, m);
    }
  }

  lemma EnterSpares(h: Host, k: nat, c: nat)
    requires Indexed(h) && k < |h.callers| && c < |h.callers| && c != k
    ensures Enter(h, k).callers[c] == h.callers[c]
  {
  }

  lemma EnterSparesLoad(h: Host, k: nat, l: nat)
    requires Indexed(h) && k < |h.callers| && l < |h.loads|
    ensures l < |Enter(h, k).loads| && Enter(h, k).loads[l] == h.loads[l]
  {
  }

  lemma ResumeSparesLoad(h: Host, k: nat, l: nat)
    requires Indexed(h) && CanResume(h, k) && l < |h.loads|
    ensures l < |Resume(h, k).loads| && Resume(h, k).loads[l].slot == h.loads[l].slot && Resume(h, k).loads[l].state == h.loads[l].state
  {
    if h.callers[k].phase.Draining? {
      EnterSparesLoad(h, k, l);
    }
  }

  /** Does this step move caller c? */
  predicate Moves(step: Step, c: nat) {
    step == AbortStep(c) || step == ResumeStep(c) || step == ReturnStep(c) || step == ReleaseStep(c)
  }

  lemma StepSparesCaller(h: Host, step: Step, c: nat)
    requires Indexed(h) && Enabled(h, step) && c < |h.callers| && !Moves(step, c)
    ensures c < |Do(h, step).callers| && Do(h, step).callers[c] == h.callers[c]
  {
    match step
    case ArriveStep(i, leasing, lingers) => EnterSpares(Admit(h, i, leasing, lingers), |h.callers|, c);
    case AbortStep(k) => OthersStayPut(h, step, k, c);
    case ResumeStep(k) => OthersStayPut(h, step, k, c);
    case ReturnStep(k) => OthersStayPut(h, step, k, c);
    case ReleaseStep(k) => OthersStayPut(h, step, k, c);
    case _ =>
  }

  lemma StepSparesLoad(h: Host, step: Step, l: nat)
    requires Indexed(h) && Enabled(h, step) && l < |h.loads| && !(step.SettleStep? && step.load == l)
    ensures l < |Do(h, step).loads| && Do(h, step).loads[l].slot == h.loads[l].slot && Do(h, step).loads[l].state == h.loads[l].state
  {
    match step
    case ArriveStep(i, leasing, lingers) => EnterSparesLoad(Admit(h, i, leasing, lingers), |h.callers|, l);
    case ResumeStep(k) => ResumeSparesLoad(h, k, l);
    case _ =>
  }

  lemma StaysOpenForAll(h: Host, step: Step)
    requires Indexed(h) && Enabled(h, step) && !h.closed && !step.CloseStep?
    ensures !Do(h, step).closed
  {
  }

  /** Whatever others do, the caller and the fate of its open stay as they are. */
  lemma OthersLeaveIt(h: Host, step: Step, c: nat, m: nat)
    requires Inv(h) && Indexed(h) && Enabled(h, step) && OnItsWay(h, c, m) && !Hinders(h, step, c, m)
    requires step != ResumeStep(c) && step != ReturnStep(c)
    ensures OnItsWay(Do(h, step), c, m) && Do(h, step).callers[c] == h.callers[c]
  {
    StepSparesCaller(h, step, c);
    StaysOpenForAll(h, step);
    if h.callers[c].phase.Waiting? {
      var l := h.callers[c].phase.load;
      if step.SettleStep? && step.load == l {
        assert CallerInv(h, h.callers[c]);
      } else {
        StepSparesLoad(h, step, l);
      }
    }
  }

  lemma StepOnItsWay(h: Host, step: Step, c: nat, m: nat)
    requires Inv(h) && Indexed(h) && Enabled(h, step) && OnItsWay(h, c, m) && !Hinders(h, step, c, m)
    ensures OnItsWay(Do(h, step), c, m)
    ensures step == ReturnStep(c) || h.callers[c].phase.Holding? ==> Do(h, step).callers[c].phase.Holding?
  {
    if step == ResumeStep(c) {
      ResumesOnItsWay(h, c, m);
    } else if step != ReturnStep(c) {
      OthersLeaveIt(h, step, c, m);
    }
  }

  lemma {:induction false} RunOnItsWay(h: Host, steps: seq<Step>, c: nat, m: nat)
    requires Inv(h) && Indexed(h) && Legal(h, steps) && OnItsWay(h, c, m) && Unhindered(h, steps, c, m)
    ensures OnItsWay(After(h, steps), c, m)
    ensures ReturnStep(c) in steps || h.callers[c].phase.Holding? ==> After(h, steps).callers[c].phase.Holding?
    decreases |steps|
  {
    if steps != [] {
      StepOnItsWay(h, steps[0], c, m);
      StepKeepsInv(h, steps[0]);
      RunOnItsWay(Do(h, steps[0]), steps[1..], c, m);
    }
  }

  lemma {:induction false} UnhinderedTakesNothing(h: Host, steps: seq<Step>, c: nat, m: nat)
    requires Indexed(h) && Legal(h, steps) && Unhindered(h, steps, c, m)
    ensures forall k :: 0 <= k < |steps| ==> !Takes(steps[k], m)
    decreases |steps|
  {
    if steps != [] {
      UnhinderedTakesNothing(Do(h, steps[0]), steps[1..], c, m);
      assert forall k :: 0 < k < |steps| ==> steps[k] == steps[1..][k - 1];
    }
  }

  /** Who asks for a model gets it. From every reachable state of an open host: over every run after a call
      of acquire in which its own signal does not fire, no open of the model breaks, nobody forces the
      model's unload or closes the host, and the lease is not released, the caller is never turned away;
      and once acquire has returned to it, it holds a lease on the resident, undisposed pipeline. */
  lemma AcquireSucceeds(h: Host, before: seq<Step>, m: nat, lingers: bool, steps: seq<Step>)
    requires Initial(h) && Indexed(h) && Legal(h, before) && Indexed(After(h, before))
    requires m < |After(h, before).slots| && !After(h, before).closed
    requires var s := Do(After(h, before), ArriveStep(m, true, lingers));
             Indexed(s) && Legal(s, steps) && Unhindered(s, steps, |After(h, before).callers|, m)
    ensures var c, r := |After(h, before).callers|, After(Do(After(h, before), ArriveStep(m, true, lingers)), steps);
            && c < |r.callers| && r.callers[c].phase != Failing && r.callers[c].phase != Done
            && (ReturnStep(c) in steps ==>
                  && r.callers[c].phase.Holding? && m < |r.slots| && r.slots[m].resident == Some(r.callers[c].phase.pipeline)
                  && r.callers[c].phase.pipeline < |r.pipelines| && r.pipelines[r.callers[c].phase.pipeline].disposals == 0)
  {
    InitialInv(h);
    RunKeepsInv(h, before);
    var s0, c := After(h, before), |After(h, before).callers|;
    var s := Do(s0, ArriveStep(m, true, lingers));
    ArrivesOnItsWay(s0, m, lingers);
    StepKeepsInv(s0, ArriveStep(m, true, lingers));
    RunOnItsWay(s, steps, c, m);
    UnhinderedTakesNothing(s, steps, c, m);
    ArriveSparesLeases(s0, m, true, lingers, m, c);
    RunSparesLeases(s, steps, m, c);
    var r := After(s, steps);
    if r.callers[c].phase.Holding? {
      assert CallerInv(r, r.callers[c]) && LeaseIsLive(r, r.callers[c]) && SlotInv(r, m);
    }
  }

  // ---- Who is turned away ---------------------------------------------------------------------

  /** A caller that has no lease yet and never will: its signal has fired, or it preloads. */
  predicate TurnedAway(h: Host, c: nat) {
    c < |h.callers| && (h.callers[c].aborted || !h.callers[c].leasing) && !h.callers[c].phase.Holding?
  }

  lemma ResumesTurnedAway(h: Host, c: nat)
    requires Indexed(h) && CanResume(h, c) && TurnedAway(h, c)
    ensures TurnedAway(Resume(h, c), c)
  {
  }

  lemma TurnedAwayStays(h: Host, step: Step, c: nat)
    requires Indexed(h) && Enabled(h, step) && TurnedAway(h, c)
    ensures TurnedAway(Do(h, step), c)
    ensures step == ReturnStep(c) || h.callers[c].phase.Done? ==> Do(h, step).callers[c].phase.Done?
  {
    if !Moves(step, c) {
      StepSparesCaller(h, step, c);
    } else if step.ResumeStep? {
      ResumesTurnedAway(h, c);
    }
  }

  /** A caller whose signal fires before acquire has returned to it never holds a lease, and neither does a
      caller of preload; once the call has returned its lease is not counted any more, whatever happens. */
  lemma {:induction false} AbortedGetsNothing(h: Host, steps: seq<Step>, c: nat)
    requires Inv(h) && Indexed(h) && Legal(h, steps) && TurnedAway(h, c)
    ensures var r := After(h, steps);
            && c < |r.callers| && !r.callers[c].phase.Holding?
            && (ReturnStep(c) in steps || h.callers[c].phase.Done? ==> r.callers[c].phase.Done?)
            && (r.callers[c].phase.Done? ==>
                  forall i :: 0 <= i < |r.slots| ==>
                    r.slots[i].leases == Count(r.callers, LeaseTest(i)) && !LeaseTest(i)(r.callers[c]))
    decreases |steps|
  {
    if steps != [] {
      TurnedAwayStays(h, steps[0], c);
      StepKeepsInv(h, steps[0]);
      AbortedGetsNothing(Do(h, steps[0]), steps[1..], c);
    } else {
      forall i | 0 <= i < |h.slots| ensures h.slots[i].leases == Count(h.callers, LeaseTest(i)) {
        assert SlotInv(h, i);
      }
    }
  }

  /** A signal is heeded at once: the wait of its caller can end, and then the caller fails, starts no
      open and publishes none. */
  lemma AbortIsHeeded(h: Host, c: nat)
    requires Inv(h) && Indexed(h) && c < |h.callers| && h.callers[c].aborted
    requires h.callers[c].phase.Waiting? || h.callers[c].phase.Draining?
    ensures Enabled(h, ResumeStep(c))
    ensures Resume(h, c).callers[c].phase == Failing && |Resume(h, c).loads| == |h.loads|
  {
  }

  // ---- Shared opens ---------------------------------------------------------------------------

  /** In every reachable state at most one open of a model is in flight, and none while it is resident. */
  lemma OneOpenAtATime(h: Host, steps: seq<Step>, j: nat, k: nat)
    requires Initial(h) && Indexed(h) && Legal(h, steps)
    requires var r := After(h, steps);
             j < |r.loads| && k < |r.loads| && r.loads[j].state == r.loads[k].state == Pending && r.loads[j].slot == r.loads[k].slot
    ensures j == k
    ensures var r := After(h, steps); r.loads[j].slot < |r.slots| && r.slots[r.loads[j].slot].resident.None?
  {
    InitialInv(h);
    RunKeepsInv(h, steps);
    var r := After(h, steps);
    assert LoadInv(r, r.loads[j], j) && LoadInv(r, r.loads[k], k) && SlotInv(r, r.loads[j].slot);
  }

  lemma {:induction false} OnlyOne<T>(s: seq<T>, p: T -> bool, c: nat)
    requires c < |s| && p(s[c]) && forall k :: 0 <= k < |s| && k != c ==> !p(s[k])
    ensures Count(s, p) == 1
  {
    if c == 0 {
      CountZero(s[1..], p);
    } else {
      OnlyOne(s[1..], p, c - 1);
    }
  }

  /** The open that a caller waits for is aborted when that caller gives up and nobody else waits for the
      model. */
  lemma LastWaiterAbortsTheOpen(h: Host, c: nat)
    requires Inv(h) && Indexed(h) && c < |h.callers| && h.callers[c].aborted && h.callers[c].phase.Waiting?
    requires h.loads[h.callers[c].phase.load].state == Pending
    requires forall k :: 0 <= k < |h.callers| && k != c ==> !OnWait(h.callers[k], h.callers[c].slot)
    ensures Resume(h, c).loads[h.callers[c].phase.load].aborted
  {
    var i, l := h.callers[c].slot, h.callers[c].phase.load;
    assert CallerInv(h, h.callers[c]) && LoadInv(h, h.loads[l], l) && SlotInv(h, i);
    OnlyOne(h.callers, WaitTest(i), c);
  }

  /** A call of acquire stops the idle timer of its model, before and whatever it waits for. */
  lemma AcquireStopsTheTimer(h: Host, m: nat, lingers: bool)
    requires Inv(h) && Indexed(h) && m < |h.slots|
    ensures !Do(h, ArriveStep(m, true, lingers)).slots[m].timer
  {
    AdmitKeepsInv(h, m, true, lingers);
  }

  /** The end of a lease spares those who wait for an open of the model: it neither unloads it nor arms its
      timer, whatever its keep-alive time. */
  lemma LeaseEndSparesWaiters(h: Host, c: nat, k: nat)
    requires Inv(h) && Indexed(h) && c < |h.callers| && h.callers[c].phase.Holding?
    requires k < |h.callers| && OnWait(h.callers[k], h.callers[c].slot)
    ensures var i := h.callers[c].slot;
            && EndLease(h, c).slots[i].resident == h.slots[i].resident && !EndLease(h, c).slots[i].timer
            && EndLease(h, c).pipelines == h.pipelines
  {
    var i := h.callers[c].slot;
    assert SlotInv(h, i);
    CountBound(h.callers, WaitTest(i));
    CountZero(h.callers, WaitTest(i));
    assert WaitTest(i)(h.callers[k]);
  }

  /** A close with no open in flight settles at once, with every pipeline disposed; with one in flight it
      aborts it and leaves the release for later; a second close changes nothing. */
  lemma CloseAnswers(h: Host)
    requires Inv(h) && Indexed(h)
    ensures Close(h).closed && Close(Close(h)) == Close(h)
    ensures !h.closed ==> (Close(h).settled <==> forall l :: 0 <= l < |h.loads| ==> h.loads[l].state != Pending)
    ensures forall l :: 0 <= l < |h.loads| && h.loads[l].state == Pending && !h.closed ==> Close(h).loads[l].aborted
    ensures Close(h).settled ==> forall p :: 0 <= p < |Close(h).pipelines| ==> Close(h).pipelines[p].disposals == 1
  {
    CloseKeepsInv(h);
    InvIsIndexed(Close(h));
    var r := Close(h);
    forall p | 0 <= p < |r.pipelines| && r.settled ensures r.pipelines[p].disposals == 1 {
      assert PipelineInv(r, r.pipelines[p], p) && SlotInv(r, r.pipelines[p].home);
    }
  }

  // ---- Pins and unloads -----------------------------------------------------------------------

  /** Is model i pinned, by the calls of a run? */
  function Wanted(steps: seq<Step>, i: nat, pinned: bool): bool
    decreases |steps|
  {
    if steps == [] then pinned
    else Wanted(steps[1..], i, if steps[0] == PinStep(i) then true else if steps[0] == UnpinStep(i) then false else pinned)
  }

  /** A model is pinned exactly if the last call about it was a pin, or if it was configured so. */
  lemma {:induction false} PinnedAsWanted(h: Host, steps: seq<Step>, i: nat)
    requires Indexed(h) && Legal(h, steps)
    ensures i in After(h, steps).pinned <==> Wanted(steps, i, i in h.pinned)
    decreases |steps|
  {
    if steps != [] {
      StepPins(h, steps[0], i);
      PinnedAsWanted(Do(h, steps[0]), steps[1..], i);
    }
  }

  /** An unload is refused exactly while some caller of acquire has, or waits for, a lease on an open model
      and it is not forced; a refused one leaves the pipeline alone, any other leaves none resident and
      disposes the one there was. */
  lemma UnloadAnswers(h: Host, i: nat, force: bool)
    requires Inv(h) && Indexed(h) && i < |h.slots|
    ensures var (h', refused) := Unload(h, i, force);
            && (refused <==> !force && h.slots[i].resident.Some? && exists c :: 0 <= c < |h.callers| && OnLease(h.callers[c], i))
            && h'.slots[i].resident == (if refused then h.slots[i].resident else None)
            && !h'.slots[i].timer
            && (h.slots[i].resident.Some? ==> h'.pipelines[h.slots[i].resident.value].disposals == if refused then 0 else 1)
  {
    assert SlotInv(h, i);
    CountZero(h.callers, LeaseTest(i));
    assert forall c :: 0 <= c < |h.callers| ==> LeaseTest(i)(h.callers[c]) == OnLease(h.callers[c], i);
  }
}
