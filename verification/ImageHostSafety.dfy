/** What the invariant of the image model host means for pipelines, leases, cancellation and close. */
module ImageHostSafety {
  import opened Wrappers
  import opened ImageHostModel
  import opened ImageHostTheorems
  import opened Counting

  // ---- Ownership ------------------------------------------------------------------------------

  predicate Resident(h: Host, p: nat) {
    exists i :: 0 <= i < |h.slots| && h.slots[i].resident == Some(p)
  }

  /** After any run, every pipeline the backend returned is resident in one slot and was never
      disposed, or is resident nowhere and was disposed exactly once. */
  lemma PipelinesAreOwned(h: Host, steps: seq<Step>, p: nat)
    requires Initial(h) && Indexed(h) && Legal(h, steps) && p < |After(h, steps).pipelines|
    ensures var r := After(h, steps);
            && r.pipelines[p].disposals == (if Resident(r, p) then 0 else 1)
            && forall i, j :: 0 <= i < j < |r.slots| && r.slots[i].resident == Some(p) ==> r.slots[j].resident != Some(p)
  {
    InitialInv(h);
    RunKeepsInv(h, steps);
    var r := After(h, steps);
    assert PipelineInv(r, r.pipelines[p], p);
    forall i | 0 <= i < |r.slots| && r.slots[i].resident == Some(p) ensures i == r.pipelines[p].home {
      assert SlotInv(r, i);
    }
  }

  /** The lease counter counts the callers of acquire that have reserved a lease and not given it back,
      the waiter counter those in a shared open; neither is ever negative. */
  lemma CountersCount(h: Host, steps: seq<Step>, i: nat)
    requires Initial(h) && Indexed(h) && Legal(h, steps) && i < |After(h, steps).slots|
    ensures var r := After(h, steps);
            && r.slots[i].leases == Count(r.callers, LeaseTest(i)) >= 0
            && r.slots[i].waiters == Count(r.callers, WaitTest(i)) >= 0
            && (!r.settled ==> r.slots[i].loads == r.slots[i].unloads + if r.slots[i].resident.Some? then 1 else 0)
  {
    InitialInv(h);
    RunKeepsInv(h, steps);
    assert SlotInv(After(h, steps), i);
  }

  // ---- Close ----------------------------------------------------------------------------------

  /** When close settles nothing is resident, no open is in flight, no timer is armed, and every
      pipeline there ever was has been disposed exactly once. */
  lemma ClosedHostIsEmpty(h: Host, steps: seq<Step>)
    requires Initial(h) && Indexed(h) && Legal(h, steps) && After(h, steps).settled
    ensures var r := After(h, steps);
            && (forall i :: 0 <= i < |r.slots| ==> r.slots[i].resident.None? && r.slots[i].loading.None? && !r.slots[i].timer)
            && !Loading(r)
            && (forall p :: 0 <= p < |r.pipelines| ==> r.pipelines[p].disposals == 1)
  {
    InitialInv(h);
    RunKeepsInv(h, steps);
    var r := After(h, steps);
    forall i | 0 <= i < |r.slots|
      ensures r.slots[i].resident.None? && r.slots[i].loading.None? && !r.slots[i].timer
    {
      assert SlotInv(r, i);
    }
    forall l | 0 <= l < |r.loads| ensures r.loads[l].state != Pending {
      assert LoadInv(r, r.loads[l], l);
    }
    forall p | 0 <= p < |r.pipelines| ensures r.pipelines[p].disposals == 1 {
      assert PipelineInv(r, r.pipelines[p], p);
    }
  }

  predicate OpensNothing(h: Host, h': Host) {
    && h'.closed && |h'.loads| == |h.loads| && |h'.slots| == |h.slots|
    && forall i :: 0 <= i < |h.slots| && h'.slots[i].resident.Some? ==> h'.slots[i].resident == h.slots[i].resident
  }

  lemma ResumeOpensNothing(h: Host, c: nat)
    requires Indexed(h) && CanResume(h, c) && h.closed
    ensures OpensNothing(h, Resume(h, c))
  {
  }

  lemma EndLeaseOpensNothing(h: Host, c: nat)
    requires Indexed(h) && c < |h.callers| && h.closed
    ensures OpensNothing(h, EndLease(h, c))
  {
  }

  lemma ArriveOpensNothing(h: Host, i: nat, leasing: bool, lingers: bool)
    requires Indexed(h) && i < |h.slots| && h.closed
    ensures OpensNothing(h, Arrive(h, i, leasing, lingers))
  {
  }

  lemma UnloadOpensNothing(h: Host, i: nat)
    requires Indexed(h) && i < |h.slots| && h.closed
    ensures OpensNothing(h, CancelTimer(h, i)) && OpensNothing(h, Dispose(h, i, true))
  {
  }

  /** Once close has begun no step starts an open, and none makes a pipeline resident. */
  lemma NothingOpensAfterClose(h: Host, step: Step)
    requires Inv(h) && Indexed(h) && Enabled(h, step) && h.closed
    ensures OpensNothing(h, Do(h, step))
  {
    match step
    case ArriveStep(i, leasing, lingers) => ArriveOpensNothing(h, i, leasing, lingers);
    case ResumeStep(c) => ResumeOpensNothing(h, c);
    case ReturnStep(c) => EndLeaseOpensNothing(h, c);
    case ReleaseStep(c) => EndLeaseOpensNothing(h, c);
    case SettleStep(l, _) => assert LoadInv(h, h.loads[l], l);
    case TimerStep(i) => UnloadOpensNothing(h, i);
    case UnloadStep(i, _) => UnloadOpensNothing(h, i);
    case _ =>
  }

  /** The host checks `closed` once more before it publishes a pipeline. That branch is never taken:
      an open that finds the host closed has been aborted, and left by the check before. */
  lemma ClosedBranchIsDead(h: Host, l: nat)
    requires Inv(h) && l < |h.loads| && h.loads[l].state == Pending && h.closed
    ensures h.loads[l].aborted
  {
    assert LoadInv(h, h.loads[l], l);
  }

  /** Close does not hang: until it has settled, it can, or an open in flight has yet to end. */
  lemma CloseCanSettle(h: Host)
    requires Inv(h) && Indexed(h) && h.closed && !h.settled
    ensures Enabled(h, SettleCloseStep) || exists l, outcome :: Enabled(h, SettleStep(l, outcome))
  {
    if Loading(h) {
      var l :| 0 <= l < |h.loads| && h.loads[l].state == Pending;
      assert Enabled(h, SettleStep(l, Returned));
    }
  }

  // ---- Leases ---------------------------------------------------------------------------------

  /** The calls that may take a leased pipeline of model m away. */
  predicate Takes(step: Step, m: nat) {
    step == UnloadStep(m, true) || step.CloseStep? || step.SettleCloseStep?
  }

  /** What holds of model m and the callers from number n on until the first such call: the pipeline of
      every lease that is granted, about to be granted, or waiting to be picked up from a finished open, is
      resident. */
  predicate LeasesAreLive(h: Host, m: nat, n: nat)
    requires Inv(h)
  {
    forall c :: n <= c < |h.callers| && h.callers[c].leasing && h.callers[c].slot == m ==> LeaseIsLive(h, h.callers[c])
  }

  predicate LeaseIsLive(h: Host, c: Caller)
    requires Inv(h) && CallerInv(h, c)
  {
    match c.phase
    case Opened(p) => h.slots[c.slot].resident == Some(p)
    case Holding(p) => h.slots[c.slot].resident == Some(p)
    case Waiting(l) => h.loads[l].state.Published? ==> h.slots[c.slot].resident == Some(h.loads[l].state.pipeline)
    case _ => true
  }

  /** A slot with a caller on lease has a positive counter. */
  lemma LeaseIsCounted(h: Host, c: nat)
    requires Inv(h) && c < |h.callers| && h.callers[c].leasing && h.callers[c].phase != Done
    ensures h.slots[h.callers[c].slot].leases > 0
  {
    var i := h.callers[c].slot;
    assert SlotInv(h, i) by {
      assert CallerInv(h, h.callers[c]);
    }
    CountZero(h.callers, LeaseTest(i));
    assert LeaseTest(i)(h.callers[c]);
  }

  /** Disposing, without force, takes away no leased pipeline. */
  lemma DisposeSparesLeases(h: Host, i: nat, m: nat, n: nat)
    requires Inv(h) && Indexed(h) && i < |h.slots| && (i == m ==> h.slots[i].leases == 0)
    requires LeasesAreLive(h, m, n) && Inv(Dispose(h, i, true))
    ensures LeasesAreLive(Dispose(h, i, true), m, n)
  {
    var h' := Dispose(h, i, true);
    forall c | n <= c < |h.callers| && h.callers[c].leasing && h.callers[c].slot == m ensures LeaseIsLive(h', h'.callers[c]) {
      if i == m && h.callers[c].phase != Done {
        LeaseIsCounted(h, c);
      }
      assert LeaseIsLive(h, h.callers[c]);
    }
  }

  lemma CancelTimerSparesLeases(h: Host, i: nat, m: nat, n: nat)
    requires Inv(h) && i < |h.slots| && LeasesAreLive(h, m, n) && Inv(CancelTimer(h, i))
    ensures LeasesAreLive(CancelTimer(h, i), m, n)
  {
    forall c | n <= c < |h.callers| && h.callers[c].leasing && h.callers[c].slot == m ensures LeaseIsLive(CancelTimer(h, i), h.callers[c]) {
      assert LeaseIsLive(h, h.callers[c]);
    }
  }

  lemma ArmIdleSparesLeases(h: Host, i: nat, lingers: bool, m: nat, n: nat)
    requires Inv(h) && Indexed(h) && i < |h.slots| && LeasesAreLive(h, m, n) && Inv(ArmIdle(h, i, lingers))
    ensures LeasesAreLive(ArmIdle(h, i, lingers), m, n)
  {
    var h1 := CancelTimer(h, i);
    CancelTimerKeepsInv(h, i);
    CancelTimerSparesLeases(h, i, m, n);
    InvIsIndexed(h1);
    var h2 := ArmIdle(h, i, lingers);
    if h2 != h1 && !lingers {
      DisposeSparesLeases(h1, i, m, n);
    } else {
      forall c | n <= c < |h.callers| && h.callers[c].leasing && h.callers[c].slot == m ensures LeaseIsLive(h2, h2.callers[c]) {
        assert LeaseIsLive(h1, h1.callers[c]);
      }
    }
  }

  /** Callers other than c keep their leases when c moves on and no pipeline is touched. */
  lemma MoveSparesLeases(h: Host, h': Host, c: nat, m: nat, n: nat)
    requires Inv(h) && Inv(h') && LeasesAreLive(h, m, n)
    requires c < |h.callers| && |h'.callers| == |h.callers| && |h'.slots| == |h.slots|
    requires forall k :: 0 <= k < |h.callers| && k != c ==> h'.callers[k] == h.callers[k]
    requires forall i :: 0 <= i < |h.slots| ==> h'.slots[i].resident == h.slots[i].resident
    requires |h.loads| <= |h'.loads| && forall l :: 0 <= l < |h.loads| ==> h'.loads[l].state == h.loads[l].state
    requires CallerInv(h', h'.callers[c]) && (n <= c && h'.callers[c].leasing && h'.callers[c].slot == m ==> LeaseIsLive(h', h'.callers[c]))
    requires h'.callers[c].slot == h.callers[c].slot
    ensures LeasesAreLive(h', m, n)
  {
    forall k | n <= k < |h.callers| && h'.callers[k].leasing && h'.callers[k].slot == m ensures LeaseIsLive(h', h'.callers[k]) {
      if k != c {
        assert CallerInv(h, h.callers[k]) && LeaseIsLive(h, h.callers[k]);
      }
    }
  }

  lemma EnterSparesLeases(h: Host, c: nat, m: nat, n: nat)
    requires Inv(h) && Indexed(h) && c < |h.callers| && LeasesAreLive(h, m, n)
    requires h.callers[c].phase.Failing? || h.callers[c].phase.Draining?
    ensures Inv(Enter(h, c)) && LeasesAreLive(Enter(h, c), m, n)
  {
    EnterKeepsInv(h, c);
    var h' := Enter(h, c);
    assert SlotInv(h, h.callers[c].slot) && CallerInv(h', h'.callers[c]);
    MoveSparesLeases(h, h', c, m, n);
  }

  lemma AdmitSparesLeases(h: Host, i: nat, leasing: bool, lingers: bool, m: nat, n: nat)
    requires Inv(h) && i < |h.slots| && LeasesAreLive(h, m, n) && Inv(Admit(h, i, leasing, lingers))
    ensures LeasesAreLive(Admit(h, i, leasing, lingers), m, n)
  {
    var h' := Admit(h, i, leasing, lingers);
    forall k | n <= k < |h'.callers| && h'.callers[k].leasing && h'.callers[k].slot == m ensures LeaseIsLive(h', h'.callers[k]) {
      if k < |h.callers| {
        assert CallerInv(h, h.callers[k]) && LeaseIsLive(h, h.callers[k]);
      }
    }
  }

  lemma ArriveSparesLeases(h: Host, i: nat, leasing: bool, lingers: bool, m: nat, n: nat)
    requires Inv(h) && Indexed(h) && i < |h.slots| && LeasesAreLive(h, m, n)
    ensures Inv(Arrive(h, i, leasing, lingers)) && LeasesAreLive(Arrive(h, i, leasing, lingers), m, n)
  {
    AdmitKeepsInv(h, i, leasing, lingers);
    AdmitSparesLeases(h, i, leasing, lingers, m, n);
    EnterSparesLeases(Admit(h, i, leasing, lingers), |h.callers|, m, n);
  }

  /** The end of a wait changes only its caller, counters, and the abort flag of an open. */
  lemma WaitEndsQuietly(h: Host, c: nat)
    requires Indexed(h) && CanResume(h, c) && h.callers[c].phase.Waiting?
    ensures var h' := Resume(h, c);
            && |h'.callers| == |h.callers| && |h'.slots| == |h.slots| && |h'.loads| == |h.loads|
            && (forall k :: 0 <= k < |h.callers| && k != c ==> h'.callers[k] == h.callers[k])
            && h'.callers[c].slot == h.callers[c].slot
            && (forall i :: 0 <= i < |h.slots| ==> h'.slots[i].resident == h.slots[i].resident)
            && forall l :: 0 <= l < |h.loads| ==> h'.loads[l].state == h.loads[l].state
  {
  }

  lemma ResumeSparesLeases(h: Host, c: nat, m: nat, n: nat)
    requires Inv(h) && Indexed(h) && CanResume(h, c) && LeasesAreLive(h, m, n)
    ensures Inv(Resume(h, c)) && LeasesAreLive(Resume(h, c), m, n)
  {
    if h.callers[c].phase.Draining? {
      EnterSparesLeases(h, c, m, n);
    } else {
      ResumeKeepsInv(h, c);
      var h' := Resume(h, c);
      WaitEndsQuietly(h, c);
      assert CallerInv(h, h.callers[c]) && CallerInv(h', h'.callers[c]);
      assert n <= c && h.callers[c].leasing && h.callers[c].slot == m ==> LeaseIsLive(h, h.callers[c]);
      MoveSparesLeases(h, h', c, m, n);
    }
  }

  lemma EndLeaseSparesLeases(h: Host, c: nat, m: nat, n: nat)
    requires Inv(h) && Indexed(h) && c < |h.callers| && h.callers[c].leasing && LeasesAreLive(h, m, n)
    requires h.callers[c].phase.Opened? || h.callers[c].phase.Failing? || h.callers[c].phase.Holding?
    ensures Inv(EndLease(h, c)) && LeasesAreLive(EndLease(h, c), m, n)
  {
    EndLeaseKeepsInv(h, c);
    var caller := h.callers[c];
    var s := h.slots[caller.slot];
    CallerMoves(h, c, caller.(phase := Done), s.waiters, s.leases - 1);
    var h' := SetPhase(SetSlot(h, caller.slot, s.(leases := s.leases - 1)), c, Done);
    InvIsIndexed(h');
    assert CallerInv(h', h'.callers[c]);
    MoveSparesLeases(h, h', c, m, n);
    ArmIdleSparesLeases(h', caller.slot, caller.lingers, m, n);
  }

  lemma ReturnSparesLeases(h: Host, c: nat, m: nat, n: nat)
    requires Inv(h) && Indexed(h) && CanReturn(h, c) && LeasesAreLive(h, m, n)
    ensures Inv(Return(h, c)) && LeasesAreLive(Return(h, c), m, n)
  {
    ReturnKeepsInv(h, c);
    var h' := Return(h, c);
    assert CallerInv(h, h.callers[c]);
    assert n <= c && h.callers[c].leasing && h.callers[c].slot == m ==> LeaseIsLive(h, h.callers[c]);
    if !h.callers[c].leasing || (h.callers[c].phase.Opened? && !h.callers[c].aborted) {
      assert CallerInv(h', h'.callers[c]);
      MoveSparesLeases(h, h', c, m, n);
    } else {
      EndLeaseSparesLeases(h, c, m, n);
    }
  }

  lemma SettleSparesLeases(h: Host, l: nat, outcome: Outcome, m: nat, n: nat)
    requires Inv(h) && Indexed(h) && l < |h.loads| && h.loads[l].state == Pending && LeasesAreLive(h, m, n)
    ensures Inv(Settle(h, l, outcome)) && LeasesAreLive(Settle(h, l, outcome), m, n)
  {
    SettleKeepsInv(h, l, outcome);
    var h' := Settle(h, l, outcome);
    assert LoadInv(h, h.loads[l], l) && SlotInv(h, h.loads[l].slot);
    forall k | n <= k < |h.callers| && h.callers[k].leasing && h.callers[k].slot == m ensures LeaseIsLive(h', h'.callers[k]) {
      assert CallerInv(h, h.callers[k]) && LeaseIsLive(h, h.callers[k]) && CallerInv(h', h'.callers[k]);
    }
  }

  lemma StepSparesLeases(h: Host, step: Step, m: nat, n: nat)
    requires Inv(h) && Indexed(h) && Enabled(h, step) && LeasesAreLive(h, m, n) && !Takes(step, m)
    ensures Inv(Do(h, step)) && LeasesAreLive(Do(h, step), m, n)
  {
    StepKeepsInv(h, step);
    match step
    case ArriveStep(i, leasing, lingers) => ArriveSparesLeases(h, i, leasing, lingers, m, n);
    case AbortStep(c) => assert CallerInv(h, h.callers[c]);
      var h' := Do(h, step);
      assert CallerInv(h', h'.callers[c]);
      assert n <= c && h.callers[c].leasing && h.callers[c].slot == m ==> LeaseIsLive(h, h.callers[c]);
      MoveSparesLeases(h, h', c, m, n);
    case ResumeStep(c) => ResumeSparesLeases(h, c, m, n);
    case ReturnStep(c) => ReturnSparesLeases(h, c, m, n);
    case ReleaseStep(c) => assert CallerInv(h, h.callers[c]); EndLeaseSparesLeases(h, c, m, n);
    case SettleStep(l, outcome) => SettleSparesLeases(h, l, outcome, m, n);
    case TimerStep(i) => IdleSparesLeases(h, i, m, n);
    case UnloadStep(i, _) => IdleSparesLeases(h, i, m, n);
    case PinStep(i) => IdleSparesLeases(h, i, m, n); PinsSpareLeases(CancelTimer(h, i), h.pinned + {i}, m, n);
    case UnpinStep(i) => PinsSpareLeases(h, h.pinned - {i}, m, n);
  }

  lemma IdleSparesLeases(h: Host, i: nat, m: nat, n: nat)
    requires Inv(h) && Indexed(h) && i < |h.slots| && LeasesAreLive(h, m, n)
    ensures Inv(CancelTimer(h, i)) && LeasesAreLive(CancelTimer(h, i), m, n)
    ensures i != m || h.slots[i].leases <= 0 ==> Inv(Dispose(h, i, true)) && LeasesAreLive(Dispose(h, i, true), m, n)
  {
    CancelTimerKeepsInv(h, i);
    CancelTimerSparesLeases(h, i, m, n);
    assert SlotInv(h, i);
    if i != m || h.slots[i].leases <= 0 {
      DisposeKeepsInv(h, i);
      DisposeSparesLeases(h, i, m, n);
    }
  }

  lemma PinsSpareLeases(h: Host, pinned: set<nat>, m: nat, n: nat)
    requires Inv(h) && LeasesAreLive(h, m, n)
    ensures Inv(h.(pinned := pinned)) && LeasesAreLive(h.(pinned := pinned), m, n)
  {
    PinsKeepInv(h, pinned);
    forall c | n <= c < |h.callers| && h.callers[c].leasing && h.callers[c].slot == m ensures LeaseIsLive(h.(pinned := pinned), h.callers[c]) {
      assert LeaseIsLive(h, h.callers[c]);
    }
  }

  lemma {:induction false} RunSparesLeases(h: Host, steps: seq<Step>, m: nat, n: nat)
    requires Inv(h) && Indexed(h) && Legal(h, steps) && LeasesAreLive(h, m, n)
    requires forall k :: 0 <= k < |steps| ==> !Takes(steps[k], m)
    ensures Inv(After(h, steps)) && LeasesAreLive(After(h, steps), m, n)
    decreases |steps|
  {
    if steps != [] {
      StepSparesLeases(h, steps[0], m, n);
      RunSparesLeases(Do(h, steps[0]), steps[1..], m, n);
    }
  }

  /** As long as nobody forces an unload of the same model or closes the host, a pipeline is never disposed
      while a lease on it is out, and acquire never hands out a disposed pipeline. From any reachable state,
      whatever was forced before: after every such run each lease that was asked for in it, granted or about
      to be, is on the resident, undisposed pipeline of its slot. Forcing other models does not matter. */
  lemma LeasedPipelinesAreAlive(h: Host, before: seq<Step>, steps: seq<Step>, c: nat)
    requires Initial(h) && Indexed(h) && Legal(h, before) && Indexed(After(h, before)) && Legal(After(h, before), steps)
    requires var r := After(After(h, before), steps);
             && |After(h, before).callers| <= c < |r.callers| && r.callers[c].leasing
             && (r.callers[c].phase.Holding? || r.callers[c].phase.Opened?)
             && forall k :: 0 <= k < |steps| ==> !Takes(steps[k], r.callers[c].slot)
    ensures var r := After(After(h, before), steps);
            var caller := r.callers[c];
            && caller.slot < |r.slots| && r.slots[caller.slot].resident == Some(caller.phase.pipeline)
            && caller.phase.pipeline < |r.pipelines| && r.pipelines[caller.phase.pipeline].disposals == 0
            && r.slots[caller.slot].leases > 0
  {
    InitialInv(h);
    RunKeepsInv(h, before);
    var s := After(h, before);
    var r := After(s, steps);
    RunSparesLeases(s, steps, r.callers[c].slot, |s.callers|);
    assert CallerInv(r, r.callers[c]) && LeaseIsLive(r, r.callers[c]);
    assert SlotInv(r, r.callers[c].slot);
    LeaseIsCounted(r, c);
  }

  /** Force does what it says: unloading a leased model disposes its pipeline under the lease holder. */
  lemma ForceDisposesUnderALease(h: Host, c: nat)
    requires Inv(h) && Indexed(h) && c < |h.callers| && h.callers[c].phase.Holding?
    requires h.slots[h.callers[c].slot].resident == Some(h.callers[c].phase.pipeline)
    ensures var h' := Unload(h, h.callers[c].slot, true).0;
            h'.callers[c] == h.callers[c] && h'.pipelines[h.callers[c].phase.pipeline].disposals == 1
  {
    assert SlotInv(h, h.callers[c].slot);
  }

  // ---- Idle models ----------------------------------------------------------------------------

  /** When the last lease of an unpinned model ends on an open host and nobody is opening it, the model
      is unloaded at once, or its idle timer is running with the pipeline still there; and when a timer
      fires on a model without leases, it is unloaded. */
  lemma LastLeaseDecides(h: Host, c: nat)
    requires Inv(h) && Indexed(h) && c < |h.callers| && h.callers[c].phase.Holding? && !h.closed
    requires var i := h.callers[c].slot; h.slots[i].leases == 1 && h.slots[i].waiters == 0 && i !in h.pinned
    requires h.slots[h.callers[c].slot].resident.Some?
    ensures var i, p := h.callers[c].slot, h.slots[h.callers[c].slot].resident.value;
            var h' := EndLease(h, c);
            && h'.slots[i].leases == 0
            && (if h.callers[c].lingers then h'.slots[i].timer && h'.slots[i].resident == Some(p) && h'.pipelines[p].disposals == 0
                else !h'.slots[i].timer && h'.slots[i].resident == None && h'.pipelines[p].disposals == 1)
            && FireTimer(h', i).slots[i].resident == None && FireTimer(h', i).pipelines[p].disposals == 1
  {
    var i := h.callers[c].slot;
    assert SlotInv(h, i);
    EndLeaseKeepsInv(h, c);
    InvIsIndexed(EndLease(h, c));
  }

  // ---- Pins -----------------------------------------------------------------------------------

  /** No idle timer runs for model i while it is pinned. */
  predicate Untimed(h: Host, i: nat) {
    i < |h.slots| && (i in h.pinned ==> !h.slots[i].timer)
  }

  /** The pipeline of model i, if it is pinned, is the same as before. */
  predicate Spares(h: Host, h': Host, i: nat) {
    i < |h.slots| && i < |h'.slots| && (i in h.pinned && h.slots[i].resident.Some? ==> h'.slots[i].resident == h.slots[i].resident)
  }

  /** The calls that may take a pinned pipeline away. */
  predicate LetsGo(step: Step, i: nat) {
    (step.UnloadStep? && step.slot == i) || step.CloseStep? || step.SettleCloseStep?
  }

  lemma EnterUntimed(h: Host, c: nat, i: nat)
    requires Indexed(h) && c < |h.callers| && Untimed(h, i)
    ensures Untimed(Enter(h, c), i) && Spares(h, Enter(h, c), i)
  {
  }

  lemma ArriveUntimed(h: Host, k: nat, leasing: bool, lingers: bool, i: nat)
    requires Indexed(h) && k < |h.slots| && Untimed(h, i)
    ensures Untimed(Arrive(h, k, leasing, lingers), i) && Spares(h, Arrive(h, k, leasing, lingers), i)
  {
    EnterUntimed(Admit(h, k, leasing, lingers), |h.callers|, i);
  }

  lemma ResumeUntimed(h: Host, c: nat, i: nat)
    requires Indexed(h) && CanResume(h, c) && Untimed(h, i)
    ensures Untimed(Resume(h, c), i) && Spares(h, Resume(h, c), i)
  {
    if h.callers[c].phase.Draining? {
      EnterUntimed(h, c, i);
    }
  }

  lemma EndLeaseUntimed(h: Host, c: nat, i: nat)
    requires Indexed(h) && c < |h.callers| && Untimed(h, i)
    ensures Untimed(EndLease(h, c), i) && Spares(h, EndLease(h, c), i)
  {
  }

  /** The open of another model ends: an open in flight is never for a slot that has its pipeline. */
  lemma SettleUntimed(h: Host, l: nat, outcome: Outcome, i: nat)
    requires Inv(h) && Indexed(h) && l < |h.loads| && h.loads[l].state == Pending && Untimed(h, i)
    ensures Untimed(Settle(h, l, outcome), i) && Spares(h, Settle(h, l, outcome), i)
  {
    assert LoadInv(h, h.loads[l], l) && SlotInv(h, i);
  }

  lemma UnloadUntimed(h: Host, k: nat, i: nat)
    requires Indexed(h) && k < |h.slots| && Untimed(h, i)
    ensures Untimed(CancelTimer(h, k), i) && Spares(h, CancelTimer(h, k), i)
    ensures Untimed(Dispose(h, k, true), i) && (k != i ==> Spares(h, Dispose(h, k, true), i))
  {
  }

  lemma CloseUntimed(h: Host, i: nat)
    requires Indexed(h) && Untimed(h, i)
    ensures Untimed(Close(h), i) && (CanSettleClose(h) ==> Untimed(SettleClose(h), i))
  {
  }

  lemma StepUntimed(h: Host, step: Step, i: nat)
    requires Inv(h) && Indexed(h) && Enabled(h, step) && Untimed(h, i)
    ensures Untimed(Do(h, step), i) && (!LetsGo(step, i) ==> Spares(h, Do(h, step), i))
  {
    match step
    case ArriveStep(k, leasing, lingers) => ArriveUntimed(h, k, leasing, lingers, i);
    case ResumeStep(c) => ResumeUntimed(h, c, i);
    case ReturnStep(c) => EndLeaseUntimed(h, c, i);
    case ReleaseStep(c) => EndLeaseUntimed(h, c, i);
    case SettleStep(l, outcome) => SettleUntimed(h, l, outcome, i);
    case TimerStep(k) => UnloadUntimed(h, k, i);
    case UnloadStep(k, _) => UnloadUntimed(h, k, i);
    case CloseStep => CloseUntimed(h, i);
    case SettleCloseStep => CloseUntimed(h, i);
    case _ =>
  }

  lemma {:induction false} RunUntimed(h: Host, steps: seq<Step>, i: nat)
    requires Inv(h) && Indexed(h) && Legal(h, steps) && Untimed(h, i)
    ensures Untimed(After(h, steps), i)
    decreases |steps|
  {
    if steps != [] {
      StepUntimed(h, steps[0], i);
      StepKeepsInv(h, steps[0]);
      RunUntimed(Do(h, steps[0]), steps[1..], i);
    }
  }

  /** In every reachable state no idle timer runs for a pinned model, whether it was pinned before it was
      opened, from the start, or afterwards. */
  lemma PinnedIsNeverTimed(h: Host, steps: seq<Step>, i: nat)
    requires Initial(h) && Indexed(h) && Legal(h, steps) && i < |h.slots| && i in After(h, steps).pinned
    ensures i < |After(h, steps).slots| && !After(h, steps).slots[i].timer
  {
    InitialInv(h);
    RunUntimed(h, steps, i);
  }

  /** Only pin and unpin change what is pinned. */
  lemma StepPins(h: Host, step: Step, i: nat)
    requires Indexed(h) && Enabled(h, step)
    ensures i in Do(h, step).pinned <==> if step == PinStep(i) then true else if step == UnpinStep(i) then false else i in h.pinned
  {
    match step
    case ArriveStep(k, leasing, lingers) => assert Admit(h, k, leasing, lingers).pinned == h.pinned;
    case _ =>
  }

  /** Once a pinned model is open it stays open over every run, whatever leases come and go, until it is
      unloaded on request or unpinned, or the host is closed. */
  lemma {:induction false} StaysOpen(h: Host, steps: seq<Step>, i: nat, p: nat)
    requires Inv(h) && Indexed(h) && Legal(h, steps) && Untimed(h, i)
    requires i in h.pinned && h.slots[i].resident == Some(p)
    requires forall k :: 0 <= k < |steps| ==> !LetsGo(steps[k], i) && steps[k] != UnpinStep(i)
    ensures var r := After(h, steps); i < |r.slots| && r.slots[i].resident == Some(p) && i in r.pinned
    decreases |steps|
  {
    if steps != [] {
      StepUntimed(h, steps[0], i);
      StepPins(h, steps[0], i);
      StepKeepsInv(h, steps[0]);
      StaysOpen(Do(h, steps[0]), steps[1..], i, p);
    }
  }

  /** The open pipeline of a pinned model in any reachable state, however it came to be pinned and open,
      stays over every continuation of the run without such a call on it, whatever happens to others. */
  lemma PinnedStaysOpen(h: Host, before: seq<Step>, steps: seq<Step>, i: nat, p: nat)
    requires Initial(h) && Indexed(h) && Legal(h, before) && Indexed(After(h, before)) && Legal(After(h, before), steps)
    requires i < |h.slots| && i < |After(h, before).slots| && i in After(h, before).pinned && After(h, before).slots[i].resident == Some(p)
    requires forall k :: 0 <= k < |steps| ==> !LetsGo(steps[k], i) && steps[k] != UnpinStep(i)
    ensures var r := After(After(h, before), steps);
            i < |r.slots| && r.slots[i].resident == Some(p) && i in r.pinned && !r.slots[i].timer
            && p < |r.pipelines| && r.pipelines[p].disposals == 0
  {
    InitialInv(h);
    RunKeepsInv(h, before);
    PinnedIsNeverTimed(h, before, i);
    StaysOpen(After(h, before), steps, i, p);
    RunUntimed(After(h, before), steps, i);
    RunKeepsInv(After(h, before), steps);
    assert SlotInv(After(After(h, before), steps), i);
  }

  // ---- Cancellation ---------------------------------------------------------------------------

  /** A waiter that aborts an open was the only one counted, and nobody waits for it afterwards. */
  lemma LastWaiterAborts(h: Host, c: nat, l: nat)
    requires Inv(h) && Indexed(h) && CanResume(h, c) && h.callers[c].phase.Waiting?
    requires l < |h.loads| && !h.loads[l].aborted && Resume(h, c).loads[l].aborted
    ensures h.callers[c].slot == h.loads[l].slot && h.slots[h.loads[l].slot].waiters == 1
    ensures forall k :: 0 <= k < |h.callers| && Resume(h, c).callers[k].phase.Waiting? ==> Resume(h, c).callers[k].phase.load != l
  {
    var i := h.callers[c].slot;
    assert CallerInv(h, h.callers[c]) && SlotInv(h, i) && LoadInv(h, h.loads[l], l) && h.slots[i].loading == Some(l);
    ResumeKeepsInv(h, c);
    NobodyWaitsForAborted(Resume(h, c), l);
  }

  /** An open is aborted only by close, or by a waiter that gives up when it is the only one counted;
      then no caller is left waiting for it. */
  lemma AbortNeedsLastWaiterOrClose(h: Host, step: Step, l: nat)
    requires Inv(h) && Indexed(h) && Enabled(h, step)
    requires l < |h.loads| && !h.loads[l].aborted && l < |Do(h, step).loads| && Do(h, step).loads[l].aborted
    ensures step.CloseStep? ||
            (step.ResumeStep? && h.callers[step.caller].phase.Waiting? && h.slots[h.loads[l].slot].waiters == 1
             && h.callers[step.caller].slot == h.loads[l].slot
             && forall c :: 0 <= c < |Do(h, step).callers| && Do(h, step).callers[c].phase.Waiting? ==>
                  Do(h, step).callers[c].phase.load != l)
  {
    if step.ResumeStep? && h.callers[step.caller].phase.Waiting? {
      LastWaiterAborts(h, step.caller, l);
    }
  }

  /** On an open host an aborted open has no waiters. */
  lemma NobodyWaitsForAborted(h: Host, l: nat)
    requires Inv(h) && l < |h.loads| && h.loads[l].aborted && !h.closed
    ensures forall c :: 0 <= c < |h.callers| && h.callers[c].phase.Waiting? ==> h.callers[c].phase.load != l
  {
    forall c | 0 <= c < |h.callers| && h.callers[c].phase.Waiting? ensures h.callers[c].phase.load != l {
      assert CallerInv(h, h.callers[c]);
    }
  }

  /** A step of one caller, or the firing of its signal, does not move any other caller. */
  lemma OthersStayPut(h: Host, step: Step, c: nat, other: nat)
    requires Indexed(h) && Enabled(h, step)
    requires step == AbortStep(c) || step == ResumeStep(c) || step == ReturnStep(c) || step == ReleaseStep(c)
    requires other < |h.callers| && other != c
    ensures |Do(h, step).callers| == |h.callers| && Do(h, step).callers[other] == h.callers[other]
  {
  }

  /** A waiting caller whose own signal has not fired is turned away only if the host has closed or the
      open itself broke: never because others were cancelled. */
  lemma CancellationIsPrivate(h: Host, c: nat)
    requires Inv(h) && Indexed(h) && CanResume(h, c)
    requires h.callers[c].phase.Waiting? && !h.callers[c].aborted && !h.closed
    ensures var state := h.loads[h.callers[c].phase.load].state;
            if state.Published? then Resume(h, c).callers[c].phase == Opened(state.pipeline)
            else state == Failed(Broken) && Resume(h, c).callers[c].phase == Failing
  {
    assert CallerInv(h, h.callers[c]) && LoadInv(h, h.loads[h.callers[c].phase.load], h.callers[c].phase.load);
  }

  /** Once an open was aborted it never publishes: its pipeline, if it still gets one, is disposed on
      the spot and reaches nobody. */
  lemma AbortedOpenReachesNobody(h: Host, steps: seq<Step>, l: nat)
    requires Initial(h) && Indexed(h) && Legal(h, steps)
    requires l < |After(h, steps).loads| && After(h, steps).loads[l].aborted
    ensures !After(h, steps).loads[l].state.Published? && Indexed(After(h, steps))
    ensures After(h, steps).loads[l].state == Pending ==>
              forall outcome :: var r := After(h, steps);
                && Settle(r, l, outcome).loads[l].state.Failed?
                && (forall p :: |r.pipelines| <= p < |Settle(r, l, outcome).pipelines| ==>
                      Settle(r, l, outcome).pipelines[p].disposals == 1)
                && (forall i :: 0 <= i < |r.slots| ==> Settle(r, l, outcome).slots[i].resident == r.slots[i].resident)
  {
    InitialInv(h);
    RunKeepsInv(h, steps);
    assert LoadInv(After(h, steps), After(h, steps).loads[l], l);
  }

  /** A caller that found an aborted open in flight waits for it to end and then, on an open host,
      does not inherit its failure: it gets the resident pipeline of its slot, or joins a live open,
      starting it if there is none, or finds another aborted open to wait for; never the same one. */
  lemma DrainedCallerStartsAfresh(h: Host, c: nat)
    requires Inv(h) && Indexed(h) && c < |h.callers| && h.callers[c].phase.Draining?
    requires !h.callers[c].aborted && !h.closed && CanResume(h, c)
    ensures var h' := Resume(h, c);
            var slot := h'.slots[h.callers[c].slot];
            match h'.callers[c].phase
            case Opened(p) => slot.resident == Some(p)
            case Waiting(l) => l != h.callers[c].phase.load && slot.loading == Some(l) && l < |h'.loads| && !h'.loads[l].aborted
            case Draining(l) => l != h.callers[c].phase.load && slot.loading == Some(l)
            case _ => false
    ensures h.slots[h.callers[c].slot].loading.None? && h.slots[h.callers[c].slot].resident.None? ==>
              Resume(h, c).loads == h.loads + [Load(h.callers[c].slot, false, Pending)]
  {
    assert CallerInv(h, h.callers[c]) && SlotInv(h, h.callers[c].slot);
  }

  /** Nobody is stuck: a caller inside the host can take its next step, or waits for an open in flight. */
  lemma CallersProceed(h: Host, c: nat)
    requires Inv(h) && Indexed(h) && c < |h.callers| && h.callers[c].phase != Done && !h.callers[c].phase.Holding?
    ensures || Enabled(h, ResumeStep(c)) || Enabled(h, ReturnStep(c))
            || ((h.callers[c].phase.Waiting? || h.callers[c].phase.Draining?)
                && Enabled(h, SettleStep(h.callers[c].phase.load, Returned)))
  {
  }
}
