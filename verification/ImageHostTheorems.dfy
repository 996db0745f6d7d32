/** What every run of the image model host keeps: lease and waiter counts, and who owns a pipeline. */
module ImageHostTheorems {
  import opened Wrappers
  import opened ImageHostModel
  import opened Counting

  function LeaseTest(i: nat): Caller -> bool { (c: Caller) => OnLease(c, i) }
  function WaitTest(i: nat): Caller -> bool { (c: Caller) => OnWait(c, i) }

  /** The counters of slot i count the callers, a resident pipeline is alive and at home, and a load in
      flight is one of this slot's. */
  predicate SlotInv(h: Host, i: nat)
    requires i < |h.slots|
  {
    var s := h.slots[i];
    && s.waiters == Count(h.callers, WaitTest(i))
    && s.leases == Count(h.callers, LeaseTest(i))
    && (s.resident.Some? ==>
          && s.resident.value < |h.pipelines|
          && h.pipelines[s.resident.value] == Pipeline(i, 0)
          && s.loading.None?)
    && (s.loading.Some? ==>
          s.loading.value < |h.loads| && h.loads[s.loading.value].slot == i && h.loads[s.loading.value].state == Pending)
    && (h.settled ==> s.resident.None? && s.loading.None? && !s.timer)
    && (!h.settled ==> s.loads == s.unloads + if s.resident.Some? then 1 else 0)
  }

  /** An open in flight is known to its slot; one that was aborted never publishes, and once the host
      is closed every open in flight is aborted. */
  predicate LoadInv(h: Host, load: Load, l: nat) {
    && load.slot < |h.slots|
    && (load.state == Pending ==> h.slots[load.slot].loading == Some(l) && (h.closed ==> load.aborted))
    && (load.state.Published? ==>
          !load.aborted && load.state.pipeline < |h.pipelines| && h.pipelines[load.state.pipeline].home == load.slot)
    && (load.state.Failed? ==> load.state.cause != Closed && (load.state.cause == Aborted ==> load.aborted))
  }

  /** Every pipeline the backend ever returned is either resident or has been disposed exactly once. */
  predicate PipelineInv(h: Host, pipeline: Pipeline, p: nat) {
    && pipeline.home < |h.slots|
    && pipeline.disposals == if h.slots[pipeline.home].resident == Some(p) then 0 else 1
  }

  /** A caller waits for its own slot, and it waits for an aborted open only if the host has closed. */
  predicate CallerInv(h: Host, c: Caller) {
    && c.slot < |h.slots|
    && match c.phase
       case Waiting(l) => l < |h.loads| && h.loads[l].slot == c.slot && (h.loads[l].aborted ==> h.closed)
       case Draining(l) => l < |h.loads| && h.loads[l].slot == c.slot && h.loads[l].aborted
       case Opened(p) => p < |h.pipelines| && h.pipelines[p].home == c.slot
       case Holding(p) => p < |h.pipelines| && h.pipelines[p].home == c.slot && c.leasing
       case _ => true
  }

  predicate Inv(h: Host) {
    && (forall i :: 0 <= i < |h.slots| ==> SlotInv(h, i))
    && (forall l :: 0 <= l < |h.loads| ==> LoadInv(h, h.loads[l], l))
    && (forall p :: 0 <= p < |h.pipelines| ==> PipelineInv(h, h.pipelines[p], p))
    && (forall c :: 0 <= c < |h.callers| ==> CallerInv(h, h.callers[c]))
    && (h.settled ==> h.closed)
  }

  lemma InvIsIndexed(h: Host)
    requires Inv(h)
    ensures Indexed(h)
  {
    forall i | 0 <= i < |h.slots|
      ensures h.slots[i].resident.Some? ==> h.slots[i].resident.value < |h.pipelines|
      ensures h.slots[i].loading.Some? ==> h.slots[i].loading.value < |h.loads|
    {
      assert SlotInv(h, i);
    }
    forall l | 0 <= l < |h.loads| ensures h.loads[l].slot < |h.slots| {
      assert LoadInv(h, h.loads[l], l);
    }
    forall c | 0 <= c < |h.callers|
      ensures h.callers[c].slot < |h.slots|
      ensures h.callers[c].phase.Waiting? ==> h.callers[c].phase.load < |h.loads|
      ensures h.callers[c].phase.Draining? ==> h.callers[c].phase.load < |h.loads|
    {
      assert CallerInv(h, h.callers[c]);
    }
  }

  // ---- Building blocks ------------------------------------------------------------------------

  lemma CancelTimerKeepsInv(h: Host, i: nat)
    requires Inv(h) && i < |h.slots|
    ensures Inv(CancelTimer(h, i))
  {
    TimerKeepsInv(h, i, false);
  }

  lemma TimerKeepsInv(h: Host, i: nat, timer: bool)
    requires Inv(h) && i < |h.slots| && (timer ==> !h.settled)
    ensures Inv(SetSlot(h, i, h.slots[i].(timer := timer)))
  {
    var h' := SetSlot(h, i, h.slots[i].(timer := timer));
    forall k | 0 <= k < |h.slots| ensures SlotInv(h', k) {
      assert SlotInv(h, k);
    }
  }

  lemma DisposeKeepsInv(h: Host, i: nat)
    requires Inv(h) && Indexed(h) && i < |h.slots|
    ensures Inv(Dispose(h, i, true))
  {
    assert SlotInv(h, i);
    if h.slots[i].resident.None? {
      CancelTimerKeepsInv(h, i);
    } else {
      var h' := Dispose(h, i, true);
      forall k | 0 <= k < |h.slots| ensures SlotInv(h', k) {
        assert SlotInv(h, k);
      }
      forall p | 0 <= p < |h.pipelines| ensures PipelineInv(h', h'.pipelines[p], p) {
        assert PipelineInv(h, h.pipelines[p], p);
      }
      forall c | 0 <= c < |h.callers| ensures CallerInv(h', h'.callers[c]) {
        assert CallerInv(h, h.callers[c]);
      }
      forall l | 0 <= l < |h.loads| ensures LoadInv(h', h'.loads[l], l) {
        assert LoadInv(h, h.loads[l], l);
      }
    }
  }

  lemma ArmIdleKeepsInv(h: Host, i: nat, lingers: bool)
    requires Inv(h) && Indexed(h) && i < |h.slots|
    ensures Inv(ArmIdle(h, i, lingers))
  {
    CancelTimerKeepsInv(h, i);
    var h' := CancelTimer(h, i);
    InvIsIndexed(h');
    if !h.closed && lingers {
      TimerKeepsInv(h', i, true);
    } else {
      DisposeKeepsInv(h', i);
    }
  }

  /** How the two counts of slot i change when caller c moves to another phase. */
  lemma CountsAfterMove(callers: seq<Caller>, c: nat, caller: Caller, i: nat)
    requires c < |callers|
    ensures Count(callers[c := caller], WaitTest(i)) ==
            Count(callers, WaitTest(i)) - (if OnWait(callers[c], i) then 1 else 0) + (if OnWait(caller, i) then 1 else 0)
    ensures Count(callers[c := caller], LeaseTest(i)) ==
            Count(callers, LeaseTest(i)) - (if OnLease(callers[c], i) then 1 else 0) + (if OnLease(caller, i) then 1 else 0)
  {
    CountUpdate(callers, c, caller, WaitTest(i));
    CountUpdate(callers, c, caller, LeaseTest(i));
  }

  /** A caller moves to a phase that fits it, and its slot's counters are adjusted accordingly. */
  lemma CallerMoves(h: Host, c: nat, caller: Caller, waiters: int, leases: int)
    requires Inv(h) && c < |h.callers| && caller.slot == h.callers[c].slot && CallerInv(h, caller)
    requires var s := h.slots[caller.slot];
             && waiters == s.waiters - (if OnWait(h.callers[c], caller.slot) then 1 else 0) + (if OnWait(caller, caller.slot) then 1 else 0)
             && leases == s.leases - (if OnLease(h.callers[c], caller.slot) then 1 else 0) + (if OnLease(caller, caller.slot) then 1 else 0)
    ensures Inv(SetSlot(h, caller.slot, h.slots[caller.slot].(waiters := waiters, leases := leases))
                .(callers := h.callers[c := caller]))
  {
    var i := caller.slot;
    var h' := SetSlot(h, i, h.slots[i].(waiters := waiters, leases := leases)).(callers := h.callers[c := caller]);
    forall k | 0 <= k < |h.slots| ensures SlotInv(h', k) {
      assert SlotInv(h, k);
      CountsAfterMove(h.callers, c, caller, k);
    }
    forall l | 0 <= l < |h.loads| ensures LoadInv(h', h'.loads[l], l) {
      assert LoadInv(h, h.loads[l], l);
    }
    forall p | 0 <= p < |h.pipelines| ensures PipelineInv(h', h'.pipelines[p], p) {
      assert PipelineInv(h, h.pipelines[p], p);
    }
    forall k | 0 <= k < |h.callers| ensures CallerInv(h', h'.callers[k]) {
      assert CallerInv(h, h.callers[k]);
    }
  }

  /** A caller that does not change its kind of phase leaves the counters alone. */
  lemma CallerStays(h: Host, c: nat, caller: Caller)
    requires Inv(h) && c < |h.callers| && caller.slot == h.callers[c].slot && CallerInv(h, caller)
    requires OnWait(h.callers[c], caller.slot) == OnWait(caller, caller.slot)
    requires OnLease(h.callers[c], caller.slot) == OnLease(caller, caller.slot)
    ensures Inv(h.(callers := h.callers[c := caller]))
  {
    var s := h.slots[caller.slot];
    CallerMoves(h, c, caller, s.waiters, s.leases);
    assert h.slots[caller.slot := s] == h.slots;
  }

  lemma ArriveCounts(callers: seq<Caller>, caller: Caller, i: nat)
    ensures Count(callers + [caller], WaitTest(i)) == Count(callers, WaitTest(i)) + (if OnWait(caller, i) then 1 else 0)
    ensures Count(callers + [caller], LeaseTest(i)) == Count(callers, LeaseTest(i)) + (if OnLease(caller, i) then 1 else 0)
  {
    CountSnoc(callers, caller, WaitTest(i));
    CountSnoc(callers, caller, LeaseTest(i));
  }

  lemma AdmitKeepsInv(h: Host, i: nat, leasing: bool, lingers: bool)
    requires Inv(h) && i < |h.slots|
    ensures Inv(Admit(h, i, leasing, lingers)) && Indexed(Admit(h, i, leasing, lingers))
  {
    var caller := Caller(i, leasing, lingers, false, Failing);
    var h' := Admit(h, i, leasing, lingers);
    forall k | 0 <= k < |h.slots| ensures SlotInv(h', k) {
      assert SlotInv(h, k);
      ArriveCounts(h.callers, caller, k);
    }
    forall l | 0 <= l < |h.loads| ensures LoadInv(h', h'.loads[l], l) {
      assert LoadInv(h, h.loads[l], l);
    }
    forall p | 0 <= p < |h.pipelines| ensures PipelineInv(h', h'.pipelines[p], p) {
      assert PipelineInv(h, h.pipelines[p], p);
    }
    forall k | 0 <= k < |h'.callers| ensures CallerInv(h', h'.callers[k]) {
      if k < |h.callers| {
        assert CallerInv(h, h.callers[k]);
      }
    }
    InvIsIndexed(h');
  }

  /** A new open starts on an open host, for a slot that has neither pipeline nor open in flight. */
  lemma NewLoad(h: Host, i: nat)
    requires Inv(h) && i < |h.slots| && !h.closed && h.slots[i].resident.None? && h.slots[i].loading.None?
    ensures Inv(SetSlot(h, i, h.slots[i].(loading := Some(|h.loads|))).(loads := h.loads + [Load(i, false, Pending)]))
  {
    var h' := SetSlot(h, i, h.slots[i].(loading := Some(|h.loads|))).(loads := h.loads + [Load(i, false, Pending)]);
    forall k | 0 <= k < |h.slots| ensures SlotInv(h', k) {
      assert SlotInv(h, k);
    }
    forall l | 0 <= l < |h'.loads| ensures LoadInv(h', h'.loads[l], l) {
      if l < |h.loads| {
        assert LoadInv(h, h.loads[l], l);
      }
    }
    forall p | 0 <= p < |h.pipelines| ensures PipelineInv(h', h'.pipelines[p], p) {
      assert PipelineInv(h, h.pipelines[p], p);
    }
    forall k | 0 <= k < |h.callers| ensures CallerInv(h', h'.callers[k]) {
      assert CallerInv(h, h.callers[k]);
    }
  }

  lemma StartKeepsInv(h: Host, c: nat)
    requires Inv(h) && Indexed(h) && c < |h.callers| && !h.callers[c].aborted && !h.closed
    requires h.callers[c].phase.Failing? || h.callers[c].phase.Draining?
    requires h.slots[h.callers[c].slot].resident.None? && h.slots[h.callers[c].slot].loading.None?
    ensures Inv(Enter(h, c))
  {
    var caller := h.callers[c];
    var i := caller.slot;
    var s := h.slots[i];
    NewLoad(h, i);
    var h' := SetSlot(h, i, s.(loading := Some(|h.loads|))).(loads := h.loads + [Load(i, false, Pending)]);
    CallerMoves(h', c, caller.(phase := Waiting(|h.loads|)), s.waiters + 1, s.leases);
    assert h.slots[i := s.(loading := Some(|h.loads|))][i := s.(waiters := s.waiters + 1, loading := Some(|h.loads|))]
        == h.slots[i := s.(waiters := s.waiters + 1, loading := Some(|h.loads|))];
  }

  lemma EnterKeepsInv(h: Host, c: nat)
    requires Inv(h) && Indexed(h) && c < |h.callers|
    requires h.callers[c].phase.Failing? || h.callers[c].phase.Draining?
    ensures Inv(Enter(h, c))
  {
    var caller := h.callers[c];
    var i := caller.slot;
    var s := h.slots[i];
    assert SlotInv(h, i);
    if caller.aborted || h.closed {
      CallerStays(h, c, caller.(phase := Failing));
    } else if s.loading.Some? && h.loads[s.loading.value].aborted {
      CallerStays(h, c, caller.(phase := Draining(s.loading.value)));
    } else if s.resident.Some? {
      CallerStays(h, c, caller.(phase := Opened(s.resident.value)));
    } else if s.loading.Some? {
      CallerMoves(h, c, caller.(phase := Waiting(s.loading.value)), s.waiters + 1, s.leases);
    } else {
      StartKeepsInv(h, c);
    }
  }

  lemma ArriveKeepsInv(h: Host, i: nat, leasing: bool, lingers: bool)
    requires Inv(h) && Indexed(h) && i < |h.slots|
    ensures Inv(Arrive(h, i, leasing, lingers))
  {
    AdmitKeepsInv(h, i, leasing, lingers);
    EnterKeepsInv(Admit(h, i, leasing, lingers), |h.callers|);
  }

  /** Aborting an open in flight that nobody waits for any more. */
  lemma AbortLoadKeepsInv(h: Host, l: nat)
    requires Inv(h) && l < |h.loads| && h.loads[l].state == Pending
    requires Count(h.callers, WaitTest(h.loads[l].slot)) == 0
    ensures Inv(AbortLoad(h, l))
  {
    var h' := AbortLoad(h, l);
    forall k | 0 <= k < |h.slots| ensures SlotInv(h', k) {
      assert SlotInv(h, k);
    }
    forall k | 0 <= k < |h.loads| ensures LoadInv(h', h'.loads[k], k) {
      assert LoadInv(h, h.loads[k], k);
    }
    CountZero(h.callers, WaitTest(h.loads[l].slot));
    forall k | 0 <= k < |h.callers| ensures CallerInv(h', h'.callers[k]) {
      assert CallerInv(h, h.callers[k]);
      assert !WaitTest(h.loads[l].slot)(h.callers[k]);
    }
    forall p | 0 <= p < |h.pipelines| ensures PipelineInv(h', h'.pipelines[p], p) {
      assert PipelineInv(h, h.pipelines[p], p);
    }
  }

  /** The end of a wait: the caller is no longer counted, and if it was the only one counted and gives
      up, the open in flight is aborted. */
  lemma LeaveWaitKeepsInv(h: Host, c: nat, phase: Phase)
    requires Inv(h) && Indexed(h) && c < |h.callers| && h.callers[c].phase.Waiting?
    requires phase.Failing? || phase.Opened?
    requires CallerInv(h, h.callers[c].(phase := phase))
    ensures var i := h.callers[c].slot;
            var s := h.slots[i];
            var left := SetPhase(SetSlot(h, i, s.(waiters := s.waiters - 1)), c, phase);
            && Inv(left)
            && (s.waiters == 1 && s.loading.Some? ==> s.loading.value < |h.loads| && Inv(AbortLoad(left, s.loading.value)))
  {
    var i := h.callers[c].slot;
    var s := h.slots[i];
    CallerMoves(h, c, h.callers[c].(phase := phase), s.waiters - 1, s.leases);
    var left := SetPhase(SetSlot(h, i, s.(waiters := s.waiters - 1)), c, phase);
    if s.waiters == 1 && s.loading.Some? {
      assert SlotInv(left, i);
      AbortLoadKeepsInv(left, s.loading.value);
    }
  }

  lemma ResumeKeepsInv(h: Host, c: nat)
    requires Inv(h) && Indexed(h) && CanResume(h, c)
    ensures Inv(Resume(h, c))
  {
    var caller := h.callers[c];
    if caller.phase.Draining? {
      EnterKeepsInv(h, c);
    } else {
      assert CallerInv(h, caller) && LoadInv(h, h.loads[caller.phase.load], caller.phase.load);
      var state := h.loads[caller.phase.load].state;
      LeaveWaitKeepsInv(h, c, if state.Published? && !caller.aborted then Opened(state.pipeline) else Failing);
    }
  }

  lemma EndLeaseKeepsInv(h: Host, c: nat)
    requires Inv(h) && Indexed(h) && c < |h.callers| && h.callers[c].leasing
    requires h.callers[c].phase.Opened? || h.callers[c].phase.Failing? || h.callers[c].phase.Holding?
    ensures Inv(EndLease(h, c))
  {
    var caller := h.callers[c];
    var s := h.slots[caller.slot];
    CallerMoves(h, c, caller.(phase := Done), s.waiters, s.leases - 1);
    var h' := SetPhase(SetSlot(h, caller.slot, s.(leases := s.leases - 1)), c, Done);
    InvIsIndexed(h');
    ArmIdleKeepsInv(h', caller.slot, caller.lingers);
  }

  lemma ReturnKeepsInv(h: Host, c: nat)
    requires Inv(h) && Indexed(h) && CanReturn(h, c)
    ensures Inv(Return(h, c))
  {
    var caller := h.callers[c];
    assert CallerInv(h, caller);
    if !caller.leasing {
      CallerStays(h, c, caller.(phase := Done));
    } else if caller.phase.Opened? && !caller.aborted {
      CallerStays(h, c, caller.(phase := Holding(caller.phase.pipeline)));
    } else {
      EndLeaseKeepsInv(h, c);
    }
  }

  /** An open ends without a pipeline, or with one that was disposed at once. */
  lemma LoadFails(h: Host, l: nat, cause: Cause, discarded: seq<Pipeline>)
    requires Inv(h) && Indexed(h) && l < |h.loads| && h.loads[l].state == Pending
    requires cause != Closed && (cause == Aborted ==> h.loads[l].aborted)
    requires discarded == [] || discarded == [Pipeline(h.loads[l].slot, 1)]
    ensures var i := h.loads[l].slot;
            Inv(SetSlot(h, i, h.slots[i].(loading := None))
                .(loads := h.loads[l := h.loads[l].(state := Failed(cause))], pipelines := h.pipelines + discarded))
  {
    var i := h.loads[l].slot;
    var h' := SetSlot(h, i, h.slots[i].(loading := None))
              .(loads := h.loads[l := h.loads[l].(state := Failed(cause))], pipelines := h.pipelines + discarded);
    assert LoadInv(h, h.loads[l], l) && SlotInv(h, i);
    forall k | 0 <= k < |h.slots| ensures SlotInv(h', k) {
      assert SlotInv(h, k);
    }
    forall k | 0 <= k < |h.loads| ensures LoadInv(h', h'.loads[k], k) {
      assert LoadInv(h, h.loads[k], k);
    }
    forall p | 0 <= p < |h'.pipelines| ensures PipelineInv(h', h'.pipelines[p], p) {
      if p < |h.pipelines| {
        assert PipelineInv(h, h.pipelines[p], p);
      }
    }
    forall k | 0 <= k < |h.callers| ensures CallerInv(h', h'.callers[k]) {
      assert CallerInv(h, h.callers[k]);
    }
  }

  lemma LoadPublishes(h: Host, l: nat)
    requires Inv(h) && Indexed(h) && l < |h.loads| && h.loads[l].state == Pending && !h.loads[l].aborted && !h.closed
    ensures Inv(Settle(h, l, Returned))
  {
    var i, h' := h.loads[l].slot, Settle(h, l, Returned);
    assert LoadInv(h, h.loads[l], l) && SlotInv(h, i);
    forall k | 0 <= k < |h.slots| ensures SlotInv(h', k) {
      assert SlotInv(h, k);
    }
    forall k | 0 <= k < |h.loads| ensures LoadInv(h', h'.loads[k], k) {
      assert LoadInv(h, h.loads[k], k);
    }
    forall p | 0 <= p < |h'.pipelines| ensures PipelineInv(h', h'.pipelines[p], p) {
      if p < |h.pipelines| {
        assert PipelineInv(h, h.pipelines[p], p);
      }
    }
    forall k | 0 <= k < |h.callers| ensures CallerInv(h', h'.callers[k]) {
      assert CallerInv(h, h.callers[k]);
    }
  }

  lemma SettleKeepsInv(h: Host, l: nat, outcome: Outcome)
    requires Inv(h) && Indexed(h) && l < |h.loads| && h.loads[l].state == Pending
    ensures Inv(Settle(h, l, outcome))
  {
    assert LoadInv(h, h.loads[l], l);
    if outcome == BackendThrew {
      LoadFails(h, l, Broken, []);
      assert h.pipelines + [] == h.pipelines;
    } else if outcome == RuleThrew {
      LoadFails(h, l, Broken, [Pipeline(h.loads[l].slot, 1)]);
    } else if h.loads[l].aborted {
      LoadFails(h, l, Aborted, [Pipeline(h.loads[l].slot, 1)]);
    } else {
      LoadPublishes(h, l);
    }
  }

  lemma FireTimerKeepsInv(h: Host, i: nat)
    requires Inv(h) && Indexed(h) && i < |h.slots|
    ensures Inv(FireTimer(h, i))
  {
    DisposeKeepsInv(h, i);
    CancelTimerKeepsInv(h, i);
  }

  lemma UnloadKeepsInv(h: Host, i: nat, force: bool)
    requires Inv(h) && Indexed(h) && i < |h.slots|
    ensures Inv(Unload(h, i, force).0)
  {
    DisposeKeepsInv(h, i);
    CancelTimerKeepsInv(h, i);
  }

  lemma PinsKeepInv(h: Host, pinned: set<nat>)
    requires Inv(h)
    ensures Inv(h.(pinned := pinned))
  {
    var h' := h.(pinned := pinned);
    forall k | 0 <= k < |h.slots| ensures SlotInv(h', k) {
      assert SlotInv(h, k);
    }
    forall k | 0 <= k < |h.loads| ensures LoadInv(h', h'.loads[k], k) {
      assert LoadInv(h, h.loads[k], k);
    }
    forall p | 0 <= p < |h.pipelines| ensures PipelineInv(h', h'.pipelines[p], p) {
      assert PipelineInv(h, h.pipelines[p], p);
    }
    forall k | 0 <= k < |h.callers| ensures CallerInv(h', h'.callers[k]) {
      assert CallerInv(h, h.callers[k]);
    }
  }

  lemma AbortCallerKeepsInv(h: Host, c: nat)
    requires Inv(h) && c < |h.callers|
    ensures Inv(h.(callers := h.callers[c := h.callers[c].(aborted := true)]))
  {
    assert CallerInv(h, h.callers[c]);
    CallerStays(h, c, h.callers[c].(aborted := true));
  }

  // ---- Close ----------------------------------------------------------------------------------

  /** Closing marks every open in flight. */
  lemma MarkClosedKeepsInv(h: Host)
    requires Inv(h)
    ensures Inv(h.(closed := true, loads := AbortAll(h)))
  {
    var h' := h.(closed := true, loads := AbortAll(h));
    forall k | 0 <= k < |h.slots| ensures SlotInv(h', k) {
      assert SlotInv(h, k);
    }
    forall k | 0 <= k < |h.loads| ensures LoadInv(h', h'.loads[k], k) {
      assert LoadInv(h, h.loads[k], k);
    }
    forall p | 0 <= p < |h.pipelines| ensures PipelineInv(h', h'.pipelines[p], p) {
      assert PipelineInv(h, h.pipelines[p], p);
    }
    forall k | 0 <= k < |h.callers| ensures CallerInv(h', h'.callers[k]) {
      assert CallerInv(h, h.callers[k]);
    }
  }

  lemma ResidentIsHome(h: Host, i: nat, p: nat)
    requires Inv(h) && i < |h.slots| && p < |h.pipelines|
    ensures var home := h.pipelines[p].home;
            && home < |h.slots|
            && (h.slots[i].resident == Some(p) <==> home == i && h.slots[home].resident == Some(p))
            && (h.slots[i].resident == Some(p) ==> h.pipelines[p].disposals == 0)
  {
    assert SlotInv(h, i) && PipelineInv(h, h.pipelines[p], p);
  }

  lemma ReleaseOneMore(h: Host, s: Slot, i: nat, p: nat)
    requires i < |h.slots| && h.slots[i] == s && (s.resident.Some? ==> s.resident.value < |h.pipelines|) && p < |h.pipelines|
    ensures Dispose(h, i, false).pipelines[p] ==
            if s.resident == Some(p) then h.pipelines[p].(disposals := h.pipelines[p].disposals + 1) else h.pipelines[p]
  {
  }

  /** Releasing the first n slots disposes their pipelines and no other, each one once more. */
  lemma ReleaseAllDisposes(h: Host, n: nat, p: nat)
    requires Inv(h) && Indexed(h) && n <= |h.slots| && p < |h.pipelines|
    ensures var r := ReleaseAll(h, n);
            var home := h.pipelines[p].home;
            r.pipelines[p] == h.pipelines[p].(disposals :=
              if home < n && h.slots[home].resident == Some(p) then 1 else h.pipelines[p].disposals)
  {
    var home := h.pipelines[p].home;
    forall i | 0 <= i < n && h.slots[i].resident == Some(p) ensures i == home && h.pipelines[p].disposals == 0 {
      ResidentIsHome(h, i, p);
    }
    ReleaseFirst(h, n, p, home);
  }

  lemma {:induction false} ReleaseFirst(h: Host, n: nat, p: nat, home: nat)
    requires Indexed(h) && n <= |h.slots| && p < |h.pipelines|
    requires forall i :: 0 <= i < n && h.slots[i].resident == Some(p) ==> i == home
    ensures ReleaseAll(h, n).pipelines[p] == h.pipelines[p].(disposals :=
              h.pipelines[p].disposals + if home < n && h.slots[home].resident == Some(p) then 1 else 0)
  {
    if n > 0 {
      ReleaseFirst(h, n - 1, p, home);
      ReleaseOneMore(ReleaseAll(h, n - 1), h.slots[n - 1], n - 1, p);
    }
  }

  lemma ReleaseAllKeepsInv(h: Host)
    requires Inv(h) && Indexed(h) && h.closed && !Loading(h)
    ensures Inv(ReleaseAll(h, |h.slots|).(settled := true))
  {
    var h' := ReleaseAll(h, |h.slots|).(settled := true);
    forall k | 0 <= k < |h.slots| ensures SlotInv(h', k) {
      assert SlotInv(h, k);
    }
    forall k | 0 <= k < |h.loads| ensures LoadInv(h', h'.loads[k], k) {
      assert LoadInv(h, h.loads[k], k);
      if h.loads[k].state.Published? {
        ReleaseAllDisposes(h, |h.slots|, h.loads[k].state.pipeline);
      }
    }
    forall p | 0 <= p < |h.pipelines| ensures PipelineInv(h', h'.pipelines[p], p) {
      assert PipelineInv(h, h.pipelines[p], p);
      ReleaseAllDisposes(h, |h.slots|, p);
    }
    forall k | 0 <= k < |h.callers| ensures CallerInv(h', h'.callers[k]) {
      var caller := h.callers[k];
      assert CallerInv(h, caller);
      if caller.phase.Opened? || caller.phase.Holding? {
        ReleaseAllDisposes(h, |h.slots|, caller.phase.pipeline);
      }
    }
  }

  lemma CloseKeepsInv(h: Host)
    requires Inv(h) && Indexed(h)
    ensures Inv(Close(h))
  {
    if !h.closed {
      MarkClosedKeepsInv(h);
      var h' := h.(closed := true, loads := AbortAll(h));
      if !Loading(h) {
        assert h'.loads == h.loads;
        InvIsIndexed(h');
        ReleaseAllKeepsInv(h');
      }
    }
  }

  // ---- Runs -----------------------------------------------------------------------------------

  lemma StepKeepsInv(h: Host, step: Step)
    requires Inv(h) && Indexed(h) && Enabled(h, step)
    ensures Inv(Do(h, step))
  {
    match step
    case ArriveStep(i, leasing, lingers) => ArriveKeepsInv(h, i, leasing, lingers);
    case AbortStep(c) => AbortCallerKeepsInv(h, c);
    case ResumeStep(c) => ResumeKeepsInv(h, c);
    case ReturnStep(c) => ReturnKeepsInv(h, c);
    case ReleaseStep(c) => assert CallerInv(h, h.callers[c]); EndLeaseKeepsInv(h, c);
    case SettleStep(l, outcome) => SettleKeepsInv(h, l, outcome);
    case TimerStep(i) => FireTimerKeepsInv(h, i);
    case UnloadStep(i, force) => UnloadKeepsInv(h, i, force);
    case PinStep(i) => CancelTimerKeepsInv(h, i); PinsKeepInv(CancelTimer(h, i), h.pinned + {i});
    case UnpinStep(i) => PinsKeepInv(h, h.pinned - {i});
    case CloseStep => CloseKeepsInv(h);
    case SettleCloseStep => ReleaseAllKeepsInv(h);
  }

  lemma InitialInv(h: Host)
    requires Initial(h)
    ensures Inv(h) && Indexed(h)
  {
  }

  lemma {:induction false} RunKeepsInv(h: Host, steps: seq<Step>)
    requires Inv(h) && Indexed(h) && Legal(h, steps)
    ensures Inv(After(h, steps)) && Indexed(After(h, steps))
    decreases |steps|
  {
    if steps != [] {
      StepKeepsInv(h, steps[0]);
      RunKeepsInv(Do(h, steps[0]), steps[1..]);
    }
  }
}
