/** The image model host with its slots updated in place, each method proved to take the step of the
    state machine from one `await` to the next. */
module ImageModelHosts {
  import opened Wrappers
  import opened ImageHostModel
  import opened ImageHostTheorems

  class HostSlot {
    var resident: Option<nat>
    var loading: Option<nat>
    var waiters: int
    var leases: int
    var timer: bool
    var loads: nat
    var unloads: nat

    constructor ()
      ensures View() == FRESH
    {
      resident, loading, waiters, leases, timer, loads, unloads := None, None, 0, 0, false, 0, 0;
    }

    ghost function View(): Slot
      reads this
    {
      Slot(resident, loading, waiters, leases, timer, loads, unloads)
    }
  }

  // ---- Indices stay in range ------------------------------------------------------------------

  /** A change of one slot and one caller that points at nothing new, or at a new open or pipeline. */
  lemma ChangeIsIndexed(h: Host, h': Host)
    requires Indexed(h) && |h'.slots| == |h.slots| && |h.loads| <= |h'.loads| && |h.pipelines| <= |h'.pipelines|
    requires forall i :: 0 <= i < |h.slots| ==>
               && (h'.slots[i].resident == h.slots[i].resident || h'.slots[i].resident.None? || h'.slots[i].resident.value < |h'.pipelines|)
               && (h'.slots[i].loading == h.slots[i].loading || h'.slots[i].loading.None? || h'.slots[i].loading.value < |h'.loads|)
    requires forall l :: 0 <= l < |h'.loads| ==> if l < |h.loads| then h'.loads[l].slot == h.loads[l].slot else h'.loads[l].slot < |h.slots|
    requires |h'.callers| == |h.callers| && forall c :: 0 <= c < |h.callers| ==>
               && h'.callers[c].slot == h.callers[c].slot
               && (h'.callers[c].phase == h.callers[c].phase
                   || (h'.callers[c].phase.Waiting? && h'.callers[c].phase.load < |h'.loads|)
                   || (h'.callers[c].phase.Draining? && h'.callers[c].phase.load < |h'.loads|)
                   || !(h'.callers[c].phase.Waiting? || h'.callers[c].phase.Draining?))
    ensures Indexed(h')
  {
  }

  lemma AdmitIsIndexed(h: Host, i: nat, leasing: bool, lingers: bool)
    requires Indexed(h) && i < |h.slots|
    ensures Indexed(Admit(h, i, leasing, lingers))
  {
  }

  lemma EnterIsIndexed(h: Host, c: nat)
    requires Indexed(h) && c < |h.callers|
    ensures Indexed(Enter(h, c))
  {
    ChangeIsIndexed(h, Enter(h, c));
  }

  lemma ResumeIsIndexed(h: Host, c: nat)
    requires Indexed(h) && CanResume(h, c)
    ensures Indexed(Resume(h, c))
  {
    if h.callers[c].phase.Draining? {
      EnterIsIndexed(h, c);
    } else {
      ChangeIsIndexed(h, Resume(h, c));
    }
  }

  lemma EndLeaseIsIndexed(h: Host, c: nat)
    requires Indexed(h) && c < |h.callers|
    ensures Indexed(EndLease(h, c))
  {
    ChangeIsIndexed(h, EndLease(h, c));
  }

  lemma ReturnIsIndexed(h: Host, c: nat)
    requires Indexed(h) && CanReturn(h, c)
    ensures Indexed(Return(h, c))
  {
    if h.callers[c].leasing {
      EndLeaseIsIndexed(h, c);
    }
  }

  lemma SettleIsIndexed(h: Host, l: nat, outcome: Outcome)
    requires Indexed(h) && l < |h.loads| && h.loads[l].state == Pending
    ensures Indexed(Settle(h, l, outcome))
  {
    ChangeIsIndexed(h, Settle(h, l, outcome));
  }

  lemma DisposeIsIndexed(h: Host, i: nat, unload: bool)
    requires Indexed(h) && i < |h.slots|
    ensures Indexed(Dispose(h, i, unload)) && Indexed(CancelTimer(h, i))
  {
    ChangeIsIndexed(h, Dispose(h, i, unload));
    ChangeIsIndexed(h, CancelTimer(h, i));
  }

  lemma {:induction false} ReleaseAllIsIndexed(h: Host, n: nat)
    requires Indexed(h) && n <= |h.slots|
    ensures Indexed(ReleaseAll(h, n))
  {
    if n > 0 {
      ReleaseAllIsIndexed(h, n - 1);
      DisposeIsIndexed(ReleaseAll(h, n - 1), n - 1, false);
    }
  }

  lemma CloseIsIndexed(h: Host)
    requires Indexed(h)
    ensures Indexed(Close(h))
  {
    var h' := h.(closed := true, loads := AbortAll(h));
    ChangeIsIndexed(h, h');
    ReleaseAllIsIndexed(h', |h.slots|);
  }

  ghost predicate Distinct(slots: seq<HostSlot>) {
    forall i, j :: 0 <= i < j < |slots| ==> slots[i] != slots[j]
  }

  method Allocate(n: nat) returns (slots: seq<HostSlot>)
    ensures |slots| == n && Distinct(slots)
    ensures forall i :: 0 <= i < n ==> fresh(slots[i]) && slots[i].View() == FRESH
  {
    slots := [];
    for i := 0 to n
      invariant |slots| == i && Distinct(slots)
      invariant forall k :: 0 <= k < i ==> fresh(slots[k]) && slots[k].View() == FRESH
    {
      var slot := new HostSlot();
      slots := slots + [slot];
    }
  }

  /** One slot for each model. `loads`, `pipelines` and `callers` are the promises, native objects and
      suspended calls that the program's closures hold; `views` repeats the slots as values. */
  class ImageModelHost {
    const slots: seq<HostSlot>
    var loads: seq<Load>
    var pipelines: seq<Pipeline>
    var callers: seq<Caller>
    var pinned: set<nat>
    var closed: bool
    var settled: bool
    ghost var views: seq<Slot>

    ghost function State(): Host
      reads this
    {
      Host(views, loads, pipelines, callers, pinned, closed, settled)
    }

    ghost predicate Coupled()
      reads this, slots
    {
      && Distinct(slots) && |views| == |slots|
      && forall i :: 0 <= i < |slots| ==> slots[i].View() == views[i]
    }

    ghost predicate Valid()
      reads this, slots
    {
      Coupled() && Indexed(State())
    }

    constructor (n: nat)
      ensures Valid() && Initial(State()) && |slots| == n
    {
      var all := Allocate(n);
      slots := all;
      loads, pipelines, callers, pinned, closed, settled := [], [], [], {}, false, false;
      views := seq(n, _ => FRESH);
    }

    // ---- The host's helper functions ----------------------------------------------------------

    method CancelTimer(i: nat)
      requires Coupled() && i < |slots|
      modifies this`views, slots[i..i + 1]
      ensures Coupled() && State() == ImageHostModel.CancelTimer(old(State()), i)
    {
      assert slots[i] in slots[i..i + 1];
      slots[i].timer := false;
      views := views[i := slots[i].View()];
    }

    /** Releases the resident pipeline; at close that is not an unload. */
    method Dispose(i: nat, unload: bool) returns (disposed: bool)
      requires Coupled() && i < |slots| && (views[i].resident.Some? ==> views[i].resident.value < |pipelines|)
      modifies this`views, this`pipelines, slots[i..i + 1]
      ensures Coupled() && State() == ImageHostModel.Dispose(old(State()), i, unload)
      ensures disposed == old(views[i]).resident.Some?
    {
      var slot := slots[i];
      assert slot in slots[i..i + 1];
      slot.timer := false;
      disposed := slot.resident.Some?;
      if disposed {
        var p := slot.resident.value;
        pipelines := pipelines[p := pipelines[p].(disposals := pipelines[p].disposals + 1)];
        slot.resident := None;
        if unload {
          slot.unloads := slot.unloads + 1;
        }
      }
      views := views[i := slot.View()];
    }

    method ArmIdle(i: nat, lingers: bool)
      requires Coupled() && i < |slots| && (views[i].resident.Some? ==> views[i].resident.value < |pipelines|)
      modifies this`views, this`pipelines, slots[i..i + 1]
      ensures Coupled() && State() == ImageHostModel.ArmIdle(old(State()), i, lingers)
    {
      assert slots[i] in slots[i..i + 1];
      CancelTimer(i);
      if i in pinned || closed || slots[i].waiters > 0 {
        return;
      }
      if !lingers {
        if slots[i].leases == 0 {
          var disposed := Dispose(i, true);
        }
        return;
      }
      slots[i].timer := true;
      views := views[i := slots[i].View()];
    }

    /** A call of the backend begins; its promise and its controller go into the slot. */
    method StartLoad(i: nat)
      requires Coupled() && i < |slots|
      modifies this`views, this`loads, slots[i..i + 1]
      ensures Coupled()
      ensures State() == SetSlot(old(State()), i, old(views[i]).(loading := Some(|old(loads)|)))
                         .(loads := old(loads) + [Load(i, false, Pending)])
    {
      assert slots[i] in slots[i..i + 1];
      slots[i].loading := Some(|loads|);
      loads := loads + [Load(i, false, Pending)];
      views := views[i := slots[i].View()];
    }

    /** Caller c moves to another phase and the waiters of its slot change by d. */
    method Move(c: nat, i: nat, phase: Phase, d: int)
      requires Coupled() && c < |callers| && i < |slots|
      modifies this`views, this`callers, slots[i..i + 1]
      ensures Coupled()
      ensures State() == SetPhase(SetSlot(old(State()), i, old(views[i]).(waiters := old(views[i]).waiters + d)), c, phase)
    {
      assert slots[i] in slots[i..i + 1];
      slots[i].waiters := slots[i].waiters + d;
      callers := callers[c := callers[c].(phase := phase)];
      views := views[i := slots[i].View()];
    }

    /** Caller c waits for the open of its slot, which it starts if there is none. */
    method JoinOpen(c: nat, i: nat)
      requires Valid() && c < |callers| && callers[c].slot == i && !callers[c].aborted && !closed
      requires views[i].resident.None?
      requires views[i].loading.Some? ==> !loads[views[i].loading.value].aborted
      modifies this`views, this`callers, this`loads, slots[i..i + 1]
      ensures Coupled() && State() == ImageHostModel.Enter(old(State()), c)
    {
      ghost var h := State();
      var slot := slots[i];
      if slot.loading.None? {
        StartLoad(i);
      }
      Move(c, i, Waiting(slot.loading.value), 1);
      assert views == ImageHostModel.Enter(h, c).slots;
    }

    /** ensureOpened, up to its first await. */
    method Enter(c: nat, i: nat)
      requires Valid() && c < |callers| && callers[c].slot == i
      modifies this`views, this`callers, this`loads, slots[i..i + 1]
      ensures Valid() && State() == ImageHostModel.Enter(old(State()), c)
    {
      EnterIsIndexed(State(), c);
      var slot := slots[i];
      if callers[c].aborted || closed {
        callers := callers[c := callers[c].(phase := Failing)];
      } else if slot.loading.Some? && loads[slot.loading.value].aborted {
        callers := callers[c := callers[c].(phase := Draining(slot.loading.value))];
      } else if slot.resident.Some? {
        callers := callers[c := callers[c].(phase := Opened(slot.resident.value))];
      } else {
        JoinOpen(c, i);
      }
    }

    // ---- Calls and continuations --------------------------------------------------------------

    /** A caller of acquire (leasing) or preload that has its slot: reserve, then open. */
    method Arrive(i: nat, leasing: bool, lingers: bool)
      requires Valid() && i < |slots|
      modifies this`views, this`callers, this`loads, slots[i..i + 1]
      ensures Valid() && State() == ImageHostModel.Arrive(old(State()), i, leasing, lingers)
    {
      assert slots[i] in slots[i..i + 1];
      ghost var admitted := Admit(State(), i, leasing, lingers);
      AdmitIsIndexed(State(), i, leasing, lingers);
      if leasing {
        slots[i].timer := false;
        slots[i].leases := slots[i].leases + 1;
      }
      callers := callers + [Caller(i, leasing, lingers, false, Failing)];
      views := views[i := slots[i].View()];
      assert State() == admitted;
      Enter(|callers| - 1, i);
    }

    /** The signal of caller c fires. */
    method Abort(c: nat)
      requires Valid() && c < |callers|
      modifies this`callers
      ensures Valid() && State() == Do(old(State()), AbortStep(c))
    {
      callers := callers[c := callers[c].(aborted := true)];
    }

    /** The wait of caller c has ended. */
    method Resume(c: nat)
      requires Valid() && CanResume(State(), c)
      modifies this`views, this`callers, this`loads, slots[callers[c].slot..callers[c].slot + 1]
      ensures Valid() && State() == ImageHostModel.Resume(old(State()), c)
    {
      ResumeIsIndexed(State(), c);
      var i := callers[c].slot;
      if callers[c].phase.Draining? {
        Enter(c, i);
        return;
      }
      var state := loads[callers[c].phase.load].state;
      if state.Published? && !callers[c].aborted {
        Move(c, i, Opened(state.pipeline), -1);
      } else {
        LeaveEmpty(c, i);
      }
    }

    method LeaveEmpty(c: nat, i: nat)
      requires Coupled() && Indexed(State()) && c < |callers| && callers[c].slot == i
      modifies this`views, this`callers, this`loads, slots[i..i + 1]
      ensures Coupled() && State() == ImageHostModel.LeaveEmpty(old(State()), c)
    {
      if slots[i].waiters == 1 && slots[i].loading.Some? {
        var l := slots[i].loading.value;
        loads := loads[l := loads[l].(aborted := true)];
      }
      Move(c, i, Failing, -1);
    }

    /** The lease of caller c ends and the idle policy of its slot applies. */
    method EndLease(c: nat)
      requires Valid() && c < |callers|
      modifies this`views, this`callers, this`pipelines, slots[callers[c].slot..callers[c].slot + 1]
      ensures Valid() && State() == ImageHostModel.EndLease(old(State()), c)
    {
      EndLeaseIsIndexed(State(), c);
      var i := callers[c].slot;
      assert slots[i] in slots[i..i + 1];
      ghost var h := State();
      slots[i].leases := slots[i].leases - 1;
      callers := callers[c := callers[c].(phase := Done)];
      views := views[i := slots[i].View()];
      assert State() == SetPhase(SetSlot(h, i, h.slots[i].(leases := h.slots[i].leases - 1)), c, Done);
      ArmIdle(i, callers[c].lingers);
    }

    /** acquire or preload goes on after ensureOpened: a lease is returned, or given back. */
    method Return(c: nat) returns (granted: bool)
      requires Valid() && CanReturn(State(), c)
      modifies this`views, this`callers, this`pipelines, slots[callers[c].slot..callers[c].slot + 1]
      ensures Valid() && State() == ImageHostModel.Return(old(State()), c)
      ensures granted == callers[c].phase.Holding?
    {
      ReturnIsIndexed(State(), c);
      var caller := callers[c];
      granted := caller.leasing && caller.phase.Opened? && !caller.aborted;
      if !caller.leasing {
        callers := callers[c := caller.(phase := Done)];
      } else if granted {
        callers := callers[c := caller.(phase := Holding(caller.phase.pipeline))];
      } else {
        EndLease(c);
      }
    }

    /** The opened pipeline of load l becomes resident. */
    method Keep(l: nat)
      requires Coupled() && l < |loads| && loads[l].slot < |slots|
      modifies this`views, this`loads, this`pipelines, slots[loads[l].slot..loads[l].slot + 1]
      ensures Coupled()
      ensures var h, i, p := old(State()), old(loads[l].slot), |old(pipelines)|;
              State() == SetSlot(h, i, h.slots[i].(loading := None, resident := Some(p), loads := h.slots[i].loads + 1))
                         .(loads := h.loads[l := h.loads[l].(state := Published(p))], pipelines := h.pipelines + [Pipeline(i, 0)])
    {
      var i, p := loads[l].slot, |pipelines|;
      assert slots[i] in slots[i..i + 1];
      slots[i].loading, slots[i].resident, slots[i].loads := None, Some(p), slots[i].loads + 1;
      loads := loads[l := loads[l].(state := Published(p))];
      pipelines := pipelines + [Pipeline(i, 0)];
      views := views[i := slots[i].View()];
    }

    /** Load l failed; a pipeline that the backend had returned is disposed. */
    method GiveUp(l: nat, cause: Cause, returned: bool)
      requires Coupled() && l < |loads| && loads[l].slot < |slots|
      modifies this`views, this`loads, this`pipelines, slots[loads[l].slot..loads[l].slot + 1]
      ensures Coupled()
      ensures var h, i := old(State()), old(loads[l].slot);
              State() == SetSlot(h, i, h.slots[i].(loading := None))
                         .(loads := h.loads[l := h.loads[l].(state := Failed(cause))],
                           pipelines := if returned then h.pipelines + [Pipeline(i, 1)] else h.pipelines)
    {
      var i := loads[l].slot;
      assert slots[i] in slots[i..i + 1];
      slots[i].loading := None;
      loads := loads[l := loads[l].(state := Failed(cause))];
      if returned {
        pipelines := pipelines + [Pipeline(i, 1)];
      }
      views := views[i := slots[i].View()];
    }

    /** `backend.load` and the stage rule after it are done. */
    method Settle(l: nat, outcome: Outcome)
      requires Valid() && l < |loads| && loads[l].state == Pending
      modifies this`views, this`loads, this`pipelines, slots[loads[l].slot..loads[l].slot + 1]
      ensures Valid() && State() == ImageHostModel.Settle(old(State()), l, outcome)
    {
      SettleIsIndexed(State(), l, outcome);
      if outcome == BackendThrew {
        GiveUp(l, Broken, false);
      } else if outcome == RuleThrew {
        GiveUp(l, Broken, true);
      } else if loads[l].aborted {
        GiveUp(l, Aborted, true);
      } else if closed {
        GiveUp(l, Closed, true);
      } else {
        Keep(l);
      }
    }

    method FireTimer(i: nat)
      requires Valid() && i < |slots|
      modifies this`views, this`pipelines, slots[i..i + 1]
      ensures Valid() && State() == ImageHostModel.FireTimer(old(State()), i)
    {
      DisposeIsIndexed(State(), i, true);
      if slots[i].leases == 0 {
        var disposed := Dispose(i, true);
      } else {
        CancelTimer(i);
      }
    }

    /** Throws if the model is in use, unless forced. */
    method Unload(i: nat, force: bool) returns (inUse: bool)
      requires Valid() && i < |slots|
      modifies this`views, this`pipelines, slots[i..i + 1]
      ensures Valid() && (State(), inUse) == ImageHostModel.Unload(old(State()), i, force)
    {
      DisposeIsIndexed(State(), i, true);
      ghost var h := State();
      CancelTimer(i);
      inUse := false;
      if slots[i].resident.None? {
        return;
      }
      if slots[i].leases > 0 && !force {
        return true;
      }
      var disposed := Dispose(i, true);
      assert views == ImageHostModel.Dispose(h, i, true).slots;
    }

    method Pin(i: nat)
      requires Valid() && i < |slots|
      modifies this`views, this`pinned, slots[i..i + 1]
      ensures Valid() && State() == ImageHostModel.Pin(old(State()), i)
    {
      DisposeIsIndexed(State(), i, true);
      pinned := pinned + {i};
      CancelTimer(i);
    }

    method Unpin(i: nat)
      requires Valid()
      modifies this`pinned
      ensures Valid() && State() == ImageHostModel.Unpin(old(State()), i)
    {
      pinned := pinned - {i};
    }

    // ---- Close --------------------------------------------------------------------------------

    method ReleaseSlot(slot: HostSlot, i: nat, ghost h: Host)
      requires Coupled() && i < |slots| == |h.slots| && slots[i] == slot
      requires forall k :: 0 <= k < |h.slots| && h.slots[k].resident.Some? ==> h.slots[k].resident.value < |h.pipelines|
      requires State() == ReleaseAll(h, i)
      modifies this`views, this`pipelines, slot
      ensures Coupled() && State() == ReleaseAll(h, i + 1)
    {
      assert views[i] == h.slots[i];
      var disposed := Dispose(i, false);
    }

    method ReleaseSlots()
      requires Coupled()
      requires forall i :: 0 <= i < |views| && views[i].resident.Some? ==> views[i].resident.value < |pipelines|
      modifies this`views, this`pipelines, slots
      ensures Coupled() && State() == ReleaseAll(old(State()), |slots|)
    {
      ghost var h := State();
      for i := 0 to |slots|
        invariant Coupled() && State() == ReleaseAll(h, i)
      {
        ReleaseSlot(slots[i], i, h);
      }
    }

    /** Closes the host: no open starts from here on, those in flight are aborted, and if there are none
        every pipeline is released at once. Calling it again changes nothing. */
    method Close()
      requires Valid()
      modifies this`views, this`loads, this`pipelines, this`closed, this`settled, slots
      ensures Valid() && State() == ImageHostModel.Close(old(State()))
    {
      CloseIsIndexed(State());
      if closed {
        return;
      }
      closed := true;
      var waiting := AbortOpens();
      if !waiting {
        ReleaseSlots();
        settled := true;
      }
    }

    /** Aborts every open in flight and tells whether there was one. */
    method AbortOpens() returns (found: bool)
      requires Coupled()
      modifies this`loads
      ensures loads == AbortAll(old(State())) && found == Loading(old(State()))
    {
      found := false;
      for l := 0 to |loads|
        invariant |loads| == |old(loads)|
        invariant forall k :: 0 <= k < |loads| ==>
          loads[k] == if k < l && old(loads)[k].state == Pending then old(loads)[k].(aborted := true) else old(loads)[k]
        invariant found == exists k :: 0 <= k < l && old(loads)[k].state == Pending
      {
        if loads[l].state == Pending {
          found := true;
          loads := loads[l := loads[l].(aborted := true)];
        }
      }
    }

    /** The opens that close waited for have settled. */
    method SettleClose()
      requires Valid() && CanSettleClose(State())
      modifies this`views, this`pipelines, this`settled, slots
      ensures Valid() && State() == ImageHostModel.SettleClose(old(State()))
    {
      ReleaseAllIsIndexed(State(), |slots|);
      ReleaseSlots();
      settled := true;
    }
  }
}
