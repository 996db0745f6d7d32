/** The text-to-image model host of packages/app-services/src/image-model-host.ts as a state machine.

    An async function runs without interruption from one `await` to the next; each such stretch is a
    step, and the steps of all callers, of the opens in flight and of the timers interleave freely.
    Only the promise reactions between publishing an opened pipeline and clearing `slot.loading`
    are taken together. */
module ImageHostModel {
  import opened Wrappers

  /** Why an open failed: the backend or the stage rule threw, its last waiter had left, or the host
      had closed. */
  datatype Cause = Broken | Aborted | Closed

  datatype LoadState = Pending | Published(pipeline: nat) | Failed(cause: Cause)

  /** One call of `backend.load`, with the abort flag of its controller. */
  datatype Load = Load(slot: nat, aborted: bool, state: LoadState)

  /** A pipeline that the backend returned, the slot it was opened for, and how often it was disposed. */
  datatype Pipeline = Pipeline(home: nat, disposals: nat)

  datatype Slot = Slot(resident: Option<nat>, loading: Option<nat>, waiters: int, leases: int, timer: bool,
                       loads: nat, unloads: nat)

  /** Where a caller of `acquire` or `preload` is. */
  datatype Phase =
    | Waiting(load: nat)      // in ensureOpened, counted in loadingWaiters
    | Draining(load: nat)     // in ensureOpened, waiting for an aborted open to settle
    | Opened(pipeline: nat)   // ensureOpened has resolved, its caller has not resumed
    | Failing                 // ensureOpened has rejected, its caller has not resumed
    | Holding(pipeline: nat)  // acquire has returned a lease that is not released
    | Done                    // lease released, preload finished, or rejected

  /** `lingers` says whether the keep-alive time of this caller is positive. */
  datatype Caller = Caller(slot: nat, leasing: bool, lingers: bool, aborted: bool, phase: Phase)

  /** `settled` is set once the promise returned by close has run its release. */
  datatype Host = Host(slots: seq<Slot>, loads: seq<Load>, pipelines: seq<Pipeline>, callers: seq<Caller>,
                       pinned: set<nat>, closed: bool, settled: bool)

  const FRESH := Slot(None, None, 0, 0, false, 0, 0)

  predicate Initial(h: Host) {
    && (forall i :: 0 <= i < |h.slots| ==> h.slots[i] == FRESH)
    && h.loads == [] && h.pipelines == [] && h.callers == [] && !h.closed && !h.settled
  }

  /** Does this caller hold a lease of slot i, reserved or granted? */
  predicate OnLease(c: Caller, i: nat) { c.slot == i && c.leasing && c.phase != Done }

  predicate OnWait(c: Caller, i: nat) { c.slot == i && c.phase.Waiting? }

  /** All indices point at something. */
  predicate Indexed(h: Host) {
    && (forall i :: 0 <= i < |h.slots| ==>
          && (h.slots[i].resident.Some? ==> h.slots[i].resident.value < |h.pipelines|)
          && (h.slots[i].loading.Some? ==> h.slots[i].loading.value < |h.loads|))
    && (forall l :: 0 <= l < |h.loads| ==> h.loads[l].slot < |h.slots|)
    && (forall c :: 0 <= c < |h.callers| ==>
          && h.callers[c].slot < |h.slots|
          && (h.callers[c].phase.Waiting? ==> h.callers[c].phase.load < |h.loads|)
          && (h.callers[c].phase.Draining? ==> h.callers[c].phase.load < |h.loads|))
  }

  // ---- Pieces of the host's functions ---------------------------------------------------------

  function SetSlot(h: Host, i: nat, s: Slot): Host
    requires i < |h.slots|
  {
    h.(slots := h.slots[i := s])
  }

  function SetPhase(h: Host, c: nat, phase: Phase): Host
    requires c < |h.callers|
  {
    h.(callers := h.callers[c := h.callers[c].(phase := phase)])
  }

  function CancelTimer(h: Host, i: nat): Host
    requires i < |h.slots|
  {
    SetSlot(h, i, h.slots[i].(timer := false))
  }

  /** Releases the resident pipeline, if there is one. */
  function Dispose(h: Host, i: nat, unload: bool): Host
    requires i < |h.slots| && (h.slots[i].resident.Some? ==> h.slots[i].resident.value < |h.pipelines|)
  {
    var s := h.slots[i].(timer := false);
    if s.resident.None? then SetSlot(h, i, s)
    else
      var p := s.resident.value;
      SetSlot(h, i, s.(resident := None, unloads := if unload then s.unloads + 1 else s.unloads))
      .(pipelines := h.pipelines[p := h.pipelines[p].(disposals := h.pipelines[p].disposals + 1)])
  }

  /** The idle policy after a lease ended: keep, unload now, or unload later. */
  function ArmIdle(h: Host, i: nat, lingers: bool): Host
    requires i < |h.slots| && (h.slots[i].resident.Some? ==> h.slots[i].resident.value < |h.pipelines|)
  {
    var h' := CancelTimer(h, i);
    if i in h.pinned || h.closed || h.slots[i].waiters > 0 then h'
    else if lingers then SetSlot(h', i, h'.slots[i].(timer := true))
    else if h.slots[i].leases == 0 then Dispose(h', i, true)
    else h'
  }

  /** ensureOpened from its start to its first `await`. */
  function Enter(h: Host, c: nat): Host
    requires Indexed(h) && c < |h.callers|
  {
    var i := h.callers[c].slot;
    var s := h.slots[i];
    if h.callers[c].aborted || h.closed then SetPhase(h, c, Failing)
    else if s.loading.Some? && h.loads[s.loading.value].aborted then SetPhase(h, c, Draining(s.loading.value))
    else if s.resident.Some? then SetPhase(h, c, Opened(s.resident.value))
    else if s.loading.Some? then
      SetPhase(SetSlot(h, i, s.(waiters := s.waiters + 1)), c, Waiting(s.loading.value))
    else
      var l := |h.loads|;
      SetPhase(SetSlot(h, i, s.(waiters := s.waiters + 1, loading := Some(l))), c, Waiting(l))
      .(loads := h.loads + [Load(i, false, Pending)])
  }

  function AbortLoad(h: Host, l: nat): Host
    requires l < |h.loads|
  {
    h.(loads := h.loads[l := h.loads[l].(aborted := true)])
  }

  // ---- Calls and continuations ----------------------------------------------------------------

  /** A caller joins; one of acquire (leasing) reserves its lease and stops the idle timer. */
  function Admit(h: Host, i: nat, leasing: bool, lingers: bool): Host
    requires i < |h.slots|
  {
    var s := h.slots[i];
    SetSlot(h, i, if leasing then s.(timer := false, leases := s.leases + 1) else s)
    .(callers := h.callers + [Caller(i, leasing, lingers, false, Failing)])
  }

  /** A caller of acquire or preload has its slot: reserve, then open. */
  function Arrive(h: Host, i: nat, leasing: bool, lingers: bool): Host
    requires Indexed(h) && i < |h.slots|
  {
    Enter(Admit(h, i, leasing, lingers), |h.callers|)
  }

  /** May the wait of caller c end: has the open settled, or has the caller's signal fired? */
  predicate CanResume(h: Host, c: nat)
    requires Indexed(h)
  {
    && c < |h.callers|
    && (h.callers[c].phase.Waiting? || h.callers[c].phase.Draining?)
    && (h.callers[c].aborted || h.loads[h.callers[c].phase.load].state != Pending)
  }

  function StopWaiting(h: Host, i: nat): Host
    requires i < |h.slots|
  {
    SetSlot(h, i, h.slots[i].(waiters := h.slots[i].waiters - 1))
  }

  /** A waiter leaves without a pipeline; the last one to leave aborts the open, if it is in flight. */
  function LeaveEmpty(h: Host, c: nat): Host
    requires Indexed(h) && c < |h.callers|
  {
    var i := h.callers[c].slot;
    var s := h.slots[i];
    if s.waiters == 1 && s.loading.Some? then SetPhase(AbortLoad(StopWaiting(h, i), s.loading.value), c, Failing)
    else SetPhase(StopWaiting(h, i), c, Failing)
  }

  /** The wait of caller c ends: what its open published, a fresh start, or nothing. */
  function Resume(h: Host, c: nat): Host
    requires Indexed(h) && CanResume(h, c)
  {
    var caller := h.callers[c];
    if caller.phase.Draining? then Enter(h, c)
    else
      var state := h.loads[caller.phase.load].state;
      if state.Published? && !caller.aborted then SetPhase(StopWaiting(h, caller.slot), c, Opened(state.pipeline))
      else LeaveEmpty(h, c)
  }

  predicate CanReturn(h: Host, c: nat) {
    c < |h.callers| && (h.callers[c].phase.Opened? || h.callers[c].phase.Failing?)
  }

  /** acquire or preload resumes after ensureOpened: a lease is returned, or given back. */
  function Return(h: Host, c: nat): Host
    requires Indexed(h) && CanReturn(h, c)
  {
    var caller := h.callers[c];
    if !caller.leasing then SetPhase(h, c, Done)
    else if caller.phase.Opened? && !caller.aborted then SetPhase(h, c, Holding(caller.phase.pipeline))
    else EndLease(h, c)
  }

  function EndLease(h: Host, c: nat): Host
    requires Indexed(h) && c < |h.callers|
  {
    var i := h.callers[c].slot;
    ArmIdle(SetPhase(SetSlot(h, i, h.slots[i].(leases := h.slots[i].leases - 1)), c, Done), i, h.callers[c].lingers)
  }

  /** What `backend.load`, and the stage rule after it, did. */
  datatype Outcome = BackendThrew | RuleThrew | Returned

  function Settle(h: Host, l: nat, outcome: Outcome): Host
    requires Indexed(h) && l < |h.loads| && h.loads[l].state == Pending
  {
    var i, p := h.loads[l].slot, |h.pipelines|;
    var cause := if outcome != Returned then Broken else if h.loads[l].aborted then Aborted else Closed;
    var cleared := h.slots[i].(loading := None);
    if outcome == BackendThrew then
      SetSlot(h, i, cleared).(loads := h.loads[l := h.loads[l].(state := Failed(Broken))])
    else if outcome == RuleThrew || h.loads[l].aborted || h.closed then
      SetSlot(h, i, cleared).(loads := h.loads[l := h.loads[l].(state := Failed(cause))],
                              pipelines := h.pipelines + [Pipeline(i, 1)])
    else
      SetSlot(h, i, cleared.(resident := Some(p), loads := h.slots[i].loads + 1))
      .(loads := h.loads[l := h.loads[l].(state := Published(p))], pipelines := h.pipelines + [Pipeline(i, 0)])
  }

  function FireTimer(h: Host, i: nat): Host
    requires Indexed(h) && i < |h.slots|
  {
    if h.slots[i].leases == 0 then Dispose(h, i, true) else CancelTimer(h, i)
  }

  /** The second result says whether the call was refused because the model is in use. */
  function Unload(h: Host, i: nat, force: bool): (Host, bool)
    requires Indexed(h) && i < |h.slots|
  {
    if h.slots[i].resident.None? then (CancelTimer(h, i), false)
    else if h.slots[i].leases > 0 && !force then (CancelTimer(h, i), true)
    else (Dispose(h, i, true), false)
  }

  function Pin(h: Host, i: nat): Host
    requires i < |h.slots|
  {
    CancelTimer(h, i).(pinned := h.pinned + {i})
  }

  function Unpin(h: Host, i: nat): Host {
    h.(pinned := h.pinned - {i})
  }

  // ---- Close ----------------------------------------------------------------------------------

  /** Every slot of the first n released; a release at close is not an unload. */
  function ReleaseAll(h: Host, n: nat): (r: Host)
    requires n <= |h.slots|
    requires forall i :: 0 <= i < |h.slots| && h.slots[i].resident.Some? ==> h.slots[i].resident.value < |h.pipelines|
    ensures r == h.(slots := r.slots, pipelines := r.pipelines)
    ensures |r.slots| == |h.slots| && |r.pipelines| == |h.pipelines|
    ensures forall i :: 0 <= i < |h.slots| ==>
              r.slots[i] == if i < n then h.slots[i].(resident := None, timer := false) else h.slots[i]
  {
    if n == 0 then h else Dispose(ReleaseAll(h, n - 1), n - 1, false)
  }

  /** The opens in flight, aborted. */
  function AbortAll(h: Host): (loads: seq<Load>)
    ensures |loads| == |h.loads|
    ensures forall l :: 0 <= l < |loads| ==>
              loads[l] == if h.loads[l].state == Pending then h.loads[l].(aborted := true) else h.loads[l]
  {
    seq(|h.loads|, l requires 0 <= l < |h.loads| =>
      if h.loads[l].state == Pending then h.loads[l].(aborted := true) else h.loads[l])
  }

  predicate Loading(h: Host) {
    exists l :: 0 <= l < |h.loads| && h.loads[l].state == Pending
  }

  function Close(h: Host): Host
    requires Indexed(h)
  {
    if h.closed then h
    else
      var h' := h.(closed := true, loads := AbortAll(h));
      if Loading(h) then h' else ReleaseAll(h', |h.slots|).(settled := true)
  }

  predicate CanSettleClose(h: Host) {
    h.closed && !h.settled && !Loading(h)
  }

  function SettleClose(h: Host): Host
    requires Indexed(h) && CanSettleClose(h)
  {
    ReleaseAll(h, |h.slots|).(settled := true)
  }

  // ---- Runs -----------------------------------------------------------------------------------

  datatype Step =
    | ArriveStep(slot: nat, leasing: bool, lingers: bool)
    | AbortStep(caller: nat)
    | ResumeStep(caller: nat)
    | ReturnStep(caller: nat)
    | ReleaseStep(caller: nat)
    | SettleStep(load: nat, outcome: Outcome)
    | TimerStep(slot: nat)
    | UnloadStep(slot: nat, force: bool)
    | PinStep(slot: nat)
    | UnpinStep(slot: nat)
    | CloseStep
    | SettleCloseStep

  predicate Enabled(h: Host, step: Step)
    requires Indexed(h)
  {
    match step
    case ArriveStep(i, _, _) => i < |h.slots|
    case AbortStep(c) => c < |h.callers|
    case ResumeStep(c) => CanResume(h, c)
    case ReturnStep(c) => CanReturn(h, c)
    case ReleaseStep(c) => c < |h.callers| && h.callers[c].phase.Holding?
    case SettleStep(l, _) => l < |h.loads| && h.loads[l].state == Pending
    case TimerStep(i) => i < |h.slots| && h.slots[i].timer
    case UnloadStep(i, _) => i < |h.slots|
    case PinStep(i) => i < |h.slots|
    case UnpinStep(i) => true
    case CloseStep => true
    case SettleCloseStep => CanSettleClose(h)
  }

  function Do(h: Host, step: Step): Host
    requires Indexed(h) && Enabled(h, step)
  {
    match step
    case ArriveStep(i, leasing, lingers) => Arrive(h, i, leasing, lingers)
    case AbortStep(c) => h.(callers := h.callers[c := h.callers[c].(aborted := true)])
    case ResumeStep(c) => Resume(h, c)
    case ReturnStep(c) => Return(h, c)
    case ReleaseStep(c) => EndLease(h, c)
    case SettleStep(l, outcome) => Settle(h, l, outcome)
    case TimerStep(i) => FireTimer(h, i)
    case UnloadStep(i, force) => Unload(h, i, force).0
    case PinStep(i) => Pin(h, i)
    case UnpinStep(i) => Unpin(h, i)
    case CloseStep => Close(h)
    case SettleCloseStep => SettleClose(h)
  }

  predicate Legal(h: Host, steps: seq<Step>)
    requires Indexed(h)
    decreases |steps|
  {
    steps == [] || (Enabled(h, steps[0]) && Indexed(Do(h, steps[0])) && Legal(Do(h, steps[0]), steps[1..]))
  }

  function After(h: Host, steps: seq<Step>): Host
    requires Indexed(h) && Legal(h, steps)
    decreases |steps|
  {
    if steps == [] then h else After(Do(h, steps[0]), steps[1..])
  }
}
