/** The expert I/O pool of packages/inference/native/expert-io.c as a state machine.

    Every critical section of the C code is one step. A worker thread copies file bytes into a slot
    buffer outside the mutex, so each `pread` is a step of its own that may copy any number of
    bytes up to what was asked for. Threads interleave freely: a run is any sequence of enabled steps. */
module ExpertIoModel {
  import opened Words

  const MAX_SEGMENTS := 8
  const SSIZE_MAX := INT64_MAX

  datatype SlotState = Idle | Loading | Ready | Leased

  /** io_slot, without its buffer. */
  datatype Slot = Slot(generation: uint64, length: nat, state: SlotState, error: Status,
                       cancelled: bool, gpuLease: bool, wired: bool)

  /** One extent of a load: `length` bytes of a file from `offset`, to be placed at `destination`. */
  datatype Segment = Segment(file: uint32, offset: uint64, destination: uint64, length: uint64) {
    function Len(): nat { length as int }
    function Src(): nat { offset as int }
    function Dst(): nat { destination as int }
    function End(): nat { Dst() + Len() }
  }

  datatype Job = Job(slot: nat, generation: uint64, segments: seq<Segment>)

  /** The local variables of a worker between two `pread` calls: the segment it is in, the bytes of
      that segment already copied, the extent so far and the error of the last segment. */
  datatype Task = Task(job: Job, index: nat, copied: nat, extent: nat, error: Status)

  datatype Worker = Resting | Busy(task: Task) | Exited

  /** What never changes after the pool is opened: the bytes of its files and the size of a slot buffer. */
  datatype Config = Config(files: seq<seq<byte>>, capacity: uint64) {
    function Capacity(): nat { capacity as int }
  }

  /** `requested[i]` is not a field of the C pool: it remembers the segments of the last submission
      that slot i accepted, so that the contents of a buffer can be compared with them. */
  datatype State = State(slots: seq<Slot>, buffers: seq<seq<byte>>, requested: seq<seq<Segment>>,
                         queue: seq<Job>, workers: seq<Worker>, wireSlots: bool, stopping: bool)

  // ---- Validation of a submission -------------------------------------------------------------

  /** Do two segments write a common byte? */
  predicate Overlap(a: Segment, b: Segment) {
    a.Dst() < b.End() && b.Dst() < a.End()
  }

  /** What a valid load is: every segment names an open file and a nonempty range of offsets that
      the system accepts, stays inside the slot buffer, and no two segments write the same byte. */
  predicate WellFormed(c: Config, segments: seq<Segment>) {
    && (forall i :: 0 <= i < |segments| ==> Fits(c, segments[i]))
    && (forall i, j :: 0 <= i < j < |segments| ==> !Overlap(segments[j], segments[i]))
  }

  predicate Fits(c: Config, g: Segment) {
    && g.file as int < |c.files|
    && 0 < g.Len()
    && g.Src() + g.Len() <= INT64_MAX
    && g.End() <= c.Capacity()
  }

  /** The first check that segment i fails, in the order of the C code, or Ok. */
  function SegmentError(c: Config, segments: seq<Segment>, i: nat): Status
    requires i < |segments|
  {
    var g := segments[i];
    if g.file as int >= |c.files| || g.Len() == 0 then EINVAL
    else if g.Src() > INT64_MAX || g.Len() > INT64_MAX - g.Src() then EOVERFLOW
    else if g.Dst() > c.Capacity() || g.Len() > c.Capacity() - g.Dst() then EBUSY
    else if exists j :: 0 <= j < i && Overlap(g, segments[j]) then EINVAL
    else Ok
  }

  /** The verdict on the segments from index i on: the error of the first bad one. */
  function Validate(c: Config, segments: seq<Segment>, i: nat): Status
    requires i <= |segments|
    decreases |segments| - i
  {
    if i == |segments| then Ok
    else if SegmentError(c, segments, i) != Ok then SegmentError(c, segments, i)
    else Validate(c, segments, i + 1)
  }

  /** The largest segment end. */
  function Extent(segments: seq<Segment>): nat {
    if segments == [] then 0
    else
      var rest := Extent(segments[..|segments| - 1]);
      var end := segments[|segments| - 1].End();
      if end > rest then end else rest
  }

  // ---- Client operations ----------------------------------------------------------------------

  function Submit(c: Config, s: State, slot: nat, generation: uint64, segments: seq<Segment>, mlock: Status): (State, Status)
    requires Sized(c, s)
  {
    if slot >= |s.slots| || generation == 0 || segments == [] || |segments| > MAX_SEGMENTS then (s, EINVAL)
    else if Validate(c, segments, 0) != Ok then (s, Validate(c, segments, 0))
    else
      var was := s.slots[slot];
      if Extent(segments) > c.Capacity() || was.state == Loading || was.state == Leased then (s, EBUSY)
      else if |s.queue| == 2 * |s.slots| then (s, EAGAIN)
      else if s.wireSlots && !was.wired && mlock != Ok then (s, mlock)
      else
        var slot' := was.(generation := generation, length := 0, error := Ok, cancelled := false, state := Loading,
                          wired := was.wired || s.wireSlots);
        (s.(slots := s.slots[slot := slot'], requested := s.requested[slot := segments],
            queue := s.queue + [Job(slot, generation, segments)]), Ok)
  }

  function Cancel(s: State, slot: nat, generation: uint64): (State, Status) {
    if slot >= |s.slots| then (s, EINVAL)
    else
      var was := s.slots[slot];
      if was.generation != generation then (s, ESTALE)
      else if was.state == Loading then (s.(slots := s.slots[slot := was.(cancelled := true)]), Ok)
      else if was.state == Ready then (s.(slots := s.slots[slot := was.(error := ECANCELED, length := 0)]), Ok)
      else (s, EBUSY)
  }

  function Lease(s: State, slot: nat, generation: uint64, gpu: bool): (State, Status) {
    if slot >= |s.slots| then (s, EINVAL)
    else
      var was := s.slots[slot];
      if was.generation != generation then (s, ESTALE)
      else if was.state != Ready || was.error != Ok then (s, EBUSY)
      else (s.(slots := s.slots[slot := was.(state := Leased, gpuLease := gpu)]), Ok)
  }

  function Release(s: State, slot: nat, generation: uint64, gpuFenced: bool): (State, Status) {
    if slot >= |s.slots| then (s, EINVAL)
    else
      var was := s.slots[slot];
      if was.generation != generation then (s, ESTALE)
      else if was.state != Leased then (s, EINVAL)
      else if was.gpuLease && !gpuFenced then (s, EBUSY)
      else (s.(slots := s.slots[slot := was.(state := Ready, gpuLease := false)]), Ok)
  }

  /** `munlock` and `madvise` are what those calls report; once `madvise` has succeeded the buffer
      may hold anything, here `contents`. */
  function Discard(s: State, slot: nat, generation: uint64, munlock: Status, madvise: Status, contents: seq<byte>): (State, Status)
    requires |s.buffers| == |s.slots|
  {
    if slot >= |s.slots| || generation == 0 then (s, EINVAL)
    else
      var was := s.slots[slot];
      if was.generation != generation then (s, ESTALE)
      else if was.state != Ready then (s, EBUSY)
      else if was.wired && munlock != Ok then (s, munlock)
      else if madvise != Ok then (s.(slots := s.slots[slot := was.(wired := false)]), madvise)
      else
        (s.(slots := s.slots[slot := Slot(was.generation, 0, Idle, Ok, false, false, false)],
            buffers := s.buffers[slot := contents]), Ok)
  }

  function SetWiring(s: State, enabled: bool): (State, Status) {
    if s.queue != [] || exists i :: 0 <= i < |s.slots| && (s.slots[i].state == Loading || s.slots[i].state == Leased)
    then (s, EBUSY)
    else (s.(wireSlots := enabled), Ok)
  }

  /** The part of close before it joins the threads. */
  function Close(s: State): (State, Status) {
    if exists i :: 0 <= i < |s.slots| && s.slots[i].state == Leased then (s, EBUSY)
    else (s.(stopping := true), Ok)
  }

  /** What `poll` reports; `wait` reports the same once it is no longer EAGAIN. */
  function Poll(s: State, slot: nat, generation: uint64): Status {
    if slot >= |s.slots| then EINVAL
    else if s.slots[slot].generation != generation then ESTALE
    else if s.slots[slot].state == Loading then EAGAIN
    else s.slots[slot].error
  }

  /** Does `ptr` hand out the address of this slot's buffer? */
  predicate Obtainable(s: State, slot: nat, generation: uint64) {
    slot < |s.slots| && s.slots[slot].state == Leased && s.slots[slot].generation == generation
  }

  // ---- Worker steps ---------------------------------------------------------------------------

  /** The segment a busy worker is copying, while it has not failed. */
  predicate Copying(t: Task) {
    t.error == Ok && t.index < |t.job.segments|
  }

  predicate CanTake(s: State, w: nat) {
    w < |s.workers| && s.workers[w].Resting? && s.queue != []
  }

  function Take(s: State, w: nat): State
    requires CanTake(s, w)
  {
    s.(queue := s.queue[1..], workers := s.workers[w := Busy(Task(s.queue[0], 0, 0, 0, Ok))])
  }

  /** `bytes` written into `buffer` at position `at`. */
  function Overwrite(buffer: seq<byte>, at: nat, bytes: seq<byte>): (r: seq<byte>)
    requires at + |bytes| <= |buffer|
    ensures |r| == |buffer|
    ensures forall k :: 0 <= k < |buffer| ==> r[k] == if at <= k < at + |bytes| then bytes[k - at] else buffer[k]
  {
    buffer[..at] + bytes + buffer[at + |bytes|..]
  }

  /** A worker's variables once the segment it is in ended with `error`. */
  function EndSegment(t: Task, error: Status): Task
    requires Copying(t)
  {
    var end := t.job.segments[t.index].End();
    Task(t.job, if error == Ok then t.index + 1 else t.index, 0, if end > t.extent then end else t.extent, error)
  }

  /** Is there room, in the segment, the file and the buffer, for n more bytes of the current segment? */
  predicate RoomFor(c: Config, buffer: seq<byte>, t: Task, n: nat) {
    && Copying(t)
    && var g := t.job.segments[t.index];
       && g.file as int < |c.files|
       && t.copied + n <= g.Len()
       && (n > 0 ==> g.Src() + t.copied + n <= |c.files[g.file]|)
       && g.Dst() + t.copied + n <= |buffer|
  }

  /** The buffer after the next n bytes of the current segment were copied from its file. */
  function Copied(c: Config, buffer: seq<byte>, t: Task, n: nat): (r: seq<byte>)
    requires n > 0 && RoomFor(c, buffer, t, n)
    ensures |r| == |buffer|
  {
    var g := t.job.segments[t.index];
    var from := g.Src() + t.copied;
    Overwrite(buffer, g.Dst() + t.copied, c.files[g.file][from..from + n])
  }

  function Advance(t: Task, n: nat): Task
    requires Copying(t)
  {
    if t.copied + n == t.job.segments[t.index].Len() then EndSegment(t, Ok) else t.(copied := t.copied + n)
  }

  /** May `pread` return n here? It never returns more than it was asked for or than the file holds. */
  predicate CanRead(c: Config, s: State, w: nat, n: nat) {
    && w < |s.workers| && s.workers[w].Busy?
    && s.workers[w].task.job.slot < |s.buffers|
    && RoomFor(c, s.buffers[s.workers[w].task.job.slot], s.workers[w].task, n)
    && n <= SSIZE_MAX
  }

  /** One `pread` that returned n: zero ends the load with ENODATA, a positive n moves on. */
  function Read(c: Config, s: State, w: nat, n: nat): State
    requires CanRead(c, s, w, n)
  {
    var t := s.workers[w].task;
    if n == 0 then s.(workers := s.workers[w := Busy(EndSegment(t, ENODATA))])
    else
      s.(buffers := s.buffers[t.job.slot := Copied(c, s.buffers[t.job.slot], t, n)],
         workers := s.workers[w := Busy(Advance(t, n))])
  }

  predicate CanFail(s: State, w: nat, error: Status) {
    w < |s.workers| && s.workers[w].Busy? && Copying(s.workers[w].task) && error != Ok
  }

  /** One `pread` that failed with an errno other than EINTR, after which it is simply repeated. */
  function Fail(s: State, w: nat, error: Status): State
    requires CanFail(s, w, error)
  {
    s.(workers := s.workers[w := Busy(EndSegment(s.workers[w].task, error))])
  }

  predicate CanFinish(s: State, w: nat) {
    && w < |s.workers| && s.workers[w].Busy? && !Copying(s.workers[w].task)
    && s.workers[w].task.job.slot < |s.slots|
  }

  /** The test under which a finished worker publishes its result. */
  predicate Guard(s: State, job: Job)
    requires job.slot < |s.slots|
  {
    s.slots[job.slot].generation == job.generation && s.slots[job.slot].state == Loading
  }

  function Finish(s: State, w: nat): State
    requires CanFinish(s, w)
  {
    var t := s.workers[w].task;
    var slot := s.slots[t.job.slot];
    var error := if slot.cancelled then ECANCELED else t.error;
    var s' := s.(workers := s.workers[w := Resting]);
    if Guard(s, t.job) then
      s'.(slots := s.slots[t.job.slot := slot.(error := error, length := if error != Ok then 0 else t.extent, state := Ready)])
    else s'
  }

  predicate CanExit(s: State, w: nat) {
    w < |s.workers| && s.workers[w].Resting? && s.stopping && s.queue == []
  }

  function Exit(s: State, w: nat): State
    requires CanExit(s, w)
  {
    s.(workers := s.workers[w := Exited])
  }

  // ---- Runs -----------------------------------------------------------------------------------

  datatype Step =
    | SubmitStep(slot: nat, generation: uint64, segments: seq<Segment>, mlock: Status)
    | CancelStep(slot: nat, generation: uint64)
    | LeaseStep(slot: nat, generation: uint64, gpu: bool)
    | ReleaseStep(slot: nat, generation: uint64, gpuFenced: bool)
    | DiscardStep(slot: nat, generation: uint64, munlock: Status, madvise: Status, contents: seq<byte>)
    | SetWiringStep(enabled: bool)
    | CloseStep
    | TakeStep(worker: nat)
    | ReadStep(worker: nat, n: nat)
    | FailStep(worker: nat, error: Status)
    | FinishStep(worker: nat)
    | ExitStep(worker: nat)
  {
    predicate IsWork() {
      TakeStep? || ReadStep? || FailStep? || FinishStep? || ExitStep?
    }
  }

  predicate Sized(c: Config, s: State) {
    && |s.buffers| == |s.slots| && |s.requested| == |s.slots|
    && forall i :: 0 <= i < |s.buffers| ==> |s.buffers[i]| == c.Capacity()
  }

  /** Clients may call at any time until close has set its stop flag; nobody calls after that. */
  predicate Enabled(c: Config, s: State, step: Step) {
    match step
    case TakeStep(w) => CanTake(s, w)
    case ReadStep(w, n) => CanRead(c, s, w, n)
    case FailStep(w, e) => CanFail(s, w, e)
    case FinishStep(w) => CanFinish(s, w)
    case ExitStep(w) => CanExit(s, w)
    case DiscardStep(_, _, _, _, contents) => !s.stopping && |contents| == c.Capacity()
    case _ => !s.stopping
  }

  /** The state after a step, and what the call returned (Ok for a worker's steps). */
  function Do(c: Config, s: State, step: Step): (State, Status)
    requires Sized(c, s) && Enabled(c, s, step)
  {
    match step
    case SubmitStep(slot, generation, segments, mlock) => Submit(c, s, slot, generation, segments, mlock)
    case CancelStep(slot, generation) => Cancel(s, slot, generation)
    case LeaseStep(slot, generation, gpu) => Lease(s, slot, generation, gpu)
    case ReleaseStep(slot, generation, fenced) => Release(s, slot, generation, fenced)
    case DiscardStep(slot, generation, munlock, madvise, contents) => Discard(s, slot, generation, munlock, madvise, contents)
    case SetWiringStep(enabled) => SetWiring(s, enabled)
    case CloseStep => Close(s)
    case TakeStep(w) => (Take(s, w), Ok)
    case ReadStep(w, n) => (Read(c, s, w, n), Ok)
    case FailStep(w, e) => (Fail(s, w, e), Ok)
    case FinishStep(w) => (Finish(s, w), Ok)
    case ExitStep(w) => (Exit(s, w), Ok)
  }

  /** A freshly opened pool: zeroed slots, buffers holding anything, nothing queued, workers waiting. */
  predicate Initial(c: Config, s: State) {
    && Sized(c, s)
    && 0 < |s.slots| <= UINT32_MAX / 2 && 0 < |s.workers| <= 64
    && (forall i :: 0 <= i < |s.slots| ==> s.slots[i] == Slot(0, 0, Idle, Ok, false, false, false))
    && s.queue == [] && !s.wireSlots && !s.stopping
    && (forall w :: 0 <= w < |s.workers| ==> s.workers[w] == Resting)
  }

  /** Is every step of the run enabled when it is taken? */
  predicate Legal(c: Config, s: State, steps: seq<Step>)
    requires Sized(c, s)
    decreases |steps|
  {
    steps == [] || (Enabled(c, s, steps[0]) && Sized(c, Do(c, s, steps[0]).0) && Legal(c, Do(c, s, steps[0]).0, steps[1..]))
  }

  function After(c: Config, s: State, steps: seq<Step>): State
    requires Sized(c, s) && Legal(c, s, steps)
    decreases |steps|
  {
    if steps == [] then s else After(c, Do(c, s, steps[0]).0, steps[1..])
  }
}
