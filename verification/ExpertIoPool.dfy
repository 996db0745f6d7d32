/** The expert I/O pool as the C program keeps it: slots, buffers and a ring of jobs updated in place.
    Each method is one critical section, or one unlocked read, of packages/inference/native/expert-io.c,
    proved to take the step of the state machine. */
module ExpertIoPool {
  import opened Words
  import opened CircularQueues
  import opened ExpertIoModel
  import opened ExpertIoSafety
  import ExpertIoTheorems

  // ---- Opening --------------------------------------------------------------------------------

  /** What opening a path gives. */
  datatype File = Unreadable | Readable(bytes: seq<byte>)

  const ADDRESS_SIZE: bv64 := 8

  function Half(a: bv64): bv64 { a >> 1 }

  predicate IsEven(a: bv64) { a & 1 == 0 }

  /** The bit test of the C code: nothing is left without the lowest set bit. */
  predicate HasOneBit(a: bv64) { a & (a - 1) == 0 }

  /** Can be halved n times, never with a remainder, down to one. */
  predicate IsPower(a: bv64, n: nat) {
    if n == 0 then a == 1 else a != 0 && IsEven(a) && IsPower(Half(a), n - 1)
  }

  ghost predicate IsPowerOfTwo(a: bv64) {
    exists n: nat :: IsPower(a, n)
  }

  lemma HalfIsLess(a: bv64)
    requires a > 1
    ensures 0 < Half(a) < a
  {
  }

  lemma HalfHasOneBit(a: bv64)
    requires a != 0 && HasOneBit(a)
    ensures HasOneBit(Half(a))
  {
  }

  lemma DoubleHasOneBit(a: bv64)
    requires a > 1 && IsEven(a) && HasOneBit(Half(a))
    ensures HasOneBit(a)
  {
  }

  lemma OddHasMoreBits(a: bv64)
    requires a != 0 && !IsEven(a)
    ensures HasOneBit(a) <==> a == 1
  {
  }

  lemma {:induction false} PowerHasOneBit(a: bv64, n: nat)
    requires IsPower(a, n)
    ensures a != 0 && HasOneBit(a)
  {
    if n > 0 {
      PowerHasOneBit(Half(a), n - 1);
      assert a > 1;
      DoubleHasOneBit(a);
    }
  }

  lemma {:induction false} OneBitIsPower(a: bv64)
    requires a != 0 && HasOneBit(a)
    ensures IsPowerOfTwo(a)
    decreases a
  {
    if a == 1 {
      assert IsPower(a, 0);
    } else if IsEven(a) {
      HalfIsLess(a);
      HalfHasOneBit(a);
      OneBitIsPower(Half(a));
      var n: nat :| IsPower(Half(a), n);
      assert IsPower(a, n + 1);
    } else {
      OddHasMoreBits(a);
    }
  }

  lemma AlignmentTest(a: bv64)
    requires a != 0
    ensures HasOneBit(a) <==> IsPowerOfTwo(a)
  {
    if HasOneBit(a) {
      OneBitIsPower(a);
    }
    if n: nat :| IsPower(a, n) {
      PowerHasOneBit(a, n);
    }
  }

  // ---- Validation -----------------------------------------------------------------------------

  /** The checks of a submission, in 64-bit arithmetic: no sum overflows and the extent is exact. */
  method CheckSegments(c: Config, segments: seq<Segment>) returns (error: Status, extent: uint64)
    ensures error == Validate(c, segments, 0)
    ensures error == Ok ==> extent as int == Extent(segments)
  {
    extent := 0;
    for i := 0 to |segments|
      invariant Validate(c, segments, 0) == Validate(c, segments, i)
      invariant forall k :: 0 <= k < i ==> segments[k].End() <= c.Capacity()
      invariant extent as int == Extent(segments[..i])
    {
      var g := segments[i];
      if g.file as int >= |c.files| || g.length == 0 {
        return EINVAL, extent;
      }
      if g.offset > INT64_MAX as uint64 || g.length > INT64_MAX as uint64 - g.offset {
        return EOVERFLOW, extent;
      }
      if g.destination > c.capacity || g.length > c.capacity - g.destination {
        return EBUSY, extent;
      }
      var end := g.destination + g.length;
      if end > extent {
        extent := end;
      }
      for j := 0 to i
        invariant forall k :: 0 <= k < j ==> !Overlap(g, segments[k])
      {
        var priorEnd := segments[j].destination + segments[j].length;
        if g.destination < priorEnd && segments[j].destination < end {
          assert Overlap(g, segments[j]);
          return EINVAL, extent;
        }
      }
      ExtentStep(segments, i);
    }
    assert segments[..|segments|] == segments;
    error := Ok;
  }

  /** The contents of a list of buffers. */
  ghost function Snapshot(buffers: seq<array<byte>>): (r: seq<seq<byte>>)
    reads buffers
    ensures |r| == |buffers|
    ensures forall i :: 0 <= i < |buffers| ==> r[i] == buffers[i][..]
  {
    if buffers == [] then [] else Snapshot(buffers[..|buffers| - 1]) + [buffers[|buffers| - 1][..]]
  }

  method Allocate(count: uint32, capacity: uint64) returns (all: seq<array<byte>>)
    ensures |all| == count as int
    ensures forall k :: 0 <= k < |all| ==> fresh(all[k]) && all[k].Length == capacity as int
    ensures forall j, k :: 0 <= j < k < |all| ==> all[j] != all[k]
  {
    all := [];
    for i := 0 to count
      invariant |all| == i as int
      invariant forall k :: 0 <= k < |all| ==> fresh(all[k]) && all[k].Length == capacity as int
      invariant forall j, k :: 0 <= j < k < |all| ==> all[j] != all[k]
    {
      var buffer := new byte[capacity];
      all := all + [buffer];
    }
  }

  /** Copies n bytes of a file into a buffer in place. */
  method CopyInto(buffer: array<byte>, at: nat, file: seq<byte>, from: nat, n: nat)
    requires at + n <= buffer.Length && from + n <= |file|
    modifies buffer
    ensures buffer[..] == Overwrite(old(buffer[..]), at, file[from..from + n])
  {
    for k := 0 to n
      invariant forall p :: 0 <= p < buffer.Length ==>
        buffer[p] == if at <= p < at + k then file[p - at + from] else old(buffer[p])
    {
      buffer[at + k] := file[from + k];
    }
  }

  class Pool {
    const config: Config
    const slots: array<Slot>
    const buffers: seq<array<byte>>
    const queue: CircularQueue<Job>
    const workers: array<Worker>
    var wireSlots: bool
    var stopping: bool
    ghost var requested: seq<seq<Segment>>

    ghost predicate Separate()
      reads this, queue
    {
      && |buffers| == slots.Length
      && queue.Valid() && queue.capacity as int == 2 * slots.Length
      && (forall i, j :: 0 <= i < j < |buffers| ==> buffers[i] != buffers[j])
    }

    ghost function State(): State
      reads this, slots, buffers, queue, queue.items, workers
      requires Separate()
    {
      ExpertIoModel.State(slots[..], Snapshot(buffers), requested, queue.Contents(), workers[..], wireSlots, stopping)
    }

    ghost predicate Valid()
      reads this, slots, buffers, queue, queue.items, workers
    {
      Separate() && Inv(config, State())
    }

    /** Opens a pool with nothing loaded and every worker waiting; buffers start with arbitrary bytes. */
    constructor (files: seq<seq<byte>>, slotCount: uint32, capacity: uint64, workerCount: uint32)
      requires 0 < slotCount as int <= UINT32_MAX / 2 && 0 < capacity && 0 < workerCount <= 64
      ensures Valid() && Initial(config, State())
      ensures config == Config(files, capacity) && slots.Length == slotCount as int && workers.Length == workerCount as int
    {
      config := Config(files, capacity);
      slots := new Slot[slotCount](_ => Slot(0, 0, Idle, Ok, false, false, false));
      workers := new Worker[workerCount](_ => Resting);
      var all := Allocate(slotCount, capacity);
      buffers := all;
      queue := new CircularQueue<Job>(2 * slotCount);
      wireSlots, stopping := false, false;
      requested := seq(slotCount as int, _ => []);
      new;
      assert Initial(config, State());
      InitialInv(config, State());
    }

    /** Opens a pool exactly for at least one path, all of them nonempty and readable, a positive number of
        slots of at most half of what 32 bits count, a positive capacity, 1 to 64 workers, and an alignment
        that is a power of two of at least the size of an address; if the system grants memory and threads. */
    static method Open(paths: seq<string>, disk: string -> File, slotCount: uint32, capacity: uint64, alignment: bv64,
                       workerCount: uint32, granted: bool)
      returns (pool: Pool?)
      ensures pool != null <==>
        && granted && paths != [] && (forall i :: 0 <= i < |paths| ==> paths[i] != "" && disk(paths[i]).Readable?)
        && 0 < slotCount as int <= UINT32_MAX / 2 && 0 < capacity && 0 < workerCount <= 64
        && ADDRESS_SIZE <= alignment && IsPowerOfTwo(alignment)
      ensures pool != null ==> fresh(pool) && pool.Valid() && Initial(pool.config, pool.State())
      ensures pool != null ==> pool.config.capacity == capacity && |pool.config.files| == |paths| &&
                               forall i :: 0 <= i < |paths| ==> disk(paths[i]) == Readable(pool.config.files[i])
    {
      if alignment != 0 {
        AlignmentTest(alignment);
      }
      if paths == [] || slotCount == 0 || slotCount > UINT32_MAX as uint32 / 2 || capacity == 0 ||
         workerCount == 0 || workerCount > 64 || alignment < ADDRESS_SIZE || !HasOneBit(alignment) {
        return null;
      }
      var files: seq<seq<byte>> := [];
      for i := 0 to |paths|
        invariant |files| == i
        invariant forall k :: 0 <= k < i ==> paths[k] != "" && disk(paths[k]) == Readable(files[k])
      {
        if paths[i] == "" || disk(paths[i]).Unreadable? {
          return null;
        }
        files := files + [disk(paths[i]).bytes];
      }
      if !granted {
        return null;
      }
      pool := new Pool(files, slotCount, capacity, workerCount);
    }

    method Submit(slot: nat, generation: uint64, segments: seq<Segment>, mlock: Status) returns (error: Status)
      requires Valid() && !stopping
      modifies this`requested, slots, queue, queue.items
      ensures Valid()
      ensures (State(), error) == ExpertIoModel.Submit(config, old(State()), slot, generation, segments, mlock)
    {
      SubmitKeepsInv(config, State(), slot, generation, segments, mlock);
      if slot >= slots.Length || generation == 0 || segments == [] || |segments| > MAX_SEGMENTS {
        return EINVAL;
      }
      var extent;
      error, extent := CheckSegments(config, segments);
      if error != Ok {
        return;
      }
      var s := slots[slot];
      if extent > config.capacity || s.state == Loading || s.state == Leased {
        error := EBUSY;
      } else if queue.len == queue.capacity {
        error := EAGAIN;
      } else if wireSlots && !s.wired {
        error := mlock;
        s := s.(wired := true);
      }
      if error == Ok {
        Accept(Slot(generation, 0, Loading, Ok, false, s.gpuLease, s.wired), Job(slot, generation, segments));
      }
    }

    /** The part of a submission that changes the slot and appends the job to the ring. */
    method Accept(slot: Slot, job: Job)
      requires Separate() && job.slot < slots.Length == |requested| && queue.len < queue.capacity
      modifies this`requested, slots, queue, queue.items
      ensures Separate() && State() == Queued(old(State()), slot, job)
    {
      slots[job.slot] := slot;
      requested := requested[job.slot := job.segments];
      queue.Push(job);
    }

    /** Cancels a load that is still running, or takes back the result of a finished one. */
    method Cancel(slot: nat, generation: uint64) returns (error: Status)
      requires Valid()
      modifies slots
      ensures Valid()
      ensures (State(), error) == ExpertIoModel.Cancel(old(State()), slot, generation)
    {
      CancelKeepsInv(config, State(), slot, generation);
      if slot >= slots.Length {
        return EINVAL;
      }
      var s := slots[slot];
      error := if s.generation != generation then ESTALE else Ok;
      if error == Ok && s.state == Loading {
        slots[slot] := s.(cancelled := true);
      } else if error == Ok && s.state == Ready {
        slots[slot] := s.(error := ECANCELED, length := 0);
      } else if error == Ok {
        error := EBUSY;
      }
    }

    method Poll(slot: nat, generation: uint64) returns (error: Status)
      requires Valid()
      ensures error == ExpertIoModel.Poll(State(), slot, generation)
    {
      if slot >= slots.Length {
        return EINVAL;
      }
      var s := slots[slot];
      error := if s.generation != generation then ESTALE else if s.state == Loading then EAGAIN else s.error;
    }

    method Lease(slot: nat, generation: uint64, gpu: bool) returns (error: Status)
      requires Valid() && !stopping
      modifies slots
      ensures Valid()
      ensures (State(), error) == ExpertIoModel.Lease(old(State()), slot, generation, gpu)
    {
      LeaseKeepsInv(config, State(), slot, generation, gpu);
      if slot >= slots.Length {
        return EINVAL;
      }
      var s := slots[slot];
      error := if s.generation != generation then ESTALE else if s.state != Ready || s.error != Ok then EBUSY else Ok;
      if error == Ok {
        slots[slot] := s.(state := Leased, gpuLease := gpu);
      }
    }

    /** The buffer of a leased slot: what a client reads through it is the load that it asked for. */
    method Ptr(slot: nat, generation: uint64) returns (buffer: array?<byte>, length: nat)
      requires Valid()
      ensures buffer != null <==> Obtainable(State(), slot, generation)
      ensures buffer != null ==> buffer == buffers[slot]
      ensures buffer != null ==>
        && WellFormed(config, requested[slot]) && buffer.Length == config.Capacity()
        && Filled(config, buffer[..], requested[slot]) && length == Extent(requested[slot])
    {
      assert slot < slots.Length ==> SlotInv(config, State(), slot);
      if slot < slots.Length && slots[slot].state == Leased && slots[slot].generation == generation {
        return buffers[slot], slots[slot].length;
      }
      return null, 0;
    }

    method Release(slot: nat, generation: uint64, gpuFenced: bool) returns (error: Status)
      requires Valid()
      modifies slots
      ensures Valid()
      ensures (State(), error) == ExpertIoModel.Release(old(State()), slot, generation, gpuFenced)
    {
      ReleaseKeepsInv(config, State(), slot, generation, gpuFenced);
      if slot >= slots.Length {
        return EINVAL;
      }
      var s := slots[slot];
      error := if s.generation != generation then ESTALE
               else if s.state != Leased then EINVAL
               else if s.gpuLease && !gpuFenced then EBUSY else Ok;
      if error == Ok {
        slots[slot] := s.(state := Ready, gpuLease := false);
      }
    }

    method Discard(slot: nat, generation: uint64, munlock: Status, madvise: Status, contents: seq<byte>) returns (error: Status)
      requires Valid() && |contents| == config.Capacity()
      modifies slots, buffers
      ensures Valid()
      ensures (State(), error) == ExpertIoModel.Discard(old(State()), slot, generation, munlock, madvise, contents)
    {
      DiscardKeepsInv(config, State(), slot, generation, munlock, madvise, contents);
      ghost var next := ExpertIoModel.Discard(State(), slot, generation, munlock, madvise, contents);
      if slot >= slots.Length || generation == 0 {
        return EINVAL;
      }
      error := if slots[slot].generation != generation then ESTALE else if slots[slot].state != Ready then EBUSY else Ok;
      if error == Ok {
        assert slots[..][slot := slots[slot]] == slots[..];
        error := Forget(slot, munlock, madvise, contents);
      }
      assert (State(), error) == next;
    }

    /** The part of a discard that changes the slot and its buffer. */
    method Forget(slot: nat, munlock: Status, madvise: Status, contents: seq<byte>) returns (error: Status)
      requires Separate() && slot < slots.Length && |contents| == buffers[slot].Length
      modifies slots, buffers[slot]
      ensures var s := old(slots[slot]);
              && error == (if s.wired && munlock != Ok then munlock else madvise)
              && slots[..] == old(slots[..])[slot :=
                   if s.wired && munlock != Ok then s
                   else if madvise != Ok then s.(wired := false)
                   else Slot(s.generation, 0, Idle, Ok, false, false, false)]
      ensures Snapshot(buffers) == if error == Ok then old(Snapshot(buffers))[slot := contents] else old(Snapshot(buffers))
    {
      var s := slots[slot];
      if s.wired && munlock != Ok {
        return munlock;
      }
      error := madvise;
      slots[slot] := if madvise == Ok then Slot(s.generation, 0, Idle, Ok, false, false, false) else s.(wired := false);
      if madvise == Ok {
        Refill(slot, contents);
      }
    }

    /** What madvise leaves in a buffer. */
    method Refill(slot: nat, contents: seq<byte>)
      requires Separate() && slot < |buffers| && |contents| == buffers[slot].Length
      modifies buffers[slot]
      ensures Snapshot(buffers) == old(Snapshot(buffers))[slot := contents]
    {
      assert contents[0..|contents|] == contents;
      CopyInto(buffers[slot], 0, contents, 0, |contents|);
      assert buffers[slot][..] == contents;
    }

    method SetWiring(enabled: bool) returns (error: Status)
      requires Valid() && !stopping
      modifies this`wireSlots
      ensures Valid()
      ensures (State(), error) == ExpertIoModel.SetWiring(old(State()), enabled)
    {
      FlagsKeepInv(config, State(), enabled, stopping);
      error := if queue.len != 0 then EBUSY else Ok;
      var i := 0;
      while i < slots.Length && error == Ok
        invariant 0 <= i <= slots.Length
        invariant error == EBUSY || error == Ok
        invariant error == Ok ==>
          queue.Contents() == [] && forall k :: 0 <= k < i ==> slots[k].state != Loading && slots[k].state != Leased
        invariant error == EBUSY ==>
          queue.Contents() != [] || exists k :: 0 <= k < slots.Length && (slots[k].state == Loading || slots[k].state == Leased)
      {
        if slots[i].state == Loading || slots[i].state == Leased {
          error := EBUSY;
        }
        i := i + 1;
      }
      if error == Ok {
        wireSlots := enabled;
      }
    }

    /** Refuses while a lease is out; otherwise no client call follows and the workers drain the queue. */
    method Close() returns (error: Status)
      requires Valid()
      modifies this`stopping
      ensures Valid()
      ensures (State(), error) == ExpertIoModel.Close(old(State()))
    {
      for i := 0 to slots.Length
        invariant forall k :: 0 <= k < i ==> slots[k].state != Leased
      {
        if slots[i].state == Leased {
          return EBUSY;
        }
      }
      FlagsKeepInv(config, State(), wireSlots, true);
      stopping := true;
      error := Ok;
    }

    /** A worker wakes up with the mutex: it takes the oldest job, or leaves when the pool is closing. */
    method Wake(w: nat)
      requires Valid() && w < workers.Length && workers[w] == Resting
      requires stopping || queue.len > 0
      modifies workers, queue
      ensures Valid()
      ensures State() == if old(queue.len) > 0 then Take(old(State()), w) else Exit(old(State()), w)
    {
      if stopping && queue.len == 0 {
        ExitKeepsInv(config, State(), w);
        workers[w] := Exited;
      } else {
        TakeKeepsInv(config, State(), w);
        var job := queue.Pop();
        workers[w] := Busy(Task(job, 0, 0, 0, Ok));
      }
    }

    /** The bytes of one `pread`, written to the slot buffer without the mutex. */
    method CopyBytes(t: Task, n: nat)
      requires Separate() && t.job.slot < |buffers|
      requires n > 0 && RoomFor(config, buffers[t.job.slot][..], t, n)
      modifies buffers
      ensures Snapshot(buffers) == old(Snapshot(buffers))[t.job.slot := Copied(config, old(buffers[t.job.slot][..]), t, n)]
    {
      var g := t.job.segments[t.index];
      CopyInto(buffers[t.job.slot], g.destination as int + t.copied, config.files[g.file], g.offset as int + t.copied, n);
    }

    /** One `pread` that returned n. */
    method Pread(w: nat, n: nat)
      requires Valid() && CanRead(config, State(), w, n)
      modifies workers, buffers
      ensures Valid()
      ensures State() == Read(config, old(State()), w, n)
    {
      ReadKeepsInv(config, State(), w, n);
      ReadInto(w, n);
    }

    method ReadInto(w: nat, n: nat)
      requires Separate() && CanRead(config, State(), w, n)
      modifies workers, buffers
      ensures Separate()
      ensures State() == Read(config, old(State()), w, n)
    {
      var t := workers[w].task;
      if n == 0 {
        workers[w] := Busy(EndSegment(t, ENODATA));
      } else {
        CopyBytes(t, n);
        workers[w] := Busy(Advance(t, n));
      }
    }

    method PreadFailed(w: nat, error: Status)
      requires Valid() && CanFail(State(), w, error)
      modifies workers
      ensures Valid()
      ensures State() == Fail(old(State()), w, error)
    {
      FailKeepsInv(config, State(), w, error);
      workers[w] := Busy(EndSegment(workers[w].task, error));
    }

    /** The end of a job, under the mutex again. Its guard always holds, so the result is published. */
    method Publish(w: nat)
      requires Valid() && CanFinish(State(), w)
      modifies workers, slots
      ensures Valid()
      ensures State() == Finish(old(State()), w)
      ensures slots[old(workers[w].task.job.slot)].state == Ready
    {
      FinishKeepsInv(config, State(), w);
      ExpertIoTheorems.FinishAlwaysPublishes(config, State(), w);
      var t := workers[w].task;
      var s := slots[t.job.slot];
      if s.generation == t.job.generation && s.state == Loading {
        var error := if s.cancelled then ECANCELED else t.error;
        slots[t.job.slot] := s.(error := error, length := if error != Ok then 0 else t.extent, state := Ready);
      }
      workers[w] := Resting;
    }
  }
}
