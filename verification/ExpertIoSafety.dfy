/** What every run of the expert I/O pool keeps, and what follows for leases, buffers and loads. */
module ExpertIoSafety {
  import opened Words
  import opened ExpertIoModel

  // ---- Validation -----------------------------------------------------------------------------

  /** A submission passes the C checks exactly when it is a valid load: nothing else is refused, and
      64-bit sums cannot overflow on the way. */
  lemma ValidateIsWellFormed(c: Config, segments: seq<Segment>)
    ensures Validate(c, segments, 0) == Ok <==> WellFormed(c, segments)
  {
    ValidateFrom(c, segments, 0);
    forall i | 0 <= i < |segments|
      ensures SegmentError(c, segments, i) == Ok <==>
              Fits(c, segments[i]) && forall j :: 0 <= j < i ==> !Overlap(segments[i], segments[j])
    {
    }
  }

  lemma {:induction false} ValidateFrom(c: Config, segments: seq<Segment>, i: nat)
    requires i <= |segments|
    ensures Validate(c, segments, i) == Ok <==> forall k :: i <= k < |segments| ==> SegmentError(c, segments, k) == Ok
    decreases |segments| - i
  {
    if i < |segments| {
      ValidateFrom(c, segments, i + 1);
    }
  }

  /** The extent of a load is the end of one of its segments and no segment ends after it. */
  lemma {:induction false} ExtentIsLargestEnd(segments: seq<Segment>)
    ensures forall i :: 0 <= i < |segments| ==> segments[i].End() <= Extent(segments)
    ensures segments != [] ==> exists i :: 0 <= i < |segments| && segments[i].End() == Extent(segments)
  {
    if segments != [] {
      var rest := segments[..|segments| - 1];
      ExtentIsLargestEnd(rest);
      var last := |segments| - 1;
      if segments[last].End() <= Extent(rest) && rest != [] {
        var i :| 0 <= i < |rest| && rest[i].End() == Extent(rest);
        assert segments[i].End() == Extent(segments);
      } else {
        assert segments[last].End() == Extent(segments);
      }
    }
  }

  lemma ExtentFits(c: Config, segments: seq<Segment>)
    requires WellFormed(c, segments)
    ensures Extent(segments) <= c.Capacity()
  {
    ExtentIsLargestEnd(segments);
  }

  // ---- The invariant --------------------------------------------------------------------------

  /** The first n bytes of segment g are in place. */
  predicate Placed(c: Config, buffer: seq<byte>, g: Segment, n: nat)
    requires Fits(c, g) && |buffer| == c.Capacity() && n <= g.Len()
  {
    && (n > 0 ==> g.Src() + n <= |c.files[g.file]|)
    && forall p :: g.Dst() <= p < g.Dst() + n ==> buffer[p] == c.files[g.file][p - g.Dst() + g.Src()]
  }

  /** The whole of a load is in place: at each destination, exactly the bytes of its file at that offset. */
  predicate Filled(c: Config, buffer: seq<byte>, segments: seq<Segment>)
    requires WellFormed(c, segments) && |buffer| == c.Capacity()
  {
    forall i :: 0 <= i < |segments| ==> Placed(c, buffer, segments[i], segments[i].Len())
  }

  /** A job that is queued or in a worker belongs to a slot that is still loading, under the slot's
      own generation, and asks for what was submitted for that slot. */
  predicate JobFits(c: Config, s: State, job: Job)
    requires Sized(c, s)
  {
    && job.slot < |s.slots|
    && WellFormed(c, job.segments) && job.segments != []
    && s.requested[job.slot] == job.segments
    && Guard(s, job)
  }

  /** How far a worker has got: the segments before the current one and the copied part of that one. */
  predicate TaskFits(c: Config, buffer: seq<byte>, t: Task)
    requires WellFormed(c, t.job.segments) && |buffer| == c.Capacity()
  {
    && t.index <= |t.job.segments|
    && (t.error == Ok ==>
          && t.extent == Extent(t.job.segments[..t.index])
          && (forall i :: 0 <= i < t.index ==> Placed(c, buffer, t.job.segments[i], t.job.segments[i].Len()))
          && (t.index < |t.job.segments| ==>
                t.copied < t.job.segments[t.index].Len() && Placed(c, buffer, t.job.segments[t.index], t.copied)))
  }

  predicate QueueInv(c: Config, s: State)
    requires Sized(c, s)
  {
    && (forall q :: 0 <= q < |s.queue| ==> JobFits(c, s, s.queue[q]))
    && (forall p, q :: 0 <= p < q < |s.queue| ==> s.queue[p].slot != s.queue[q].slot)
  }

  predicate WorkerInv(c: Config, s: State)
    requires Sized(c, s)
  {
    && (forall w :: 0 <= w < |s.workers| && s.workers[w].Busy? ==>
          && JobFits(c, s, s.workers[w].task.job)
          && TaskFits(c, s.buffers[s.workers[w].task.job.slot], s.workers[w].task))
    && (forall v, w :: 0 <= v < w < |s.workers| && s.workers[v].Busy? && s.workers[w].Busy? ==>
          s.workers[v].task.job.slot != s.workers[w].task.job.slot)
    && (forall w, q :: 0 <= w < |s.workers| && s.workers[w].Busy? && 0 <= q < |s.queue| ==>
          s.workers[w].task.job.slot != s.queue[q].slot)
    && (forall w :: 0 <= w < |s.workers| && s.workers[w].Exited? ==> s.stopping && s.queue == [])
  }

  /** Is there a job for slot i, in the queue or in a worker? */
  predicate HasJob(s: State, i: nat) {
    || (exists q :: 0 <= q < |s.queue| && s.queue[q].slot == i)
    || (exists w :: 0 <= w < |s.workers| && s.workers[w].Busy? && s.workers[w].task.job.slot == i)
  }

  /** A slot that a lease can be, or has been, taken on holds all of what was last submitted for it. */
  predicate SlotInv(c: Config, s: State, i: nat)
    requires Sized(c, s) && i < |s.slots|
  {
    var slot := s.slots[i];
    && (slot.state == Loading ==> HasJob(s, i))
    && (slot.state == Leased ==> slot.error == Ok && !s.stopping)
    && (slot.gpuLease ==> slot.state == Leased)
    && (slot.state == Leased || (slot.state == Ready && slot.error == Ok) ==>
          && WellFormed(c, s.requested[i]) && s.requested[i] != []
          && Filled(c, s.buffers[i], s.requested[i])
          && slot.length == Extent(s.requested[i]))
  }

  predicate Inv(c: Config, s: State) {
    && Sized(c, s)
    && 0 < |s.slots| && 0 < |s.workers|
    && QueueInv(c, s)
    && WorkerInv(c, s)
    && forall i :: 0 <= i < |s.slots| ==> SlotInv(c, s, i)
  }

  // ---- The invariant is kept by every step ----------------------------------------------------

  lemma InitialInv(c: Config, s: State)
    requires Initial(c, s)
    ensures Inv(c, s)
  {
  }

  /** The pool once a job for a slot was queued. */
  function Queued(s: State, slot: Slot, job: Job): State
    requires job.slot < |s.slots| == |s.requested|
  {
    s.(slots := s.slots[job.slot := slot], requested := s.requested[job.slot := job.segments], queue := s.queue + [job])
  }

  /** A slot that is not loading, or leased, may be given a job. */
  predicate MayLoad(c: Config, s: State, slot: Slot, job: Job) {
    && Inv(c, s) && job.slot < |s.slots| && !s.stopping
    && (s.slots[job.slot].state == Idle || s.slots[job.slot].state == Ready)
    && slot.state == Loading && slot.generation == job.generation && !slot.gpuLease
    && WellFormed(c, job.segments) && job.segments != []
  }

  lemma QueuedKeepsSlot(c: Config, s: State, slot: Slot, job: Job, i: nat)
    requires MayLoad(c, s, slot, job) && i < |s.slots|
    ensures Sized(c, Queued(s, slot, job)) && SlotInv(c, Queued(s, slot, job), i)
  {
    var s', n := Queued(s, slot, job), |s.queue|;
    assert SlotInv(c, s, i) && s'.queue[n].slot == job.slot;
    if i != job.slot && s.slots[i].state == Loading {
      if q :| 0 <= q < n && s.queue[q].slot == i {
        assert s'.queue[q].slot == i;
      }
    }
  }

  lemma QueuedKeepsJobs(c: Config, s: State, slot: Slot, job: Job)
    requires MayLoad(c, s, slot, job)
    ensures Sized(c, Queued(s, slot, job)) && QueueInv(c, Queued(s, slot, job)) && WorkerInv(c, Queued(s, slot, job))
  {
  }

  lemma QueuedKeepsInv(c: Config, s: State, slot: Slot, job: Job)
    requires MayLoad(c, s, slot, job)
    ensures Inv(c, Queued(s, slot, job))
  {
    QueuedKeepsJobs(c, s, slot, job);
    forall i | 0 <= i < |s.slots| ensures SlotInv(c, Queued(s, slot, job), i) {
      QueuedKeepsSlot(c, s, slot, job, i);
    }
  }

  lemma SubmitKeepsInv(c: Config, s: State, slot: nat, generation: uint64, segments: seq<Segment>, mlock: Status)
    requires Inv(c, s) && !s.stopping
    ensures Inv(c, Submit(c, s, slot, generation, segments, mlock).0)
  {
    var (s', error) := Submit(c, s, slot, generation, segments, mlock);
    if error == Ok {
      ValidateIsWellFormed(c, segments);
      assert SlotInv(c, s, slot);
      QueuedKeepsInv(c, s, s'.slots[slot], Job(slot, generation, segments));
    }
  }

  /** A client may change a slot that no worker is concerned with, or leave alone what workers look at. */
  lemma SlotChangeKeepsInv(c: Config, s: State, i: nat, slot: Slot, buffer: seq<byte>)
    requires Inv(c, s) && i < |s.slots| && |buffer| == c.Capacity()
    requires slot.state == Loading <==> s.slots[i].state == Loading
    requires slot.generation == s.slots[i].generation
    requires slot.state == Loading ==> buffer == s.buffers[i] && !slot.gpuLease
    requires slot.state == Leased ==> !s.stopping && slot.error == Ok
    requires slot.gpuLease ==> slot.state == Leased
    requires slot.state == Leased || (slot.state == Ready && slot.error == Ok) ==>
               && (s.slots[i].state == Leased || (s.slots[i].state == Ready && s.slots[i].error == Ok))
               && slot.length == s.slots[i].length && buffer == s.buffers[i]
    ensures Inv(c, s.(slots := s.slots[i := slot], buffers := s.buffers[i := buffer]))
  {
    var s' := s.(slots := s.slots[i := slot], buffers := s.buffers[i := buffer]);
    assert SlotInv(c, s, i);
    forall k | 0 <= k < |s.slots| ensures SlotInv(c, s', k) {
      assert SlotInv(c, s, k);
      assert HasJob(s, k) ==> HasJob(s', k);
    }
  }

  lemma CancelKeepsInv(c: Config, s: State, slot: nat, generation: uint64)
    requires Inv(c, s)
    ensures Inv(c, Cancel(s, slot, generation).0)
  {
    var s' := Cancel(s, slot, generation).0;
    if s' != s {
      assert SlotInv(c, s, slot);
      SlotChangeKeepsInv(c, s, slot, s'.slots[slot], s.buffers[slot]);
      assert s' == s.(slots := s.slots[slot := s'.slots[slot]], buffers := s.buffers[slot := s.buffers[slot]]);
    }
  }

  lemma LeaseKeepsInv(c: Config, s: State, slot: nat, generation: uint64, gpu: bool)
    requires Inv(c, s) && !s.stopping
    ensures Inv(c, Lease(s, slot, generation, gpu).0)
  {
    var s' := Lease(s, slot, generation, gpu).0;
    if s' != s {
      assert SlotInv(c, s, slot);
      SlotChangeKeepsInv(c, s, slot, s'.slots[slot], s.buffers[slot]);
      assert s' == s.(slots := s.slots[slot := s'.slots[slot]], buffers := s.buffers[slot := s.buffers[slot]]);
    }
  }

  lemma ReleaseKeepsInv(c: Config, s: State, slot: nat, generation: uint64, gpuFenced: bool)
    requires Inv(c, s)
    ensures Inv(c, Release(s, slot, generation, gpuFenced).0)
  {
    var s' := Release(s, slot, generation, gpuFenced).0;
    if s' != s {
      assert SlotInv(c, s, slot);
      SlotChangeKeepsInv(c, s, slot, s'.slots[slot], s.buffers[slot]);
      assert s' == s.(slots := s.slots[slot := s'.slots[slot]], buffers := s.buffers[slot := s.buffers[slot]]);
    }
  }

  lemma DiscardKeepsInv(c: Config, s: State, slot: nat, generation: uint64,
                        munlock: Status, madvise: Status, contents: seq<byte>)
    requires Inv(c, s) && |contents| == c.Capacity()
    ensures Inv(c, Discard(s, slot, generation, munlock, madvise, contents).0)
  {
    var s' := Discard(s, slot, generation, munlock, madvise, contents).0;
    if s' != s {
      assert SlotInv(c, s, slot);
      SlotChangeKeepsInv(c, s, slot, s'.slots[slot], s'.buffers[slot]);
      assert s' == s.(slots := s.slots[slot := s'.slots[slot]], buffers := s.buffers[slot := s'.buffers[slot]]);
    }
  }

  lemma FlagsKeepInv(c: Config, s: State, wireSlots: bool, stopping: bool)
    requires Inv(c, s)
    requires s.stopping ==> stopping
    requires stopping ==> forall i :: 0 <= i < |s.slots| ==> s.slots[i].state != Leased
    ensures Inv(c, s.(wireSlots := wireSlots, stopping := stopping))
  {
    var s' := s.(wireSlots := wireSlots, stopping := stopping);
    forall i | 0 <= i < |s.slots| ensures SlotInv(c, s', i) {
      assert SlotInv(c, s, i);
      assert HasJob(s, i) ==> HasJob(s', i);
    }
  }

  lemma TakeKeepsInv(c: Config, s: State, w: nat)
    requires Inv(c, s) && CanTake(s, w)
    ensures Inv(c, Take(s, w))
  {
    var s' := Take(s, w);
    forall i | 0 <= i < |s.slots| ensures SlotInv(c, s', i) {
      assert SlotInv(c, s, i);
      if s.slots[i].state == Loading {
        if q :| 0 <= q < |s.queue| && s.queue[q].slot == i {
          if q == 0 {
            assert s'.workers[w].task.job.slot == i;
          } else {
            assert s'.queue[q - 1].slot == i;
          }
        } else {
          var v :| 0 <= v < |s.workers| && s.workers[v].Busy? && s.workers[v].task.job.slot == i;
          assert s'.workers[v].Busy?;
        }
      }
    }
  }

  /** Only worker w and the buffer of its own slot change: the other workers and slots are not disturbed. */
  lemma WorkerChangeKeepsInv(c: Config, s: State, w: nat, t: Task, buffer: seq<byte>)
    requires Inv(c, s) && w < |s.workers| && s.workers[w].Busy?
    requires t.job == s.workers[w].task.job
    requires |buffer| == c.Capacity() && TaskFits(c, buffer, t)
    ensures Inv(c, s.(buffers := s.buffers[t.job.slot := buffer], workers := s.workers[w := Busy(t)]))
  {
    var s' := s.(buffers := s.buffers[t.job.slot := buffer], workers := s.workers[w := Busy(t)]);
    forall i | 0 <= i < |s.slots| ensures SlotInv(c, s', i) {
      assert SlotInv(c, s, i);
      if v :| 0 <= v < |s.workers| && s.workers[v].Busy? && s.workers[v].task.job.slot == i {
        assert s'.workers[v].Busy? && s'.workers[v].task.job.slot == i;
      }
    }
  }

  /** Bytes written past what is in place, or into a disjoint segment, leave it in place. */
  lemma OverwriteKeepsPlaced(c: Config, buffer: seq<byte>, g: Segment, n: nat, at: nat, bytes: seq<byte>)
    requires Fits(c, g) && |buffer| == c.Capacity() && n <= g.Len() && Placed(c, buffer, g, n)
    requires at + |bytes| <= |buffer|
    requires at + |bytes| <= g.Dst() || g.Dst() + n <= at
    ensures Placed(c, Overwrite(buffer, at, bytes), g, n)
  {
  }

  /** The extent of the segments up to and including number i. */
  lemma ExtentStep(segments: seq<Segment>, i: nat)
    requires i < |segments|
    ensures Extent(segments[..i + 1]) ==
            if segments[i].End() > Extent(segments[..i]) then segments[i].End() else Extent(segments[..i])
  {
    assert segments[..i + 1][..i] == segments[..i];
  }

  lemma CopyKeepsEarlier(c: Config, buffer: seq<byte>, t: Task, n: nat, i: nat)
    requires WellFormed(c, t.job.segments) && |buffer| == c.Capacity()
    requires n > 0 && RoomFor(c, buffer, t, n)
    requires i < t.index && Placed(c, buffer, t.job.segments[i], t.job.segments[i].Len())
    ensures Placed(c, Copied(c, buffer, t, n), t.job.segments[i], t.job.segments[i].Len())
  {
    var g, e := t.job.segments[t.index], t.job.segments[i];
    assert !Overlap(g, e);
    var from := g.Src() + t.copied;
    OverwriteKeepsPlaced(c, buffer, e, e.Len(), g.Dst() + t.copied, c.files[g.file][from..from + n]);
  }

  lemma CopyExtends(c: Config, buffer: seq<byte>, t: Task, n: nat)
    requires WellFormed(c, t.job.segments) && |buffer| == c.Capacity()
    requires n > 0 && RoomFor(c, buffer, t, n)
    requires Placed(c, buffer, t.job.segments[t.index], t.copied)
    ensures Placed(c, Copied(c, buffer, t, n), t.job.segments[t.index], t.copied + n)
  {
  }

  /** Copying the next n bytes of the current segment keeps every earlier segment, and extends this one. */
  lemma CopyFits(c: Config, buffer: seq<byte>, t: Task, n: nat)
    requires WellFormed(c, t.job.segments) && |buffer| == c.Capacity() && TaskFits(c, buffer, t)
    requires n > 0 && RoomFor(c, buffer, t, n)
    ensures TaskFits(c, Copied(c, buffer, t, n), Advance(t, n))
  {
    var segments, buffer' := t.job.segments, Copied(c, buffer, t, n);
    forall i | 0 <= i < t.index ensures Placed(c, buffer', segments[i], segments[i].Len()) {
      CopyKeepsEarlier(c, buffer, t, n, i);
    }
    CopyExtends(c, buffer, t, n);
    AdvanceFits(c, buffer', t, n);
  }

  lemma AdvanceFits(c: Config, buffer: seq<byte>, t: Task, n: nat)
    requires WellFormed(c, t.job.segments) && |buffer| == c.Capacity() && Copying(t)
    requires t.extent == Extent(t.job.segments[..t.index])
    requires t.copied + n <= t.job.segments[t.index].Len()
    requires forall i :: 0 <= i < t.index ==> Placed(c, buffer, t.job.segments[i], t.job.segments[i].Len())
    requires Placed(c, buffer, t.job.segments[t.index], t.copied + n)
    ensures TaskFits(c, buffer, Advance(t, n))
  {
    ExtentStep(t.job.segments, t.index);
  }

  lemma ReadKeepsInv(c: Config, s: State, w: nat, n: nat)
    requires Inv(c, s) && CanRead(c, s, w, n)
    ensures Inv(c, Read(c, s, w, n))
  {
    var t := s.workers[w].task;
    assert JobFits(c, s, t.job);
    var s' := Read(c, s, w, n);
    var i := t.job.slot;
    if n > 0 {
      CopyFits(c, s.buffers[i], t, n);
    }
    WorkerChangeKeepsInv(c, s, w, s'.workers[w].task, s'.buffers[i]);
    assert s' == s.(buffers := s.buffers[i := s'.buffers[i]], workers := s.workers[w := Busy(s'.workers[w].task)]);
  }

  lemma FailKeepsInv(c: Config, s: State, w: nat, error: Status)
    requires Inv(c, s) && CanFail(s, w, error)
    ensures Inv(c, Fail(s, w, error))
  {
    var i := s.workers[w].task.job.slot;
    var s' := Fail(s, w, error);
    assert JobFits(c, s, s.workers[w].task.job);
    WorkerChangeKeepsInv(c, s, w, s'.workers[w].task, s.buffers[i]);
    assert s' == s.(buffers := s.buffers[i := s.buffers[i]], workers := s.workers[w := Busy(s'.workers[w].task)]);
  }

  lemma FinishKeepsInv(c: Config, s: State, w: nat)
    requires Inv(c, s) && CanFinish(s, w)
    ensures Inv(c, Finish(s, w))
  {
    var t := s.workers[w].task;
    var s' := Finish(s, w);
    assert JobFits(c, s, t.job);
    assert t.job.segments[..|t.job.segments|] == t.job.segments;
    assert SlotInv(c, s, t.job.slot);
    forall i | 0 <= i < |s.slots| ensures SlotInv(c, s', i) {
      assert SlotInv(c, s, i);
      if i != t.job.slot && s.slots[i].state == Loading {
        if v :| 0 <= v < |s.workers| && s.workers[v].Busy? && s.workers[v].task.job.slot == i {
          assert s'.workers[v].Busy? && s'.workers[v].task.job.slot == i;
        }
      }
    }
  }

  lemma ExitKeepsInv(c: Config, s: State, w: nat)
    requires Inv(c, s) && CanExit(s, w)
    ensures Inv(c, Exit(s, w))
  {
    var s' := Exit(s, w);
    forall i | 0 <= i < |s.slots| ensures SlotInv(c, s', i) {
      assert SlotInv(c, s, i);
      if v :| 0 <= v < |s.workers| && s.workers[v].Busy? && s.workers[v].task.job.slot == i {
        assert s'.workers[v].Busy? && s'.workers[v].task.job.slot == i;
      }
    }
  }

  /** Every step of every thread and every client keeps the invariant. */
  lemma StepKeepsInv(c: Config, s: State, step: Step)
    requires Inv(c, s) && Enabled(c, s, step)
    ensures Inv(c, Do(c, s, step).0)
  {
    match step
    case SubmitStep(slot, generation, segments, mlock) => SubmitKeepsInv(c, s, slot, generation, segments, mlock);
    case CancelStep(slot, generation) => CancelKeepsInv(c, s, slot, generation);
    case LeaseStep(slot, generation, gpu) => LeaseKeepsInv(c, s, slot, generation, gpu);
    case ReleaseStep(slot, generation, fenced) => ReleaseKeepsInv(c, s, slot, generation, fenced);
    case DiscardStep(slot, generation, munlock, madvise, contents) =>
      DiscardKeepsInv(c, s, slot, generation, munlock, madvise, contents);
    case SetWiringStep(enabled) => FlagsKeepInv(c, s, enabled, s.stopping);
    case CloseStep => if Close(s).1 == Ok { FlagsKeepInv(c, s, s.wireSlots, true); }
    case TakeStep(w) => TakeKeepsInv(c, s, w);
    case ReadStep(w, n) => ReadKeepsInv(c, s, w, n);
    case FailStep(w, e) => FailKeepsInv(c, s, w, e);
    case FinishStep(w) => FinishKeepsInv(c, s, w);
    case ExitStep(w) => ExitKeepsInv(c, s, w);
  }
}
