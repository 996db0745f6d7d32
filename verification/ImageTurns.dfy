/** The runs of one opened image pipeline (packages/app-services/src/image-model-host.ts:83-104): every
    call of `generate` takes the current tail promise as its turn and puts its own in its place. */
module ImageTurns {

  datatype Phase = Queued | Running | Over

  /** `aborted` is the caller's signal; `passed` says that the promise this run left as the tail has
      resolved, so the next run may go on. */
  datatype Run = Run(phase: Phase, aborted: bool, passed: bool)

  /** The runs in call order; `started` remembers the order in which they reached the pipeline. */
  datatype Turns = Turns(runs: seq<Run>, started: seq<nat>)

  const EMPTY := Turns([], [])

  datatype Step = CallStep | AbortStep(run: nat) | StartStep(run: nat) | GiveUpStep(run: nat) | FinishStep(run: nat) | PassStep(run: nat) {
    predicate IsProgress() { StartStep? || GiveUpStep? || FinishStep? || PassStep? }
  }

  /** Has the promise that run k waits for resolved? The first one was resolved from the start. */
  predicate Turn(t: Turns, k: nat)
    requires k < |t.runs|
  {
    k == 0 || t.runs[k - 1].passed
  }

  predicate Enabled(t: Turns, step: Step) {
    match step
    case CallStep => true
    case AbortStep(k) => k < |t.runs|
    case StartStep(k) => k < |t.runs| && t.runs[k].phase == Queued && !t.runs[k].aborted && Turn(t, k)
    case GiveUpStep(k) => k < |t.runs| && t.runs[k].phase == Queued && t.runs[k].aborted
    case FinishStep(k) => k < |t.runs| && t.runs[k].phase == Running
    case PassStep(k) => k < |t.runs| && t.runs[k].phase == Over && !t.runs[k].passed && Turn(t, k)
  }

  function Update(t: Turns, k: nat, run: Run): Turns
    requires k < |t.runs|
  {
    t.(runs := t.runs[k := run])
  }

  function Do(t: Turns, step: Step): Turns
    requires Enabled(t, step)
  {
    match step
    case CallStep => t.(runs := t.runs + [Run(Queued, false, false)])
    case AbortStep(k) => Update(t, k, t.runs[k].(aborted := true))
    case StartStep(k) => Update(t, k, t.runs[k].(phase := Running)).(started := t.started + [k])
    case GiveUpStep(k) => Update(t, k, t.runs[k].(phase := Over))
    case FinishStep(k) => Update(t, k, t.runs[k].(phase := Over))
    case PassStep(k) => Update(t, k, t.runs[k].(passed := true))
  }

  predicate Legal(t: Turns, steps: seq<Step>)
    decreases |steps|
  {
    steps == [] || (Enabled(t, steps[0]) && Legal(Do(t, steps[0]), steps[1..]))
  }

  function After(t: Turns, steps: seq<Step>): Turns
    requires Legal(t, steps)
    decreases |steps|
  {
    if steps == [] then t else After(Do(t, steps[0]), steps[1..])
  }

  // ---- Mutual exclusion and order -------------------------------------------------------------

  /** A turn is passed on only by runs that are over, one after the other; a run that has reached the
      pipeline had its turn; every run that was not cancelled either waits or has reached the pipeline. */
  predicate Inv(t: Turns) {
    && (forall k :: 0 <= k < |t.runs| && t.runs[k].passed ==> t.runs[k].phase == Over)
    && (forall j, k :: 0 <= j < k < |t.runs| && t.runs[k].passed ==> t.runs[j].passed)
    && (forall k :: 0 <= k < |t.runs| && t.runs[k].phase == Running ==> Turn(t, k))
    && (forall n :: 0 <= n < |t.started| ==>
          t.started[n] < |t.runs| && t.runs[t.started[n]].phase != Queued && Turn(t, t.started[n]))
    && (forall m, n :: 0 <= m < n < |t.started| ==> t.started[m] < t.started[n])
    && (forall k :: 0 <= k < |t.runs| && t.runs[k].phase != Queued && !t.runs[k].aborted ==> k in t.started)
  }

  /** Every run that has reached the pipeline was called before one whose turn comes now. */
  lemma StartedEarlier(t: Turns, k: nat, n: nat)
    requires Inv(t) && Enabled(t, StartStep(k)) && n < |t.started|
    ensures t.started[n] < k
  {
  }

  lemma StartKeepsInv(t: Turns, k: nat)
    requires Inv(t) && Enabled(t, StartStep(k))
    ensures Inv(Do(t, StartStep(k)))
  {
    forall n | 0 <= n < |t.started| ensures t.started[n] < k {
      StartedEarlier(t, k, n);
    }
    var t' := Do(t, StartStep(k));
    forall j | 0 <= j < |t.runs| && t'.runs[j].phase != Queued && !t'.runs[j].aborted ensures j in t'.started {
      if j == k {
        assert t'.started[|t.started|] == k;
      } else {
        assert j in t.started;
      }
    }
    forall n | 0 <= n < |t'.started|
      ensures t'.started[n] < |t'.runs| && t'.runs[t'.started[n]].phase != Queued && Turn(t', t'.started[n])
    {
      assert n < |t.started| ==> Turn(t, t.started[n]);
    }
  }

  lemma PassKeepsInv(t: Turns, k: nat)
    requires Inv(t) && Enabled(t, PassStep(k))
    ensures Inv(Do(t, PassStep(k)))
  {
    var t' := Do(t, PassStep(k));
    forall j | 0 <= j < |t.runs| && Turn(t, j) ensures Turn(t', j) {
    }
    forall j | 0 <= j < k ensures t'.runs[j].passed {
    }
  }

  lemma CallKeepsInv(t: Turns)
    requires Inv(t)
    ensures Inv(Do(t, CallStep))
  {
    var t' := Do(t, CallStep);
    forall j | 0 <= j < |t.runs| && Turn(t, j) ensures Turn(t', j) {
    }
  }

  lemma EndKeepsInv(t: Turns, k: nat, run: Run)
    requires Inv(t) && k < |t.runs| && run.passed == t.runs[k].passed
    requires || (run.phase == Over && !run.passed && (t.runs[k].phase == Running || run.aborted))
             || (run.phase == t.runs[k].phase && run.aborted)
    requires t.runs[k].aborted ==> run.aborted
    ensures Inv(Update(t, k, run))
  {
    var t' := Update(t, k, run);
    forall j | 0 <= j < |t.runs| && Turn(t, j) ensures Turn(t', j) {
    }
  }

  lemma StepKeepsInv(t: Turns, step: Step)
    requires Inv(t) && Enabled(t, step)
    ensures Inv(Do(t, step))
  {
    match step
    case CallStep => CallKeepsInv(t);
    case AbortStep(k) => EndKeepsInv(t, k, t.runs[k].(aborted := true));
    case StartStep(k) => StartKeepsInv(t, k);
    case GiveUpStep(k) => EndKeepsInv(t, k, t.runs[k].(phase := Over));
    case FinishStep(k) => EndKeepsInv(t, k, t.runs[k].(phase := Over));
    case PassStep(k) => PassKeepsInv(t, k);
  }

  lemma {:induction false} RunKeepsInv(t: Turns, steps: seq<Step>)
    requires Inv(t) && Legal(t, steps)
    ensures Inv(After(t, steps))
    decreases |steps|
  {
    if steps != [] {
      StepKeepsInv(t, steps[0]);
      RunKeepsInv(Do(t, steps[0]), steps[1..]);
    }
  }

  /** At most one run is in the pipeline, and every run called before it is over, however many queued
      runs were cancelled in between. */
  lemma OneRunAtATime(steps: seq<Step>, j: nat, k: nat)
    requires Legal(EMPTY, steps) && j < |After(EMPTY, steps).runs| && k < |After(EMPTY, steps).runs|
    requires After(EMPTY, steps).runs[k].phase == Running
    ensures j < k ==> After(EMPTY, steps).runs[j].phase == Over
    ensures After(EMPTY, steps).runs[j].phase == Running ==> j == k
  {
    RunKeepsInv(EMPTY, steps);
    var t := After(EMPTY, steps);
    assert Turn(t, k) && Turn(t, j) == (j == 0 || t.runs[j - 1].passed);
  }

  /** Runs reach the pipeline in the order in which generate was called, each at most once. */
  lemma RunsStartInCallOrder(steps: seq<Step>, m: nat, n: nat)
    requires Legal(EMPTY, steps) && m < n < |After(EMPTY, steps).started|
    ensures After(EMPTY, steps).started[m] < After(EMPTY, steps).started[n] < |After(EMPTY, steps).runs|
  {
    RunKeepsInv(EMPTY, steps);
  }

  // ---- Cancelled runs -------------------------------------------------------------------------

  lemma AbortedStaysOut(t: Turns, step: Step, k: nat)
    requires Enabled(t, step) && k < |t.runs| && t.runs[k].aborted && t.runs[k].phase != Running && k !in t.started
    ensures var t' := Do(t, step);
            k < |t'.runs| && t'.runs[k].aborted && t'.runs[k].phase != Running && k !in t'.started
  {
  }

  /** A run that is cancelled while it is queued never reaches the pipeline, over any run; and it need not
      wait for its turn to give up. */
  lemma {:induction false} CancelledNeverStarts(t: Turns, steps: seq<Step>, k: nat)
    requires Legal(t, steps) && k < |t.runs| && t.runs[k].aborted && t.runs[k].phase != Running && k !in t.started
    ensures k !in After(t, steps).started
    ensures t.runs[k].phase == Queued ==> Enabled(t, GiveUpStep(k))
    decreases |steps|
  {
    if steps != [] {
      AbortedStaysOut(t, steps[0], k);
      CancelledNeverStarts(Do(t, steps[0]), steps[1..], k);
    }
  }

  // ---- Nobody waits for ever ------------------------------------------------------------------

  function Left(runs: seq<Run>): nat {
    if runs == [] then 0
    else
      var r := runs[0];
      (match r.phase case Queued => 3 case Running => 2 case Over => if r.passed then 0 else 1) + Left(runs[1..])
  }

  lemma ProgressDecreases(t: Turns, step: Step)
    requires Inv(t) && Enabled(t, step) && step.IsProgress()
    ensures Left(Do(t, step).runs) < Left(t.runs)
  {
    LeftUpdate(t.runs, step.run, Do(t, step).runs[step.run]);
  }

  lemma {:induction false} LeftUpdate(runs: seq<Run>, k: nat, run: Run)
    requires k < |runs|
    ensures Left(runs[k := run]) - Left([run]) == Left(runs) - Left([runs[k]])
  {
    if k == 0 {
      assert runs[k := run][1..] == runs[1..];
    } else {
      assert runs[k := run][1..] == runs[1..][k - 1 := run];
      LeftUpdate(runs[1..], k - 1, run);
    }
  }

  ghost predicate Quiet(t: Turns) {
    forall step: Step :: step.IsProgress() ==> !Enabled(t, step)
  }

  predicate AllServed(t: Turns) {
    forall k :: 0 <= k < |t.runs| ==> t.runs[k].phase == Over && t.runs[k].passed && (!t.runs[k].aborted ==> k in t.started)
  }

  /** If no more calls come, every run that was not cancelled gets its turn: the queue empties after
      boundedly many steps, and it only stops when every run is over and has passed its turn on. */
  lemma {:induction false} QueueEmpties(t: Turns, steps: seq<Step>)
    requires Inv(t) && Legal(t, steps)
    requires forall k :: 0 <= k < |steps| ==> steps[k].IsProgress()
    ensures |steps| <= Left(t.runs)
    ensures Quiet(After(t, steps)) ==> AllServed(After(t, steps))
    decreases |steps|
  {
    if steps == [] {
      if Quiet(t) {
        StuckMeansEmpty(t, |t.runs|);
      }
    } else {
      StepKeepsInv(t, steps[0]);
      ProgressDecreases(t, steps[0]);
      QueueEmpties(Do(t, steps[0]), steps[1..]);
    }
  }

  lemma {:induction false} StuckMeansEmpty(t: Turns, n: nat)
    requires Inv(t) && n <= |t.runs|
    requires Quiet(t)
    ensures forall k :: 0 <= k < n ==> t.runs[k].phase == Over && t.runs[k].passed
  {
    if n > 0 {
      StuckMeansEmpty(t, n - 1);
      var k := n - 1;
      assert StartStep(k).IsProgress() && GiveUpStep(k).IsProgress() && FinishStep(k).IsProgress() && PassStep(k).IsProgress();
    }
  }

  // ---- The tail promise in place --------------------------------------------------------------

  class Promise {
    var resolved: bool

    constructor (resolved: bool)
      ensures this.resolved == resolved
    {
      this.resolved := resolved;
    }
  }

  /** A call of generate between its awaits. */
  class Ticket {
    const previous: Promise
    const finished: Promise
    var phase: Phase
    var aborted: bool

    constructor (previous: Promise, finished: Promise)
      ensures this.previous == previous && this.finished == finished && phase == Queued && !aborted
    {
      this.previous, this.finished := previous, finished;
      phase, aborted := Queued, false;
    }
  }

  class Opened {
    var tail: Promise
    ghost var tickets: seq<Ticket>
    ghost var promises: seq<Promise>
    ghost var turns: Turns

    /** Promise k is what ticket k waits for and promise k + 1 what it resolves; the tail is the last. */
    ghost predicate Valid()
      reads this, tickets, promises
    {
      && |promises| == |tickets| + 1 == |turns.runs| + 1
      && tail == promises[|tickets|]
      && promises[0].resolved
      && (forall j, k :: 0 <= j < k < |promises| ==> promises[j] != promises[k])
      && (forall j, k :: 0 <= j < k < |tickets| ==> tickets[j] != tickets[k])
      && (forall k :: 0 <= k < |tickets| ==>
            && tickets[k].previous == promises[k] && tickets[k].finished == promises[k + 1]
            && turns.runs[k] == Run(tickets[k].phase, tickets[k].aborted, promises[k + 1].resolved))
    }

    lemma TicketIsRun(k: nat)
      requires Valid() && k < |tickets|
      ensures turns.runs[k] == Run(tickets[k].phase, tickets[k].aborted, tickets[k].finished.resolved)
      ensures Turn(turns, k) == tickets[k].previous.resolved
    {
      assert tickets[k].previous == promises[k] && tickets[k].finished == promises[k + 1];
      if k > 0 {
        assert tickets[k - 1].finished == promises[k];
      }
    }

    constructor ()
      ensures Valid() && turns == EMPTY && fresh(promises) && tickets == []
    {
      var p := new Promise(true);
      tail := p;
      tickets, promises, turns := [], [p], EMPTY;
    }

    /** generate up to its first await. */
    method Generate() returns (ticket: Ticket)
      requires Valid()
      modifies this
      ensures Valid() && fresh(ticket) && turns == Do(old(turns), CallStep)
      ensures tickets == old(tickets) + [ticket] && promises == old(promises) + [ticket.finished] && fresh(ticket.finished)
    {
      var finished := new Promise(false);
      ticket := new Ticket(tail, finished);
      tail := finished;
      tickets, promises, turns := tickets + [ticket], promises + [finished], Do(turns, CallStep);
    }

    /** The signal of a run fires. */
    method Abort(ticket: Ticket, ghost k: nat)
      requires Valid() && k < |tickets| && tickets[k] == ticket
      modifies this`turns, ticket`aborted
      ensures Valid() && ticket.aborted && Enabled(old(turns), AbortStep(k)) && turns == Do(old(turns), AbortStep(k))
    {
      TicketIsRun(k);
      ticket.aborted := true;
      turns := Do(turns, AbortStep(k));
    }

    /** The wait is over: either the turn has come, or the signal has fired. */
    method Continue(ticket: Ticket, ghost k: nat) returns (started: bool)
      requires Valid() && k < |tickets| && tickets[k] == ticket && ticket.phase == Queued
      requires ticket.aborted || ticket.previous.resolved
      modifies this`turns, ticket`phase
      ensures Valid() && started == !old(ticket.aborted)
      ensures if started then Enabled(old(turns), StartStep(k)) && turns == Do(old(turns), StartStep(k))
              else Enabled(old(turns), GiveUpStep(k)) && turns == Do(old(turns), GiveUpStep(k))
    {
      TicketIsRun(k);
      started := !ticket.aborted;
      ticket.phase := if started then Running else Over;
      turns := Do(turns, if started then StartStep(k) else GiveUpStep(k));
    }

    /** The pipeline is done with a run. */
    method Finish(ticket: Ticket, ghost k: nat)
      requires Valid() && k < |tickets| && tickets[k] == ticket && ticket.phase == Running
      modifies this`turns, ticket`phase
      ensures Valid() && Enabled(old(turns), FinishStep(k)) && turns == Do(old(turns), FinishStep(k))
    {
      TicketIsRun(k);
      ticket.phase := Over;
      turns := Do(turns, FinishStep(k));
    }

    /** What a finished run left behind: once the previous run has passed its turn on, so does this one. */
    method PassOn(ticket: Ticket, ghost k: nat)
      requires Valid() && k < |tickets| && tickets[k] == ticket && ticket.phase == Over
      requires ticket.previous.resolved && !ticket.finished.resolved
      modifies this`turns, ticket.finished
      ensures Valid() && Enabled(old(turns), PassStep(k)) && turns == Do(old(turns), PassStep(k))
    {
      TicketIsRun(k);
      ticket.finished.resolved := true;
      turns := Do(turns, PassStep(k));
      assert ticket.finished == promises[k + 1];
      forall j | 0 <= j < |tickets|
        ensures turns.runs[j] == Run(tickets[j].phase, tickets[j].aborted, promises[j + 1].resolved)
      {
        assert j != k ==> promises[j + 1] != promises[k + 1];
      }
    }
  }
}
