/** The event hub with its subscribers updated in place, proved to take the steps of the state machine. */
module EventHubs {
  import opened Counting
  import opened EventHubModel
  import opened EventHubTheorems
  import opened Wrappers

  // ---- The sizes --------------------------------------------------------------------------------

  /** A number of JavaScript, without its precision. */
  datatype Number = Finite(value: real) | Infinite | NegativeInfinite | NotANumber

  /** `x < size` and `x >= size` of JavaScript; both are false if the size is not a number. */
  predicate Less(x: int, size: Number) {
    size.Infinite? || (size.Finite? && x as real < size.value)
  }

  predicate AtLeast(x: int, size: Number) {
    size.NegativeInfinite? || (size.Finite? && x as real >= size.value)
  }

  /** A size given as an option: rounded down and at least one, or a default if it is left out. */
  function Size(option: Option<Number>, default: nat): Number {
    match option
    case None => Finite(Max(1, default) as real)
    case Some(Finite(value)) => Finite(Max(1, value.Floor) as real)
    case Some(NegativeInfinite) => Finite(1.0)
    case Some(number) => number
  }

  /** The numbers that are at least a size. */
  function FullAt(size: Number): (r: Limit)
    requires size.Finite? ==> size.value >= 0.0 && size.value == size.value.Floor as real
    requires !size.NegativeInfinite?
    ensures forall x: nat :: r.Met(x) <==> AtLeast(x, size)
  {
    if size.Finite? then AtMost(size.value.Floor) else Unlimited
  }

  /** The numbers that are not below a size. */
  function SpentAt(size: Number): (r: Limit)
    requires size.Finite? ==> size.value >= 0.0 && size.value == size.value.Floor as real
    requires !size.NegativeInfinite?
    ensures forall x: nat :: r.Met(x) <==> !Less(x, size)
  {
    if size.NotANumber? then AtMost(0) else FullAt(size)
  }

  lemma FloorMeans(value: real, x: nat)
    ensures x >= value.Floor <==> x as real > value - 1.0
  {
    var floor := value.Floor;
    assert floor as real <= value < floor as real + 1.0;
    if x >= floor {
      assert x as real >= floor as real;
    } else {
      assert x as real <= floor as real - 1.0;
    }
  }

  lemma SameAsInt(x: int, n: int)
    ensures x as real >= n as real <==> x >= n
  {
  }

  /** What a size means: a number x of events is at least the size if it is at least one and at least the
      option rounded down; a size left out is its default; none is infinity, and none is anything that is
      not a number; and x is below a size exactly if it is not at least it, unless that is not a number. */
  lemma SizesMean(option: Option<Number>, default: nat, x: nat)
    requires default >= 1
    ensures AtLeast(x, Size(option, default)) <==>
              match option
              case None => x >= default
              case Some(Finite(value)) => x >= 1 && x as real > value - 1.0
              case Some(NegativeInfinite) => x >= 1
              case Some(_) => false
    ensures Less(x, Size(option, default)) <==> option != Some(NotANumber) && !AtLeast(x, Size(option, default))
  {
    match option
    case None => SameAsInt(x, default);
    case Some(Finite(value)) =>
      FloorMeans(value, x);
      SameAsInt(x, Max(1, value.Floor));
    case Some(NegativeInfinite) => SameAsInt(x, 1);
    case Some(_) =>
  }

  // ---- One subscriber ---------------------------------------------------------------------------

  class Subscriber {
    const types: Types
    var queue: seq<Event>
    var head: nat
    var scheduled: bool
    var active: bool
    var delivered: nat
    var dropped: nat
    var failed: nat
    ghost var accepted: seq<Event>
    ghost var fate: seq<bool>
    ghost var handed: seq<Event>
    ghost var copied: nat

    constructor (types: Types)
      ensures View() == Sub(types, [], 0, false, true, 0, 0, 0, [], [], [], 0)
    {
      this.types := types;
      queue, head, scheduled, active := [], 0, false, true;
      delivered, dropped, failed := 0, 0, 0;
      accepted, fate, handed, copied := [], [], [], 0;
    }

    ghost function View(): Sub
      reads this
    {
      Sub(types, queue, head, scheduled, active, delivered, dropped, failed, accepted, fate, handed, copied)
    }

    method Slice()
      requires head <= |queue|
      modifies this`queue, this`head, this`copied
      ensures View() == Sliced(old(View()))
    {
      copied := copied + |queue| - head;
      queue := queue[head..];
      head := 0;
    }

    /** The queue part of publishing to a subscriber that wants the event. */
    method Push(c: Config, e: Event)
      requires head <= |queue| && c.Valid() && Wants(View(), e)
      modifies this
      ensures View() == Offered(c, old(View()), e).(scheduled := old(scheduled))
    {
      if c.buffer.Met(|queue| - head) {
        head, dropped, fate := head + 1, dropped + 1, fate + [false];
        if c.buffer.Met(head) {
          Slice();
        }
      }
      queue, accepted := queue + [e], accepted + [e];
    }

    /** Takes the next event out for delivery. */
    method Take() returns (event: Event)
      requires head < |queue|
      modifies this
      ensures View() == Taken(old(View()))
      ensures event == old(queue[head])
    {
      event := queue[head];
      head := head + 1;
      if head >= 64 && head * 2 >= |queue| {
        Slice();
      }
      delivered, fate, handed := delivered + 1, fate + [true], handed + [event];
    }

    /** Leaving: nothing more is delivered and the queue is given up. */
    method Silence()
      modifies this
      ensures View() == Silenced(old(View()))
    {
      active, queue, head := false, [], 0;
    }

    method CountFailure()
      modifies this`failed
      ensures View() == old(View()).(failed := old(failed) + 1)
    {
      failed := failed + 1;
    }
  }

  ghost predicate Distinct(subs: seq<Subscriber>) {
    forall i, j :: 0 <= i < j < |subs| ==> subs[i] != subs[j]
  }

  lemma Associate<T>(a: seq<T>, b: seq<T>, c: seq<T>)
    ensures (a + b) + c == a + (b + c)
  {
  }

  /** Calls that handlers and other code make, not steps of a delivery pass. */
  predicate FromOutside(actions: seq<Step>) {
    forall k :: 0 <= k < |actions| ==> !actions[k].IsDelivery()
  }

  /** A run of the state machine from one state to another. */
  predicate IsRun(c: Config, start: Hub, steps: seq<Step>, end: Hub)
    requires c.Valid()
  {
    Indexed(start) && Legal(c, start, steps) && After(c, start, steps) == end
  }

  lemma RunOn(c: Config, start: Hub, steps: seq<Step>, h: Hub, step: Step)
    requires c.Valid() && IsRun(c, start, steps, h) && Indexed(h) && Enabled(c, h, step) && Indexed(Do(c, h, step))
    ensures IsRun(c, start, steps + [step], Do(c, h, step))
    decreases |steps|
  {
    if steps == [] {
      assert ([] + [step])[1..] == [];
    } else {
      assert (steps + [step])[1..] == steps[1..] + [step];
      RunOn(c, Do(c, start, steps[0]), steps[1..], h, step);
    }
  }

  /** `subs` lists every subscriber there ever was, in subscription order; the members of the program's
      set are the active ones. `passes` holds the callbacks given to the scheduler. `views` repeats the
      subscribers as values. */
  class EventHub {
    const config: Config
    var subs: seq<Subscriber>
    var passes: seq<nat>
    var closed: bool
    var published: nat
    var rejected: nat
    ghost var running: Pass
    ghost var views: seq<Sub>

    /** A buffer size that is not a number bounds nothing; a batch size that is not a number is the one
        with which a batch is full from the start. */
    constructor (bufferSize: Option<Number>, batchSize: Option<Number>)
      ensures Valid() && State() == EMPTY
      ensures forall x: nat :: config.buffer.Met(x) <==> AtLeast(x, Size(bufferSize, 1024))
      ensures forall x: nat :: config.batch.Met(x) <==> !Less(x, Size(batchSize, 256))
      ensures config.batch.Met(0) <==> batchSize == Some(NotANumber)
    {
      config := Config(FullAt(Size(bufferSize, 1024)), SpentAt(Size(batchSize, 256)));
      subs, passes, closed, published, rejected, running, views := [], [], false, 0, 0, Nobody, [];
    }

    ghost function State(): Hub
      reads this
    {
      Hub(views, passes, running, closed, published, rejected)
    }

    ghost predicate Coupled()
      reads this, subs
    {
      && |views| == |subs|
      && forall i :: 0 <= i < |subs| ==> subs[i].View() == views[i]
    }

    ghost predicate Valid()
      reads this, subs
    {
      config.Valid() && Distinct(subs) && Coupled() && Indexed(State())
    }

    method Publish(m: Message)
      requires Valid()
      modifies this`published, this`rejected, this`passes, this`views, subs
      ensures Valid()
      ensures State() == EventHubModel.Publish(config, old(State()), m)
    {
      if closed {
        return;
      }
      if m.Malformed? {
        rejected := rejected + 1;
        return;
      }
      PublishIsIndexed(config, State(), m);
      Distribute(m.event);
    }

    /** An event for an open hub. */
    method Distribute(e: Event)
      requires config.Valid() && Distinct(subs) && Coupled()
      requires forall k :: 0 <= k < |views| ==> views[k].head <= |views[k].queue|
      modifies this`published, this`passes, this`views, subs
      ensures Coupled()
      ensures State() == old(State()).(published := old(published) + 1, subs := OfferedAll(config, old(views), e),
                                       passes := old(passes) + NewPasses(old(views), e, |subs|))
    {
      published := published + 1;
      OfferAll(e);
    }

    /** The loop over the subscribers that are interested in an event. */
    method OfferAll(e: Event)
      requires config.Valid() && Distinct(subs) && Coupled()
      requires forall k :: 0 <= k < |views| ==> views[k].head <= |views[k].queue|
      modifies this`passes, this`views, subs
      ensures Coupled() && views == OfferedAll(config, old(views), e)
      ensures passes == old(passes) + NewPasses(old(views), e, |subs|)
    {
      ghost var before, after := views, OfferedAll(config, views, e);
      for i := 0 to |subs|
        invariant Coupled() && |views| == |before|
        invariant forall j :: 0 <= j < |views| ==> views[j] == if j < i then after[j] else before[j]
        invariant passes == old(passes) + NewPasses(before, e, i)
      {
        Associate(old(passes), NewPasses(before, e, i), PassFor(before[i], e, i));
        OfferAt(i, e);
      }
    }

    /** One turn of that loop. */
    method OfferAt(i: nat, e: Event)
      requires config.Valid() && Distinct(subs) && Coupled() && i < |subs| && views[i].head <= |views[i].queue|
      modifies this`passes, this`views, subs[i..i + 1]
      ensures Coupled() && views == old(views)[i := Offered(config, old(views)[i], e)]
      ensures passes == old(passes) + PassFor(old(views)[i], e, i)
    {
      assert subs[i] in subs[i..i + 1];
      OfferTo(subs[i], i, e);
      views := views[i := subs[i].View()];
    }

    method OfferTo(s: Subscriber, i: nat, e: Event)
      requires config.Valid() && s.head <= |s.queue|
      modifies this`passes, s
      ensures s.View() == Offered(config, old(s.View()), e)
      ensures passes == old(passes) + PassFor(old(s.View()), e, i)
    {
      if s.active && (s.types.All? || e.kind in s.types.kinds) {
        s.Push(config, e);
        Enqueue(s, i);
      }
    }

    /** Schedules a pass for subscriber number i unless one is waiting. */
    method Enqueue(s: Subscriber, i: nat)
      modifies this`passes, s`scheduled
      ensures passes == old(passes) + if old(s.scheduled) then [] else [i]
      ensures s.View() == old(s.View()).(scheduled := true)
    {
      if s.scheduled {
        return;
      }
      s.scheduled := true;
      passes := passes + [i];
    }

    method Subscribe(types: Types) returns (s: Subscriber?)
      requires Valid()
      modifies this`subs, this`views
      ensures Valid()
      ensures State() == EventHubModel.Subscribe(old(State()), types)
      ensures if old(closed) then s == null && subs == old(subs) else fresh(s) && subs == old(subs) + [s]
    {
      if closed {
        return null;
      }
      s := new Subscriber(types);
      subs, views := subs + [s], views + [s.View()];
    }

    method Unsubscribe(i: nat)
      requires Valid() && i < |subs|
      modifies this`views, subs[i..i + 1]
      ensures Valid()
      ensures State() == EventHubModel.Unsubscribe(old(State()), i)
    {
      assert subs[i] in subs[i..i + 1];
      subs[i].Silence();
      views := views[i := subs[i].View()];
    }

    method Close()
      requires Valid()
      modifies this`closed, this`views, subs
      ensures Valid()
      ensures State() == EventHubModel.Close(old(State()))
    {
      closed := true;
      SilenceAll();
    }

    method SilenceAll()
      requires Distinct(subs) && Coupled()
      modifies this`views, subs
      ensures Coupled() && views == SilencedAll(old(views))
    {
      ghost var before, after := views, SilencedAll(views);
      for i := 0 to |subs|
        invariant Coupled() && |views| == |before|
        invariant forall j :: 0 <= j < |views| ==> views[j] == if j < i then after[j] else before[j]
      {
        if subs[i].active {
          subs[i].Silence();
        }
        views := views[i := subs[i].View()];
      }
    }

    method Fail(i: nat)
      requires Valid() && i < |subs|
      modifies this`views, subs[i..i + 1]
      ensures Valid()
      ensures State() == Failed(old(State()), i)
    {
      assert subs[i] in subs[i..i + 1];
      subs[i].CountFailure();
      views := views[i := subs[i].View()];
    }

    // ---- Delivery -----------------------------------------------------------------------------

    /** The start of the callback at place k of the scheduler. */
    method Begin(k: nat) returns (i: nat)
      requires Valid() && running.Nobody? && k < |passes|
      modifies this`passes, this`running, this`views, subs[passes[k]..passes[k] + 1]
      ensures Valid() && i < |subs| && running == Pass(i, 0)
      ensures State() == Start(old(State()), k)
    {
      i := passes[k];
      assert subs[i] in subs[i..i + 1];
      passes := passes[..k] + passes[k + 1..];
      subs[i].scheduled := false;
      running, views := Pass(i, 0), views[i := subs[i].View()];
    }

    method HandNext(i: nat) returns (event: Event)
      requires Valid() && running.Pass? && running.sub == i && More(config, State())
      modifies this`running, this`views, subs[i..i + 1]
      ensures Valid()
      ensures State() == Hand(config, old(State()))
      ensures event == old(views[i].queue[views[i].head])
    {
      assert subs[i] in subs[i..i + 1];
      event := subs[i].Take();
      running, views := Pass(i, running.count + 1), views[i := subs[i].View()];
    }

    method End(i: nat)
      requires Valid() && running.Pass? && running.sub == i
      modifies this`passes, this`running, this`views, subs[i..i + 1]
      ensures Valid() && running.Nobody?
      ensures State() == Finish(old(State()))
    {
      running := Nobody;
      assert subs[i] in subs[i..i + 1];
      if subs[i].active && |subs[i].queue| - subs[i].head > 0 {
        Enqueue(subs[i], i);
        views := views[i := subs[i].View()];
      }
    }

    /** What code outside the delivery loop may do: the call is made if its subscriber exists. */
    method Act(step: Step) returns (ghost done: bool)
      requires Valid() && !step.IsDelivery()
      modifies this, subs
      ensures Valid() && running == old(running)
      ensures old(subs) <= subs
      ensures forall j :: |old(subs)| <= j < |subs| ==> fresh(subs[j])
      ensures done == Enabled(config, old(State()), step)
      ensures State() == if done then Do(config, old(State()), step) else old(State())
    {
      done := true;
      match step
      case PublishStep(m) => Publish(m);
      case SubscribeStep(types) => var s := Subscribe(types);
      case UnsubscribeStep(i) =>
        done := i < |subs|;
        if i < |subs| {
          Unsubscribe(i);
        }
      case CloseStep => Close();
      case FailStep(i) =>
        done := i < |subs|;
        if i < |subs| {
          Fail(i);
        }
      case _ =>
    }

    /** The calls that a handler makes while it is given an event; they extend the run so far. */
    method Handle(actions: seq<Step>, ghost start: Hub, ghost before: seq<Step>) returns (ghost trace: seq<Step>)
      requires Valid() && FromOutside(actions)
      requires IsRun(config, start, before, State())
      modifies this, subs
      ensures Valid() && running == old(running)
      ensures old(subs) <= subs
      ensures forall j :: |old(subs)| <= j < |subs| ==> fresh(subs[j])
      ensures IsRun(config, start, trace, State())
      ensures before <= trace
    {
      trace := before;
      for k := 0 to |actions|
        invariant Valid() && running == old(running)
        invariant old(subs) <= subs
        invariant forall j :: |old(subs)| <= j < |subs| ==> fresh(subs[j])
        invariant IsRun(config, start, trace, State())
        invariant before <= trace
      {
        trace := Perform(actions[k], start, trace);
      }
    }

    /** One such call. */
    method Perform(action: Step, ghost start: Hub, ghost before: seq<Step>) returns (ghost trace: seq<Step>)
      requires Valid() && !action.IsDelivery()
      requires IsRun(config, start, before, State())
      modifies this, subs
      ensures Valid() && running == old(running)
      ensures old(subs) <= subs
      ensures forall j :: |old(subs)| <= j < |subs| ==> fresh(subs[j])
      ensures IsRun(config, start, trace, State())
      ensures before <= trace
    {
      trace := before;
      ghost var h := State();
      ghost var done := Act(action);
      if done {
        RunOn(config, start, before, h, action);
        trace := trace + [action];
      }
    }

    /** One iteration of the delivery loop. */
    method HandAndHandle(i: nat, actions: seq<Step>, ghost start: Hub, ghost before: seq<Step>) returns (ghost trace: seq<Step>)
      requires Valid() && FromOutside(actions)
      requires running.Pass? && running.sub == i && More(config, State())
      requires IsRun(config, start, before, State())
      modifies this, subs
      ensures Valid() && running == Pass(i, old(running.count) + 1)
      ensures old(subs) <= subs
      ensures forall j :: |old(subs)| <= j < |subs| ==> fresh(subs[j])
      ensures IsRun(config, start, trace, State())
      ensures before <= trace
    {
      ghost var h := State();
      var event := HandNext(i);
      RunOn(config, start, before, h, HandStep);
      trace := Handle(actions, start, before + [HandStep]);
    }

    /** The delivery loop: at most a batch of events, each followed by what the handler does. It is over
        unless the handler would be given more events than the script has entries. */
    method HandBatch(i: nat, script: seq<seq<Step>>, ghost start: Hub, ghost before: seq<Step>)
      returns (over: bool, ghost trace: seq<Step>)
      requires Valid() && i < |subs| && running == Pass(i, 0)
      requires forall a :: 0 <= a < |script| ==> FromOutside(script[a])
      requires IsRun(config, start, before, State())
      modifies this, subs
      ensures Valid() && i < |subs| && subs[i] == old(subs[i]) && running.Pass? && running.sub == i
      ensures over == !More(config, State()) && running.count <= |script| && (over || running.count == |script|)
      ensures IsRun(config, start, trace, State())
      ensures before <= trace
    {
      trace := before;
      var handed := 0;
      while subs[i].active && |subs[i].queue| - subs[i].head > 0 && !config.batch.Met(handed) && handed < |script|
        invariant Valid() && old(subs) <= subs
        invariant running == Pass(i, handed) && handed <= |script|
        invariant forall j :: |old(subs)| <= j < |subs| ==> fresh(subs[j])
        invariant IsRun(config, start, trace, State())
        invariant before <= trace
        decreases |script| - handed
      {
        trace := HandAndHandle(i, script[handed], start, trace);
        handed := handed + 1;
      }
      over := !(subs[i].active && |subs[i].queue| - subs[i].head > 0 && !config.batch.Met(handed));
    }

    /** One delivery pass. Whatever the handler does when it is given an event, the pass is a run of the
        state machine that starts this pass and ends it, so everything proved of runs holds across it. A
        pass without a limit that outlasts the script is followed up to the script's end. */
    method Deliver(k: nat, script: seq<seq<Step>>) returns (over: bool, ghost trace: seq<Step>)
      requires Valid() && running.Nobody? && k < |passes|
      requires forall a :: 0 <= a < |script| ==> FromOutside(script[a])
      modifies this, subs
      ensures Valid() && IsRun(config, old(State()), trace, State())
      ensures |trace| >= 1 && trace[0] == StartStep(k)
      ensures over ==> running.Nobody? && |trace| >= 2 && trace[|trace| - 1] == FinishStep
      ensures !over ==> running.Pass? && running.count == |script| && More(config, State())
      ensures config.batch.Met(|script|) ==> over
    {
      ghost var start := State();
      var i := Begin(k);
      RunOn(config, start, [], start, StartStep(k));
      over, trace := HandBatch(i, script, start, [] + [StartStep(k)]);
      if over {
        ghost var h := State();
        End(i);
        RunOn(config, start, trace, h, FinishStep);
        trace := trace + [FinishStep];
      }
    }
  }
}
