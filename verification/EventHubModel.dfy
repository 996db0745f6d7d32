/** The in-process event hub of packages/app-services/src/events.ts as a state machine.

    JavaScript runs one thing at a time: a publisher, or one delivery pass. A pass hands events to a
    handler one by one, and between two events the handler may publish, subscribe, unsubscribe or
    close, so every such call is a step that may also occur inside a pass. Scheduled passes wait in
    `passes` and may start in any order. */
module EventHubModel {

  datatype Event = Event(kind: string, data: int)

  /** What `publish` is called with: an event, or a value that is not one. */
  datatype Message = Malformed | Message(event: Event)

  datatype Types = All | Only(kinds: set<string>)

  /** A subscriber. The last four fields are not in the program; they remember what happened to it:
      the matching events published while it was active, the fate of each of the oldest of them (was
      it handed over, or dropped), what its handler was given, and how many elements slicing copied. */
  datatype Sub = Sub(types: Types, queue: seq<Event>, head: nat, scheduled: bool, active: bool,
                     delivered: nat, dropped: nat, failed: nat,
                     accepted: seq<Event>, fate: seq<bool>, handed: seq<Event>, copied: nat)

  /** A number of events that counts as full, if any number does. */
  datatype Limit = AtMost(n: nat) | Unlimited {
    predicate Met(x: int) { AtMost? && x >= n }
  }

  /** The sizes of the buffers and of a batch. A batch of size nought is full from the start. */
  datatype Config = Config(buffer: Limit, batch: Limit) {
    predicate Valid() { buffer.AtMost? ==> buffer.n >= 1 }
  }

  /** A delivery pass in progress: its subscriber and how many events it has handed over. */
  datatype Pass = Nobody | Pass(sub: nat, count: nat)

  datatype Hub = Hub(subs: seq<Sub>, passes: seq<nat>, running: Pass, closed: bool, published: nat, rejected: nat)

  const EMPTY := Hub([], [], Nobody, false, 0, 0)

  // ---- One subscriber -------------------------------------------------------------------------

  function Pending(s: Sub): int { |s.queue| - s.head }

  predicate Wants(s: Sub, e: Event) {
    s.active && (s.types.All? || e.kind in s.types.kinds)
  }

  /** Drop the consumed prefix of the array. */
  function Sliced(s: Sub): Sub
    requires s.head <= |s.queue|
  {
    s.(queue := s.queue[s.head..], head := 0, copied := s.copied + |s.queue| - s.head)
  }

  /** A full queue loses its oldest event; the array is sliced once the prefix is as long as the buffer. */
  function MakeRoom(c: Config, s: Sub): Sub
    requires s.head <= |s.queue| && c.Valid()
  {
    if !c.buffer.Met(Pending(s)) then s
    else
      var s' := s.(head := s.head + 1, dropped := s.dropped + 1, fate := s.fate + [false]);
      if c.buffer.Met(s'.head) then Sliced(s') else s'
  }

  /** What publishing e does to one subscriber. */
  function Offered(c: Config, s: Sub, e: Event): Sub
    requires s.head <= |s.queue| && c.Valid()
  {
    if !Wants(s, e) then s
    else
      var s' := MakeRoom(c, s);
      s'.(queue := s'.queue + [e], scheduled := true, accepted := s'.accepted + [e])
  }

  /** Taking the next event for delivery: the array is sliced once the consumed prefix dominates. */
  function Taken(s: Sub): Sub
    requires s.head < |s.queue|
  {
    var e := s.queue[s.head];
    var s' := s.(head := s.head + 1);
    var s'' := if s'.head >= 64 && s'.head * 2 >= |s'.queue| then Sliced(s') else s';
    s''.(delivered := s''.delivered + 1, fate := s''.fate + [true], handed := s''.handed + [e])
  }

  function Silenced(s: Sub): Sub { s.(active := false, queue := [], head := 0) }

  // ---- The hub --------------------------------------------------------------------------------

  predicate Indexed(h: Hub) {
    && (forall i :: 0 <= i < |h.subs| ==> h.subs[i].head <= |h.subs[i].queue|)
    && (forall k :: 0 <= k < |h.passes| ==> h.passes[k] < |h.subs|)
    && (h.running.Pass? ==> h.running.sub < |h.subs|)
  }

  /** Does publishing e schedule a pass for this subscriber? */
  predicate Wakes(s: Sub, e: Event) {
    Wants(s, e) && !s.scheduled
  }

  function PassFor(s: Sub, e: Event, i: nat): seq<nat> {
    if Wakes(s, e) then [i] else []
  }

  /** The passes that publishing e schedules, for the subscribers before number n in the order in
      which they subscribed. */
  function NewPasses(subs: seq<Sub>, e: Event, n: nat): seq<nat>
    requires n <= |subs|
  {
    if n == 0 then []
    else NewPasses(subs, e, n - 1) + PassFor(subs[n - 1], e, n - 1)
  }

  function OfferedAll(c: Config, subs: seq<Sub>, e: Event): (r: seq<Sub>)
    requires c.Valid() && forall i :: 0 <= i < |subs| ==> subs[i].head <= |subs[i].queue|
    ensures |r| == |subs|
    ensures forall i :: 0 <= i < |r| ==> r[i] == Offered(c, subs[i], e)
  {
    seq(|subs|, i requires 0 <= i < |subs| => Offered(c, subs[i], e))
  }

  function SilencedAll(subs: seq<Sub>): (r: seq<Sub>)
    ensures |r| == |subs|
    ensures forall i :: 0 <= i < |r| ==> r[i] == if subs[i].active then Silenced(subs[i]) else subs[i]
  {
    seq(|subs|, i requires 0 <= i < |subs| => if subs[i].active then Silenced(subs[i]) else subs[i])
  }

  function Publish(c: Config, h: Hub, m: Message): Hub
    requires Indexed(h) && c.Valid()
  {
    if h.closed then h
    else if m.Malformed? then h.(rejected := h.rejected + 1)
    else
      h.(published := h.published + 1,
         subs := OfferedAll(c, h.subs, m.event),
         passes := h.passes + NewPasses(h.subs, m.event, |h.subs|))
  }

  function Subscribe(h: Hub, types: Types): Hub {
    if h.closed then h
    else h.(subs := h.subs + [Sub(types, [], 0, false, true, 0, 0, 0, [], [], [], 0)])
  }

  function Unsubscribe(h: Hub, i: nat): Hub
    requires i < |h.subs|
  {
    h.(subs := h.subs[i := Silenced(h.subs[i])])
  }

  function Close(h: Hub): Hub {
    h.(closed := true, subs := SilencedAll(h.subs))
  }

  function Failed(h: Hub, i: nat): Hub
    requires i < |h.subs|
  {
    h.(subs := h.subs[i := h.subs[i].(failed := h.subs[i].failed + 1)])
  }

  /** The scheduler calls pass number k. */
  function Start(h: Hub, k: nat): Hub
    requires Indexed(h) && k < |h.passes|
  {
    var i := h.passes[k];
    h.(passes := h.passes[..k] + h.passes[k + 1..], running := Pass(i, 0), subs := h.subs[i := h.subs[i].(scheduled := false)])
  }

  /** The loop condition of a pass. */
  predicate More(c: Config, h: Hub)
    requires Indexed(h) && h.running.Pass?
  {
    var s := h.subs[h.running.sub];
    s.active && Pending(s) > 0 && !c.batch.Met(h.running.count)
  }

  function Hand(c: Config, h: Hub): Hub
    requires Indexed(h) && h.running.Pass? && More(c, h)
  {
    var i := h.running.sub;
    h.(running := Pass(i, h.running.count + 1), subs := h.subs[i := Taken(h.subs[i])])
  }

  /** The end of a pass: what is left is scheduled again, unless the handler already did that. */
  function Finish(h: Hub): Hub
    requires Indexed(h) && h.running.Pass?
  {
    var i := h.running.sub;
    var s := h.subs[i];
    var h' := h.(running := Nobody);
    if s.active && Pending(s) > 0 && !s.scheduled then
      h'.(passes := h.passes + [i], subs := h.subs[i := s.(scheduled := true)])
    else h'
  }

  // ---- Runs -----------------------------------------------------------------------------------

  datatype Step =
    | PublishStep(message: Message)
    | SubscribeStep(types: Types)
    | UnsubscribeStep(sub: nat)
    | CloseStep
    | FailStep(sub: nat)
    | StartStep(k: nat)
    | HandStep
    | FinishStep
  {
    /** Steps of the delivery loop, as opposed to calls made by publishers and handlers. */
    predicate IsDelivery() { StartStep? || HandStep? || FinishStep? }
  }

  predicate Enabled(c: Config, h: Hub, step: Step)
    requires Indexed(h)
  {
    match step
    case UnsubscribeStep(i) => i < |h.subs|
    case FailStep(i) => i < |h.subs|
    case StartStep(k) => h.running.Nobody? && k < |h.passes|
    case HandStep => h.running.Pass? && More(c, h)
    case FinishStep => h.running.Pass? && !More(c, h)
    case _ => true
  }

  function Do(c: Config, h: Hub, step: Step): Hub
    requires c.Valid() && Indexed(h) && Enabled(c, h, step)
  {
    match step
    case PublishStep(m) => Publish(c, h, m)
    case SubscribeStep(types) => Subscribe(h, types)
    case UnsubscribeStep(i) => Unsubscribe(h, i)
    case CloseStep => Close(h)
    case FailStep(i) => Failed(h, i)
    case StartStep(k) => Start(h, k)
    case HandStep => Hand(c, h)
    case FinishStep => Finish(h)
  }

  predicate Legal(c: Config, h: Hub, steps: seq<Step>)
    requires c.Valid() && Indexed(h)
    decreases |steps|
  {
    steps == [] || (Enabled(c, h, steps[0]) && Indexed(Do(c, h, steps[0])) && Legal(c, Do(c, h, steps[0]), steps[1..]))
  }

  function After(c: Config, h: Hub, steps: seq<Step>): Hub
    requires c.Valid() && Indexed(h) && Legal(c, h, steps)
    decreases |steps|
  {
    if steps == [] then h else After(c, Do(c, h, steps[0]), steps[1..])
  }
}
