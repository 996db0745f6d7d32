/** What every run of the event hub keeps: the array with its two slicing rules is a bounded queue,
    compaction is amortised, no delivery pass is lost or doubled, and delivery ends. */
module EventHubTheorems {
  import opened Counting
  import opened EventHubModel

  // ---- A subscriber's array refines a bounded queue -------------------------------------------

  function Live(s: Sub): seq<Event>
    requires s.head <= |s.queue|
  {
    s.queue[s.head..]
  }

  /** The events that were handed over, out of those whose fate is settled. */
  function Picked(events: seq<Event>, fate: seq<bool>): seq<Event>
    requires |fate| <= |events|
  {
    if fate == [] then []
    else
      var n := |fate| - 1;
      Picked(events, fate[..n]) + if fate[n] then [events[n]] else []
  }

  function HandedOver(fate: seq<bool>): nat {
    if fate == [] then 0 else HandedOver(fate[..|fate| - 1]) + if fate[|fate| - 1] then 1 else 0
  }

  /** What the consumed prefix of the array stays below. */
  function HeadBound(c: Config, s: Sub): int {
    Max(64, if c.buffer.AtMost? then c.buffer.n else Pending(s))
  }

  predicate SubInv(c: Config, s: Sub) {
    && s.head <= |s.queue| && (c.buffer.AtMost? ==> Pending(s) <= c.buffer.n)
    && s.head < HeadBound(c, s)
    && |s.fate| == s.delivered + s.dropped <= |s.accepted|
    && HandedOver(s.fate) == s.delivered
    && s.handed == Picked(s.accepted, s.fate)
    && (s.active ==> Live(s) == s.accepted[s.delivered + s.dropped..])
    && (s.active ==> s.copied + s.head <= s.delivered + s.dropped)
    && (!s.active ==> s.queue == [] && s.head == 0)
  }

  /** Publishing appends to the live events, and drops the oldest of them exactly when there are as
      many as the buffer holds; where the head is and when the array is sliced does not show. */
  lemma OfferedRefines(c: Config, s: Sub, e: Event)
    requires c.Valid() && SubInv(c, s) && Wants(s, e)
    ensures var full := c.buffer == AtMost(|Live(s)|);
            var s' := Offered(c, s, e);
            && s'.head <= |s'.queue|
            && Live(s') == (if full then Live(s)[1..] else Live(s)) + [e]
            && s'.dropped == s.dropped + (if full then 1 else 0) && s'.delivered == s.delivered && s'.handed == s.handed
  {
  }

  /** Delivery takes the oldest live event and hands exactly that one over. */
  lemma TakenRefines(c: Config, s: Sub)
    requires SubInv(c, s) && s.active && Pending(s) > 0
    ensures var s' := Taken(s);
            && s'.head <= |s'.queue|
            && Live(s) == [s'.handed[|s.handed|]] + Live(s')
            && |s'.handed| == |s.handed| + 1
            && s'.delivered == s.delivered + 1 && s'.dropped == s.dropped
  {
  }

  /** Delivery copies the array only once 64 events at least, and half of the array, have been consumed. */
  lemma DeliverySeldomCopies(s: Sub)
    requires s.head < |s.queue|
    ensures var s', consumed := Taken(s), s.head + 1;
            if consumed < 64 || 2 * consumed < |s.queue| then s'.queue == s.queue && s'.head == consumed && s'.copied == s.copied
            else s'.head == 0 && s'.copied - s.copied == |s'.queue| <= consumed
  {
  }

  lemma PickedGrows(events: seq<Event>, fate: seq<bool>, more: seq<Event>)
    requires |fate| <= |events|
    ensures Picked(events + more, fate) == Picked(events, fate)
  {
  }

  /** The bounds on the queue and on the prefix, and what pays for the copying. */
  lemma OfferedKeepsBounds(c: Config, s: Sub, e: Event)
    requires c.Valid() && SubInv(c, s) && Wants(s, e)
    ensures var s' := Offered(c, s, e);
            && s'.head <= |s'.queue| && (c.buffer.AtMost? ==> Pending(s') <= c.buffer.n)
            && s'.head < HeadBound(c, s')
            && s'.copied + s'.head <= s'.delivered + s'.dropped
  {
  }

  /** A new event, and the loss of an old one, change nothing about what was handed over. */
  lemma LossShowsNothing(events: seq<Event>, fate: seq<bool>, e: Event)
    requires |fate| <= |events|
    ensures Picked(events + [e], fate) == Picked(events, fate)
    ensures Picked(events + [e], fate + [false]) == Picked(events, fate)
    ensures HandedOver(fate + [false]) == HandedOver(fate)
  {
    PickedGrows(events, fate, [e]);
    assert (fate + [false])[..|fate|] == fate;
  }

  /** The books of what was accepted, dropped and handed over. */
  lemma OfferedKeepsBooks(c: Config, s: Sub, e: Event)
    requires c.Valid() && SubInv(c, s) && Wants(s, e)
    ensures var s' := Offered(c, s, e);
            && |s'.fate| == s'.delivered + s'.dropped <= |s'.accepted|
            && HandedOver(s'.fate) == s'.delivered
            && s'.handed == Picked(s'.accepted, s'.fate)
  {
    LossShowsNothing(s.accepted, s.fate, e);
  }

  lemma OfferedKeepsInv(c: Config, s: Sub, e: Event)
    requires c.Valid() && SubInv(c, s)
    ensures SubInv(c, Offered(c, s, e))
  {
    if Wants(s, e) {
      OfferedRefines(c, s, e);
      OfferedKeepsBounds(c, s, e);
      OfferedKeepsBooks(c, s, e);
    }
  }

  lemma TakenKeepsInv(c: Config, s: Sub)
    requires c.Valid() && SubInv(c, s) && s.active && Pending(s) > 0
    ensures SubInv(c, Taken(s))
  {
    var s', n := Taken(s), |s.fate|;
    TakenRefines(c, s);
    assert s'.fate[..n] == s.fate;
    assert s.queue[s.head] == Live(s)[0] == s.accepted[n];
    assert HandedOver(s'.fate) == HandedOver(s.fate) + 1;
    assert Picked(s.accepted, s'.fate) == Picked(s.accepted, s.fate) + [s.accepted[n]];
    assert Live(s') == Live(s)[1..] == s.accepted[n + 1..];
  }

  // ---- The hub invariant ----------------------------------------------------------------------

  predicate HubInv(c: Config, h: Hub) {
    && Indexed(h)
    && (forall i :: 0 <= i < |h.subs| ==> SubInv(c, h.subs[i]))
    && (forall i :: 0 <= i < |h.subs| ==> multiset(h.passes)[i] == if h.subs[i].scheduled then 1 else 0)
    && (forall i :: 0 <= i < |h.subs| ==> h.subs[i].active && Pending(h.subs[i]) > 0 ==>
          h.subs[i].scheduled || (h.running.Pass? && h.running.sub == i))
    && (h.closed ==> forall i :: 0 <= i < |h.subs| ==> !h.subs[i].active)
  }

  lemma {:induction false} NewPassesBelow(subs: seq<Sub>, e: Event, n: nat)
    requires n <= |subs|
    ensures forall k :: 0 <= k < |NewPasses(subs, e, n)| ==> NewPasses(subs, e, n)[k] < n
  {
    if n > 0 {
      NewPassesBelow(subs, e, n - 1);
    }
  }

  lemma PublishIsIndexed(c: Config, h: Hub, m: Message)
    requires c.Valid() && Indexed(h)
    ensures Indexed(Publish(c, h, m))
  {
    if m.Message? {
      NewPassesBelow(h.subs, m.event, |h.subs|);
    }
  }

  /** How often i occurs in a list. */
  function Times(passes: seq<nat>, i: nat): nat {
    if passes == [] then 0 else Times(passes[..|passes| - 1], i) + if passes[|passes| - 1] == i then 1 else 0
  }

  lemma {:induction false} TimesIsMultiplicity(passes: seq<nat>, i: nat)
    ensures multiset(passes)[i] == Times(passes, i)
  {
    if passes != [] {
      var n := |passes| - 1;
      TimesIsMultiplicity(passes[..n], i);
      assert passes == passes[..n] + [passes[n]];
      MultisetSnoc(passes[..n], passes[n], i);
    }
  }

  lemma {:induction false} NewPassesCount(subs: seq<Sub>, e: Event, n: nat, i: nat)
    requires n <= |subs|
    ensures Times(NewPasses(subs, e, n), i) == if i < n && Wakes(subs[i], e) then 1 else 0
  {
    if n > 0 {
      NewPassesCount(subs, e, n - 1, i);
      AddPass(NewPasses(subs, e, n - 1), NewPasses(subs, e, n), subs[n - 1], e, n - 1, i);
    }
  }

  lemma AddPass(before: seq<nat>, after: seq<nat>, s: Sub, e: Event, n: nat, i: nat)
    requires after == before + PassFor(s, e, n)
    ensures Times(after, i) == Times(before, i) + if i == n && Wakes(s, e) then 1 else 0
  {
    if Wakes(s, e) {
      assert after[..|after| - 1] == before && after[|after| - 1] == n;
    } else {
      assert after == before;
    }
  }

  lemma MultisetSnoc(s: seq<nat>, x: nat, i: nat)
    ensures multiset(s + [x])[i] == multiset(s)[i] + if x == i then 1 else 0
  {
  }

  /** After publishing, subscriber i has one waiting pass if its flag is set, as before. */
  lemma PublishSchedules(c: Config, h: Hub, e: Event, i: nat)
    requires c.Valid() && HubInv(c, h) && i < |h.subs|
    ensures var s' := Offered(c, h.subs[i], e);
            && SubInv(c, s')
            && multiset(h.passes + NewPasses(h.subs, e, |h.subs|))[i] == (if s'.scheduled then 1 else 0)
            && (s'.active && Pending(s') > 0 ==> s'.scheduled || (h.running.Pass? && h.running.sub == i))
            && (s'.active ==> h.subs[i].active)
  {
    OfferedKeepsInv(c, h.subs[i], e);
    NewPassesCount(h.subs, e, |h.subs|, i);
    TimesIsMultiplicity(NewPasses(h.subs, e, |h.subs|), i);
    assert multiset(h.passes + NewPasses(h.subs, e, |h.subs|)) ==
           multiset(h.passes) + multiset(NewPasses(h.subs, e, |h.subs|));
  }

  lemma PublishKeepsInv(c: Config, h: Hub, m: Message)
    requires c.Valid() && HubInv(c, h)
    ensures HubInv(c, Publish(c, h, m))
  {
    if !h.closed && m.Message? {
      NewPassesBelow(h.subs, m.event, |h.subs|);
      forall i | 0 <= i < |h.subs|
        ensures var s' := Offered(c, h.subs[i], m.event);
                && SubInv(c, s')
                && multiset(h.passes + NewPasses(h.subs, m.event, |h.subs|))[i] == (if s'.scheduled then 1 else 0)
                && (s'.active && Pending(s') > 0 ==> s'.scheduled || (h.running.Pass? && h.running.sub == i))
      {
        PublishSchedules(c, h, m.event, i);
      }
    }
  }

  lemma SubscribeKeepsInv(c: Config, h: Hub, types: Types)
    requires c.Valid() && HubInv(c, h)
    ensures HubInv(c, Subscribe(h, types))
  {
    if !h.closed {
      assert |h.subs| !in h.passes;
    }
  }

  lemma UnsubscribeKeepsInv(c: Config, h: Hub, i: nat)
    requires c.Valid() && HubInv(c, h) && i < |h.subs|
    ensures HubInv(c, Unsubscribe(h, i))
  {
    assert SubInv(c, Silenced(h.subs[i]));
  }

  lemma CloseKeepsInv(c: Config, h: Hub)
    requires c.Valid() && HubInv(c, h)
    ensures HubInv(c, Close(h))
  {
    forall i | 0 <= i < |h.subs| ensures SubInv(c, Silenced(h.subs[i])) {
    }
  }

  lemma FailedKeepsInv(c: Config, h: Hub, i: nat)
    requires c.Valid() && HubInv(c, h) && i < |h.subs|
    ensures HubInv(c, Failed(h, i))
  {
    assert SubInv(c, Failed(h, i).subs[i]);
  }

  lemma WithoutOne(s: seq<nat>, k: nat)
    requires k < |s|
    ensures forall i: nat :: multiset(s[..k] + s[k + 1..])[i] == multiset(s)[i] - if s[k] == i then 1 else 0
  {
    assert s == s[..k] + [s[k]] + s[k + 1..];
  }

  lemma FlagIsFree(c: Config, s: Sub, scheduled: bool)
    requires SubInv(c, s)
    ensures SubInv(c, s.(scheduled := scheduled))
  {
  }

  lemma StartKeepsInv(c: Config, h: Hub, k: nat)
    requires c.Valid() && HubInv(c, h) && h.running.Nobody? && k < |h.passes|
    ensures HubInv(c, Start(h, k))
  {
    WithoutOne(h.passes, k);
    FlagIsFree(c, h.subs[h.passes[k]], false);
  }

  lemma HandKeepsInv(c: Config, h: Hub)
    requires c.Valid() && HubInv(c, h) && h.running.Pass? && More(c, h)
    ensures HubInv(c, Hand(c, h))
  {
    TakenKeepsInv(c, h.subs[h.running.sub]);
  }

  lemma RescheduleKeepsInv(c: Config, h: Hub, i: nat)
    requires c.Valid() && HubInv(c, h) && i < |h.subs| && !h.subs[i].scheduled
    requires h.running.Pass? ==> h.running.sub == i
    ensures HubInv(c, h.(running := Nobody, passes := h.passes + [i], subs := h.subs[i := h.subs[i].(scheduled := true)]))
  {
    FlagIsFree(c, h.subs[i], true);
    forall j | 0 <= j < |h.subs|
      ensures multiset(h.passes + [i])[j] == multiset(h.passes)[j] + if i == j then 1 else 0
    {
      MultisetSnoc(h.passes, i, j);
    }
  }

  lemma FinishKeepsInv(c: Config, h: Hub)
    requires c.Valid() && HubInv(c, h) && h.running.Pass?
    ensures HubInv(c, Finish(h))
  {
    var i := h.running.sub;
    if h.subs[i].active && Pending(h.subs[i]) > 0 && !h.subs[i].scheduled {
      RescheduleKeepsInv(c, h, i);
    }
  }

  lemma StepKeepsInv(c: Config, h: Hub, step: Step)
    requires c.Valid() && HubInv(c, h) && Enabled(c, h, step)
    ensures HubInv(c, Do(c, h, step))
  {
    match step
    case PublishStep(m) => PublishKeepsInv(c, h, m);
    case SubscribeStep(types) => SubscribeKeepsInv(c, h, types);
    case StartStep(k) => StartKeepsInv(c, h, k);
    case HandStep => HandKeepsInv(c, h);
    case FinishStep => FinishKeepsInv(c, h);
    case UnsubscribeStep(i) => UnsubscribeKeepsInv(c, h, i);
    case CloseStep => CloseKeepsInv(c, h);
    case FailStep(i) => FailedKeepsInv(c, h, i);
  }

  lemma {:induction false} RunKeepsInv(c: Config, h: Hub, steps: seq<Step>)
    requires c.Valid() && HubInv(c, h) && Legal(c, h, steps)
    ensures HubInv(c, After(c, h, steps))
    decreases |steps|
  {
    if steps != [] {
      StepKeepsInv(c, h, steps[0]);
      RunKeepsInv(c, Do(c, h, steps[0]), steps[1..]);
    }
  }

  // ---- What follows for every run -------------------------------------------------------------

  /** For every active subscriber, after every run: what is queued is exactly the accepted events
      whose fate is open, in order; accepted = delivered + dropped + pending; the handler was given
      exactly the accepted events that were not dropped, in order; and the buffer bound holds. */
  lemma QueueIsTheSuffix(c: Config, steps: seq<Step>, i: nat)
    requires c.Valid() && Legal(c, EMPTY, steps)
    requires i < |After(c, EMPTY, steps).subs| && After(c, EMPTY, steps).subs[i].active
    ensures var s := After(c, EMPTY, steps).subs[i];
            && s.head <= |s.queue|
            && |s.accepted| == s.delivered + s.dropped + |Live(s)|
            && Live(s) == s.accepted[s.delivered + s.dropped..]
            && (c.buffer.AtMost? ==> |Live(s)| <= c.buffer.n)
            && |s.fate| == s.delivered + s.dropped && HandedOver(s.fate) == s.delivered
            && s.handed == Picked(s.accepted, s.fate)
  {
    RunKeepsInv(c, EMPTY, steps);
    assert SubInv(c, After(c, EMPTY, steps).subs[i]);
  }

  /** Compaction is amortised constant: all the copying ever done for an active subscriber, plus the
      prefix still waiting to be sliced off, is paid for by the events that left its queue. The prefix
      and the array stay bounded. */
  lemma CompactionIsAmortised(c: Config, steps: seq<Step>, i: nat)
    requires c.Valid() && Legal(c, EMPTY, steps)
    requires i < |After(c, EMPTY, steps).subs| && After(c, EMPTY, steps).subs[i].active
    ensures var s := After(c, EMPTY, steps).subs[i];
            && s.copied + s.head <= s.delivered + s.dropped
            && s.head < HeadBound(c, s)
            && |s.queue| < Pending(s) + HeadBound(c, s)
            && (c.buffer.AtMost? ==> |s.queue| < c.buffer.n + Max(64, c.buffer.n))
  {
    RunKeepsInv(c, EMPTY, steps);
    assert SubInv(c, After(c, EMPTY, steps).subs[i]);
  }

  /** Each subscriber has one waiting pass when its `scheduled` flag is set and none otherwise; and an
      active subscriber with undelivered events is never forgotten: it has a pass waiting or running. */
  lemma NoPassIsLost(c: Config, steps: seq<Step>, i: nat)
    requires c.Valid() && Legal(c, EMPTY, steps) && i < |After(c, EMPTY, steps).subs|
    ensures var h := After(c, EMPTY, steps);
            var s := h.subs[i];
            && multiset(h.passes)[i] == (if s.scheduled then 1 else 0)
            && (s.active && Pending(s) > 0 ==> s.scheduled || (h.running.Pass? && h.running.sub == i))
  {
    RunKeepsInv(c, EMPTY, steps);
  }

  // ---- Delivery ends --------------------------------------------------------------------------

  /** Some active subscriber has undelivered events. */
  predicate Waiting(h: Hub) {
    exists i :: 0 <= i < |h.subs| && h.subs[i].active && Pending(h.subs[i]) > 0
  }

  /** There is something to deliver, and no batch ever holds an event. */
  predicate Starved(c: Config, h: Hub) {
    c.batch.Met(0) && Waiting(h)
  }

  function TotalPending(subs: seq<Sub>): nat
    requires forall i :: 0 <= i < |subs| ==> subs[i].head <= |subs[i].queue|
  {
    if subs == [] then 0 else Pending(subs[0]) + TotalPending(subs[1..])
  }

  lemma {:induction false} TotalPendingUpdate(subs: seq<Sub>, i: nat, s: Sub)
    requires forall k :: 0 <= k < |subs| ==> subs[k].head <= |subs[k].queue|
    requires i < |subs| && s.head <= |s.queue|
    ensures TotalPending(subs[i := s]) == TotalPending(subs) - Pending(subs[i]) + Pending(s)
  {
    if i == 0 {
      assert subs[i := s][1..] == subs[1..];
    } else {
      assert subs[i := s][1..] == subs[1..][i - 1 := s];
      TotalPendingUpdate(subs[1..], i - 1, s);
    }
  }

  /** An upper bound on the steps of the delivery loop that are left if nobody publishes. */
  function DeliveryLeft(h: Hub): nat
    requires Indexed(h)
  {
    3 * TotalPending(h.subs) + 2 * |h.passes|
    + match h.running case Nobody => 0 case Pass(_, count) => if count == 0 then 1 else 3
  }

  lemma StartDecreases(h: Hub, k: nat)
    requires Indexed(h) && h.running.Nobody? && k < |h.passes| && Indexed(Start(h, k))
    ensures DeliveryLeft(Start(h, k)) < DeliveryLeft(h)
  {
    TotalPendingUpdate(h.subs, h.passes[k], Start(h, k).subs[h.passes[k]]);
  }

  lemma HandDecreases(c: Config, h: Hub)
    requires Indexed(h) && h.running.Pass? && More(c, h) && Indexed(Hand(c, h))
    ensures DeliveryLeft(Hand(c, h)) < DeliveryLeft(h)
  {
    TotalPendingUpdate(h.subs, h.running.sub, Hand(c, h).subs[h.running.sub]);
  }

  lemma FinishDecreases(c: Config, h: Hub)
    requires !Starved(c, h) && Indexed(h) && h.running.Pass? && !More(c, h) && Indexed(Finish(h))
    ensures DeliveryLeft(Finish(h)) < DeliveryLeft(h)
  {
    var i := h.running.sub;
    TotalPendingUpdate(h.subs, i, Finish(h).subs[i]);
    assert h.subs[i := h.subs[i]] == h.subs;
  }

  lemma DeliveryDecreases(c: Config, h: Hub, step: Step)
    requires c.Valid() && HubInv(c, h) && !Starved(c, h) && Enabled(c, h, step) && step.IsDelivery()
    ensures Indexed(Do(c, h, step)) && DeliveryLeft(Do(c, h, step)) < DeliveryLeft(h)
  {
    StepKeepsInv(c, h, step);
    match step
    case StartStep(k) => StartDecreases(h, k);
    case HandStep => HandDecreases(c, h);
    case FinishStep => FinishDecreases(c, h);
  }

  /** Delivery neither starves a hub nor feeds a starved one. */
  lemma StarvationStays(c: Config, h: Hub, step: Step)
    requires c.Valid() && HubInv(c, h) && Enabled(c, h, step) && step.IsDelivery()
    ensures Starved(c, Do(c, h, step)) == Starved(c, h)
  {
    if c.batch.Met(0) {
      var h' := Do(c, h, step);
      assert |h'.subs| == |h.subs|;
      assert forall i :: 0 <= i < |h.subs| ==>
        h'.subs[i].active == h.subs[i].active && Pending(h'.subs[i]) == Pending(h.subs[i]);
    }
  }

  /** A run of delivery passes while nobody publishes or makes any other call. */
  predicate IsDeliveryRun(c: Config, h: Hub, steps: seq<Step>)
    requires c.Valid() && Indexed(h)
  {
    Legal(c, h, steps) && forall k :: 0 <= k < |steps| ==> steps[k].IsDelivery()
  }

  /** Unless the hub is starved, the loop ends after finitely many steps once publishing and other calls
      stop, whatever order the passes run in, and only with every active subscriber's queue empty. */
  lemma {:induction false} QueuesDrain(c: Config, h: Hub, steps: seq<Step>)
    requires c.Valid() && HubInv(c, h) && !Starved(c, h) && IsDeliveryRun(c, h, steps)
    ensures |steps| <= DeliveryLeft(h)
    ensures var r := After(c, h, steps);
            && Indexed(r)
            && ((forall step: Step :: step.IsDelivery() ==> !Enabled(c, r, step)) ==>
                  && r.passes == [] && r.running.Nobody?
                  && forall i :: 0 <= i < |r.subs| && r.subs[i].active ==> Live(r.subs[i]) == [])
    decreases |steps|
  {
    if steps == [] {
      if forall step: Step :: step.IsDelivery() ==> !Enabled(c, h, step) {
        assert HandStep.IsDelivery() && FinishStep.IsDelivery();
        assert h.running.Nobody?;
        assert StartStep(0).IsDelivery();
        assert h.passes == [];
      }
    } else {
      DeliveryDecreases(c, h, steps[0]);
      StarvationStays(c, h, steps[0]);
      StepKeepsInv(c, h, steps[0]);
      QueuesDrain(c, Do(c, h, steps[0]), steps[1..]);
    }
  }

  /** A starved hub always has another delivery step, after which it is starved still. */
  lemma StarvedGoesOn(c: Config, h: Hub) returns (step: Step)
    requires c.Valid() && HubInv(c, h) && Starved(c, h)
    ensures step.IsDelivery() && Enabled(c, h, step)
    ensures HubInv(c, Do(c, h, step)) && Starved(c, Do(c, h, step))
  {
    step := if h.running.Pass? then FinishStep else StartStep(0);
    if h.running.Nobody? {
      var i :| 0 <= i < |h.subs| && h.subs[i].active && Pending(h.subs[i]) > 0;
      assert i in h.passes by {
        assert multiset(h.passes)[i] == 1;
      }
    }
    StepKeepsInv(c, h, step);
    StarvationStays(c, h, step);
  }

  lemma StepFirst(c: Config, h: Hub, step: Step, rest: seq<Step>)
    requires c.Valid() && Indexed(h) && Enabled(c, h, step) && step.IsDelivery()
    requires Indexed(Do(c, h, step)) && IsDeliveryRun(c, Do(c, h, step), rest)
    ensures IsDeliveryRun(c, h, [step] + rest)
  {
    assert ([step] + rest)[1..] == rest;
  }

  /** So it has delivery runs of every length. */
  lemma {:induction false} StarvedRun(c: Config, h: Hub, n: nat) returns (steps: seq<Step>)
    requires c.Valid() && HubInv(c, h) && Starved(c, h)
    ensures IsDeliveryRun(c, h, steps) && |steps| == n
    decreases n
  {
    steps := [];
    if n > 0 {
      var step := StarvedGoesOn(c, h);
      var rest := StarvedRun(c, Do(c, h, step), n - 1);
      StepFirst(c, h, step, rest);
      steps := [step] + rest;
    }
  }

  /** No run of delivery passes is longer than n. */
  ghost predicate EndsWithin(c: Config, h: Hub, n: nat)
    requires c.Valid() && Indexed(h)
  {
    forall steps :: IsDeliveryRun(c, h, steps) ==> |steps| <= n
  }

  /** Delivery ends once publishing stops exactly if the hub is not starved: with a batch that is full
      from the start and something to deliver, passes are scheduled for ever. */
  lemma DeliveryEndsExactly(c: Config, h: Hub)
    requires c.Valid() && HubInv(c, h)
    ensures (exists n: nat :: EndsWithin(c, h, n)) <==> !Starved(c, h)
  {
    if Starved(c, h) {
      forall n: nat ensures !EndsWithin(c, h, n) {
        var steps := StarvedRun(c, h, n + 1);
      }
    } else {
      forall steps | IsDeliveryRun(c, h, steps) ensures |steps| <= DeliveryLeft(h) {
        QueuesDrain(c, h, steps);
      }
      assert EndsWithin(c, h, DeliveryLeft(h));
    }
  }

  lemma StarvedStep(c: Config, h: Hub, step: Step, i: nat)
    requires c.Valid() && Indexed(h) && c.batch.Met(0) && Enabled(c, h, step) && step.IsDelivery() && i < |h.subs|
    ensures var r := Do(c, h, step);
            && i < |r.subs|
            && r.subs[i] == h.subs[i].(scheduled := r.subs[i].scheduled)
  {
  }

  /** With such batches delivery hands nothing over: a subscriber's events stay as they are. */
  lemma {:induction false} StarvedDeliversNothing(c: Config, h: Hub, steps: seq<Step>, i: nat)
    requires c.Valid() && Indexed(h) && c.batch.Met(0) && IsDeliveryRun(c, h, steps) && i < |h.subs|
    ensures var r := After(c, h, steps);
            && i < |r.subs|
            && r.subs[i] == h.subs[i].(scheduled := r.subs[i].scheduled)
    decreases |steps|
  {
    if steps != [] {
      StarvedStep(c, h, steps[0], i);
      StarvedDeliversNothing(c, Do(c, h, steps[0]), steps[1..], i);
    }
  }

  /** One subscriber and one event are enough to starve a hub with such batches. */
  lemma StarvedHubIsReached(e: Event)
    ensures var c, steps := Config(AtMost(1024), AtMost(0)), [SubscribeStep(All), PublishStep(Message(e))];
            && c.Valid() && Legal(c, EMPTY, steps)
            && HubInv(c, After(c, EMPTY, steps)) && Starved(c, After(c, EMPTY, steps))
  {
    var c, steps := Config(AtMost(1024), AtMost(0)), [SubscribeStep(All), PublishStep(Message(e))];
    var h := Subscribe(EMPTY, All);
    assert h.subs == [Sub(All, [], 0, false, true, 0, 0, 0, [], [], [], 0)];
    var h' := Publish(c, h, Message(e));
    PublishIsIndexed(c, h, Message(e));
    assert steps[1..] == [PublishStep(Message(e))] && steps[1..][1..] == [];
    assert Legal(c, h', []) && Legal(c, h, steps[1..]);
    assert After(c, h, steps[1..]) == h';
    assert h'.subs[0].active && Pending(h'.subs[0]) == 1;
    RunKeepsInv(c, EMPTY, steps);
  }
}
