/** What the subscribers of the event hub are given, told from the calls alone: from the kinds given at the
    subscription, and the events published between it and the subscriber's leaving or the hub's closing. */
module EventHubHistory {
  import opened Counting
  import opened EventHubModel
  import opened EventHubTheorems

  /** Does a subscription to these kinds ask for this event? */
  predicate Selects(types: Types, e: Event) {
    match types case All => true case Only(kinds) => e.kind in kinds
  }

  /** The calls after which subscriber i is given nothing more. */
  predicate Leaves(step: Step, i: nat) {
    step == UnsubscribeStep(i) || step == CloseStep
  }

  predicate Stays(steps: seq<Step>, i: nat) {
    steps == [] || (!Leaves(steps[0], i) && Stays(steps[1..], i))
  }

  /** The events that a subscription asks for, of those published before the subscriber leaves. */
  function Heard(types: Types, steps: seq<Step>, i: nat): seq<Event> {
    if steps == [] || Leaves(steps[0], i) then []
    else
      (match steps[0]
       case PublishStep(Message(e)) => if Selects(types, e) then [e] else []
       case _ => [])
      + Heard(types, steps[1..], i)
  }

  // ---- Being subscribed -----------------------------------------------------------------------

  lemma StepIsHeard(c: Config, h: Hub, step: Step, i: nat)
    requires c.Valid() && Indexed(h) && Enabled(c, h, step) && i < |h.subs| && h.subs[i].active && !h.closed
    requires !Leaves(step, i)
    ensures var h' := Do(c, h, step);
            && !h'.closed && i < |h'.subs| && h'.subs[i].active && h'.subs[i].types == h.subs[i].types
            && h'.subs[i].accepted == h.subs[i].accepted +
                 match step
                 case PublishStep(Message(e)) => if Selects(h.subs[i].types, e) then [e] else []
                 case _ => []
  {
  }

  lemma LeavingSilences(c: Config, h: Hub, step: Step, i: nat)
    requires c.Valid() && Indexed(h) && Enabled(c, h, step) && i < |h.subs| && Leaves(step, i)
    ensures var h' := Do(c, h, step);
            && i < |h'.subs| && !h'.subs[i].active && h'.subs[i].accepted == h.subs[i].accepted
            && h'.subs[i].handed == h.subs[i].handed && h'.subs[i].delivered == h.subs[i].delivered
            && (h.subs[i].active ==> h'.subs[i].queue == [])
  {
  }

  lemma SilenceLasts(c: Config, h: Hub, step: Step, i: nat)
    requires c.Valid() && Indexed(h) && Enabled(c, h, step) && i < |h.subs| && !h.subs[i].active
    ensures var h' := Do(c, h, step);
            && i < |h'.subs| && !h'.subs[i].active && h'.subs[i].accepted == h.subs[i].accepted
            && h'.subs[i].handed == h.subs[i].handed && h'.subs[i].delivered == h.subs[i].delivered
  {
  }

  lemma {:induction false} SilentForGood(c: Config, h: Hub, steps: seq<Step>, i: nat)
    requires c.Valid() && Indexed(h) && Legal(c, h, steps) && i < |h.subs| && !h.subs[i].active
    ensures var r := After(c, h, steps);
            && i < |r.subs| && !r.subs[i].active && r.subs[i].accepted == h.subs[i].accepted
            && r.subs[i].handed == h.subs[i].handed && r.subs[i].delivered == h.subs[i].delivered
    decreases |steps|
  {
    if steps != [] {
      SilenceLasts(c, h, steps[0], i);
      SilentForGood(c, Do(c, h, steps[0]), steps[1..], i);
    }
  }

  lemma {:induction false} ActiveHears(c: Config, h: Hub, steps: seq<Step>, i: nat)
    requires c.Valid() && Indexed(h) && Legal(c, h, steps) && i < |h.subs| && h.subs[i].active && !h.closed
    ensures var r := After(c, h, steps);
            i < |r.subs| && r.subs[i].accepted == h.subs[i].accepted + Heard(h.subs[i].types, steps, i)
    decreases |steps|
  {
    if steps != [] {
      var h' := Do(c, h, steps[0]);
      if Leaves(steps[0], i) {
        LeavingSilences(c, h, steps[0], i);
        SilentForGood(c, h', steps[1..], i);
      } else {
        StepIsHeard(c, h, steps[0], i);
        ActiveHears(c, h', steps[1..], i);
        var now: seq<Event> := match steps[0]
                               case PublishStep(Message(e)) => if Selects(h.subs[i].types, e) then [e] else []
                               case _ => [];
        Joined(h.subs[i].accepted, now, Heard(h.subs[i].types, steps[1..], i));
      }
    }
  }

  lemma Joined<T>(a: seq<T>, b: seq<T>, c: seq<T>)
    ensures (a + b) + c == a + (b + c)
  {
  }

  lemma {:induction false} ActiveWhileStaying(c: Config, h: Hub, steps: seq<Step>, i: nat)
    requires c.Valid() && Indexed(h) && Legal(c, h, steps) && i < |h.subs| && h.subs[i].active && !h.closed
    ensures i < |After(c, h, steps).subs| && (After(c, h, steps).subs[i].active <==> Stays(steps, i))
    decreases |steps|
  {
    if steps != [] {
      var h' := Do(c, h, steps[0]);
      if Leaves(steps[0], i) {
        LeavingSilences(c, h, steps[0], i);
        SilentForGood(c, h', steps[1..], i);
      } else {
        StepIsHeard(c, h, steps[0], i);
        ActiveWhileStaying(c, h', steps[1..], i);
      }
    }
  }

  predicate IsSubscription(step: Step) { step.SubscribeStep? }

  predicate NeverCloses(steps: seq<Step>) {
    steps == [] || (steps[0] != CloseStep && NeverCloses(steps[1..]))
  }

  lemma {:induction false} SubscriptionsCount(c: Config, h: Hub, steps: seq<Step>)
    requires c.Valid() && Indexed(h) && Legal(c, h, steps) && NeverCloses(steps) && !h.closed
    ensures var r := After(c, h, steps); !r.closed && |r.subs| == |h.subs| + Count(steps, IsSubscription)
    decreases |steps|
  {
    if steps != [] {
      SubscriptionsCount(c, Do(c, h, steps[0]), steps[1..]);
    }
  }

  /** What the invariant tells of a subscriber that was reached. */
  lemma ReachedSubscriber(c: Config, before: seq<Step>, step: Step, steps: seq<Step>, i: nat)
    requires c.Valid() && Legal(c, EMPTY, before) && Indexed(After(c, EMPTY, before)) && Enabled(c, After(c, EMPTY, before), step)
    requires var h := Do(c, After(c, EMPTY, before), step); Indexed(h) && Legal(c, h, steps) && i < |After(c, h, steps).subs|
    ensures SubInv(c, After(c, Do(c, After(c, EMPTY, before), step), steps).subs[i])
  {
    RunKeepsInv(c, EMPTY, before);
    StepKeepsInv(c, After(c, EMPTY, before), step);
    RunKeepsInv(c, Do(c, After(c, EMPTY, before), step), steps);
  }

  lemma SubscribedHears(c: Config, h: Hub, types: Types, steps: seq<Step>)
    requires c.Valid() && Indexed(h) && !h.closed
    requires Indexed(Do(c, h, SubscribeStep(types))) && Legal(c, Do(c, h, SubscribeStep(types)), steps)
    ensures var i, r := |h.subs|, After(c, Do(c, h, SubscribeStep(types)), steps);
            i < |r.subs| && r.subs[i].accepted == Heard(types, steps, i) && (r.subs[i].active <==> Stays(steps, i))
  {
    var h' := Do(c, h, SubscribeStep(types));
    ActiveHears(c, h', steps, |h.subs|);
    ActiveWhileStaying(c, h', steps, |h.subs|);
    assert [] + Heard(types, steps, |h.subs|) == Heard(types, steps, |h.subs|);
  }

  /** The subscriber made by a subscription on an open hub hears, from then on, exactly the events of the
      kinds it gave that are published before it leaves or the hub is closed, in order, whoever publishes
      them; its handler has been given those of them that were neither dropped nor are still queued, in
      order; and it is active until then and not after. */
  lemma AcceptedIsWhatWasPublished(c: Config, before: seq<Step>, types: Types, steps: seq<Step>)
    requires c.Valid() && Legal(c, EMPTY, before) && NeverCloses(before) && Indexed(After(c, EMPTY, before))
    requires var h := Do(c, After(c, EMPTY, before), SubscribeStep(types)); Indexed(h) && Legal(c, h, steps)
    ensures var i, r := Count(before, IsSubscription), After(c, Do(c, After(c, EMPTY, before), SubscribeStep(types)), steps);
            && i < |r.subs| && r.subs[i].accepted == Heard(types, steps, i)
            && (r.subs[i].active <==> Stays(steps, i))
            && |r.subs[i].fate| <= |r.subs[i].accepted|
            && r.subs[i].handed == Picked(r.subs[i].accepted, r.subs[i].fate)
            && (r.subs[i].active ==> r.subs[i].head <= |r.subs[i].queue| && Live(r.subs[i]) == Heard(types, steps, i)[|r.subs[i].fate|..])
  {
    SubscriptionsCount(c, EMPTY, before);
    SubscribedHears(c, After(c, EMPTY, before), types, steps);
    ReachedSubscriber(c, before, SubscribeStep(types), steps, |After(c, EMPTY, before).subs|);
  }

  /** Whoever unsubscribes, or is subscribed to a hub that closes, is given nothing more over any run, not
      even what was queued. */
  lemma NothingAfterLeaving(c: Config, h: Hub, leave: Step, steps: seq<Step>, i: nat)
    requires c.Valid() && Indexed(h) && Enabled(c, h, leave) && i < |h.subs| && Leaves(leave, i)
    requires Indexed(Do(c, h, leave)) && Legal(c, Do(c, h, leave), steps)
    ensures var r := After(c, Do(c, h, leave), steps);
            && i < |r.subs| && r.subs[i].handed == h.subs[i].handed && r.subs[i].delivered == h.subs[i].delivered
            && r.subs[i].accepted == h.subs[i].accepted && !r.subs[i].active
  {
    LeavingSilences(c, h, leave, i);
    SilentForGood(c, Do(c, h, leave), steps, i);
  }

  // ---- Counters -------------------------------------------------------------------------------

  /** The messages of this sort that are offered before the hub is closed. */
  function Offers(steps: seq<Step>, malformed: bool): nat {
    if steps == [] || steps[0] == CloseStep then 0
    else (if steps[0].PublishStep? && steps[0].message.Malformed? == malformed then 1 else 0) + Offers(steps[1..], malformed)
  }

  /** The hub counts the events published and the malformed ones rejected while it is open, and the
      failures of each handler whenever they come. */
  lemma {:induction false} CountersCount(c: Config, h: Hub, steps: seq<Step>)
    requires c.Valid() && Indexed(h) && Legal(c, h, steps)
    ensures var r := After(c, h, steps);
            && r.published == h.published + (if h.closed then 0 else Offers(steps, false))
            && r.rejected == h.rejected + (if h.closed then 0 else Offers(steps, true))
            && (r.closed <==> h.closed || !NeverCloses(steps))
    decreases |steps|
  {
    if steps != [] {
      CountersCount(c, Do(c, h, steps[0]), steps[1..]);
    }
  }

  function Failures(steps: seq<Step>, i: nat): nat {
    if steps == [] then 0 else (if steps[0] == FailStep(i) then 1 else 0) + Failures(steps[1..], i)
  }

  lemma FailureStep(c: Config, h: Hub, step: Step, i: nat)
    requires c.Valid() && Indexed(h) && Enabled(c, h, step) && i < |h.subs|
    ensures i < |Do(c, h, step).subs|
    ensures Do(c, h, step).subs[i].failed == h.subs[i].failed + if step == FailStep(i) then 1 else 0
  {
  }

  lemma {:induction false} FailuresCount(c: Config, h: Hub, steps: seq<Step>, i: nat)
    requires c.Valid() && Indexed(h) && Legal(c, h, steps) && i < |h.subs|
    ensures i < |After(c, h, steps).subs|
    ensures After(c, h, steps).subs[i].failed == h.subs[i].failed + Failures(steps, i)
    decreases |steps|
  {
    if steps != [] {
      FailureStep(c, h, steps[0], i);
      FailuresCount(c, Do(c, h, steps[0]), steps[1..], i);
    }
  }

  // ---- Passes ---------------------------------------------------------------------------------

  /** How many events were handed over since a pass last started, n before the run. */
  function HandedSince(steps: seq<Step>, n: nat): nat
    decreases |steps|
  {
    if steps == [] then n
    else HandedSince(steps[1..], if steps[0].StartStep? then 0 else if steps[0] == HandStep then n + 1 else n)
  }

  lemma {:induction false} PassIsCounted(c: Config, h: Hub, steps: seq<Step>, n: nat)
    requires c.Valid() && Indexed(h) && Legal(c, h, steps)
    requires h.running.Pass? ==> h.running.count == n && (c.batch.AtMost? ==> n <= c.batch.n)
    ensures var r := After(c, h, steps);
            r.running.Pass? ==> r.running.count == HandedSince(steps, n) && (c.batch.AtMost? ==> r.running.count <= c.batch.n)
    decreases |steps|
  {
    if steps != [] {
      PassIsCounted(c, Do(c, h, steps[0]), steps[1..],
                    if steps[0].StartStep? then 0 else if steps[0] == HandStep then n + 1 else n);
    }
  }

  /** A pass never hands over more than a batch, and it ends exactly when the batch is full, or nothing is
      left to hand over, or the subscriber has left. */
  lemma PassEndsExactly(c: Config, steps: seq<Step>)
    requires c.Valid() && Legal(c, EMPTY, steps) && Indexed(After(c, EMPTY, steps)) && After(c, EMPTY, steps).running.Pass?
    ensures var r, n := After(c, EMPTY, steps), HandedSince(steps, 0);
            var s := r.subs[r.running.sub];
            && (c.batch.AtMost? ==> n <= c.batch.n)
            && (Enabled(c, r, FinishStep) <==> c.batch == AtMost(n) || Live(s) == [] || !s.active)
            && (Enabled(c, r, HandStep) <==> !Enabled(c, r, FinishStep))
  {
    PassIsCounted(c, EMPTY, steps, 0);
  }
}
