/** Every run of one browser's queue: fan-out threads offering events, the pump's two lock
    sections with its send in between, and the browser going away at any moment. */
module FeRuns {
  import opened Wire
  import opened FeSubscriber

  datatype Fate = Queued | Delivered | Dropped

  /** An event once offered, and what became of it. */
  datatype Record = Record(ev: Ev, fate: Fate)

  /** The pump: between turns, sending a resync frame, holding the event it looked at, past its
      send but not yet past the pop, or returned. */
  datatype Pump = Idle | Resyncing(ev: Ev) | Holding(ev: Ev) | Sent(ev: Ev) | Ended

  /** history records every event offered, in order; delivered and told are what the browser's
      channel took, as events and as resync frames; drops are the events lost, and covered counts
      those a queued resync stood for. */
  datatype World = World(sub: Sub, pump: Pump, stopped: bool, history: seq<Record>,
                         delivered: seq<Ev>, told: seq<Ev>, drops: seq<Ev>, covered: nat)

  datatype Step = Offer(ev: Ev) | Look | Tell | Deliver | Discard | Pop | Stop | Quit

  predicate Start(w: World) {
    && |w.sub.queue| == 0 && w.sub.dropped == 0 && w.sub.pending == None && w.pump == Idle
    && |w.history| == 0 && |w.delivered| == 0 && |w.told| == 0 && |w.drops| == 0 && w.covered == 0
  }

  predicate Enabled(w: World, step: Step) {
    match step
    case Offer(_) => true
    case Look => w.pump.Idle?
    case Tell => w.pump.Resyncing?
    case Deliver => w.pump.Holding?
    case Discard => w.pump.Holding? && !w.pump.ev.critical
    case Pop => w.pump.Sent? && |w.sub.queue| > 0
    case Stop => true
    case Quit =>
      && w.stopped
      && (w.pump.Resyncing? || w.pump.Holding? || (w.pump.Idle? && w.sub.pending.None? && |w.sub.queue| == 0))
  }

  function Lose(w: World, ev: Ev): World {
    w.(sub := NotedDrop(w.sub, ev, ev.critical), drops := w.drops + [ev],
       covered := if Escalates(w.sub.dropped, ev.critical) then |w.drops| + 1 else w.covered)
  }

  function Apply(w: World, step: Step): World
    requires Enabled(w, step)
  {
    match step
    case Offer(ev) =>
      if Accepts(w.sub, ev) then w.(sub := Enqueued(w.sub, ev), history := w.history + [Record(ev, Queued)])
      else Lose(w, ev).(history := w.history + [Record(ev, Dropped)])
    case Look =>
      if w.sub.pending.Some? then w.(sub := w.sub.(pending := None), pump := Resyncing(w.sub.pending.value))
      else if |w.sub.queue| > 0 then w.(pump := Holding(w.sub.queue[0]))
      else w
    case Tell => w.(pump := Idle, told := w.told + [w.pump.ev])
    case Deliver =>
      w.(pump := Sent(w.pump.ev), delivered := w.delivered + [w.pump.ev], history := MarkFirst(w.history, Delivered))
    case Discard => Lose(w, w.pump.ev).(pump := Sent(w.pump.ev), history := MarkFirst(w.history, Dropped))
    case Pop => w.(pump := Idle, sub := w.sub.(queue := w.sub.queue[1..]))
    case Stop => w.(stopped := true)
    case Quit => w.(pump := Ended)
  }

  predicate Legal(w: World, steps: seq<Step>)
    decreases |steps|
  {
    |steps| == 0 || (Enabled(w, steps[0]) && Legal(Apply(w, steps[0]), steps[1..]))
  }

  function Run(w: World, steps: seq<Step>): World
    requires Legal(w, steps)
    decreases |steps|
  {
    if |steps| == 0 then w else Run(Apply(w, steps[0]), steps[1..])
  }

  /** The events a run offers. */
  function Offers(steps: seq<Step>): seq<Ev> {
    if |steps| == 0 then [] else (if steps[0].Offer? then [steps[0].ev] else []) + Offers(steps[1..])
  }

  // ---- fates ----

  /** The events of one fate, in the order they were offered. */
  function Pick(h: seq<Record>, fate: Fate): seq<Ev> {
    if |h| == 0 then []
    else if h[0].fate == fate then [h[0].ev] + Pick(h[1..], fate)
    else Pick(h[1..], fate)
  }

  function Events(h: seq<Record>): seq<Ev> {
    seq(|h|, i requires 0 <= i < |h| => h[i].ev)
  }

  /** Settles the fate of the event that has waited longest. */
  function MarkFirst(h: seq<Record>, fate: Fate): seq<Record> {
    if |h| == 0 then h
    else if h[0].fate == Queued then [h[0].(fate := fate)] + h[1..]
    else [h[0]] + MarkFirst(h[1..], fate)
  }

  /** No event still waits when a later one was delivered. */
  predicate InOrder(h: seq<Record>) {
    |h| == 0 || ((h[0].fate == Queued ==> |Pick(h[1..], Delivered)| == 0) && InOrder(h[1..]))
  }

  lemma {:induction false} InOrderAppend(h: seq<Record>, r: Record)
    requires InOrder(h) && r.fate != Delivered
    ensures InOrder(h + [r])
  {
    if |h| == 0 {
    } else {
      assert (h + [r])[1..] == h[1..] + [r];
      InOrderAppend(h[1..], r);
      PickAppend(h[1..], r, Delivered);
    }
  }

  lemma {:induction false} PickAppend(h: seq<Record>, r: Record, fate: Fate)
    ensures Pick(h + [r], fate) == if r.fate == fate then Pick(h, fate) + [r.ev] else Pick(h, fate)
  {
    if |h| == 0 {
    } else {
      assert (h + [r])[1..] == h[1..] + [r];
      PickAppend(h[1..], r, fate);
    }
  }

  lemma {:induction false} PickAll(h: seq<Record>)
    ensures multiset(Events(h)) == multiset(Pick(h, Queued)) + multiset(Pick(h, Delivered)) + multiset(Pick(h, Dropped))
  {
    if |h| == 0 {
    } else {
      assert Events(h) == [h[0].ev] + Events(h[1..]);
      PickAll(h[1..]);
    }
  }

  lemma {:induction false} MarkSettles(h: seq<Record>, fate: Fate)
    requires InOrder(h) && |Pick(h, Queued)| > 0 && fate != Queued
    ensures var g := MarkFirst(h, fate);
            && InOrder(g)
            && Pick(g, Queued) == Pick(h, Queued)[1..]
            && Pick(g, Delivered)
               == (if fate == Delivered then Pick(h, Delivered) + [Pick(h, Queued)[0]] else Pick(h, Delivered))
  {
    var g, tail := MarkFirst(h, fate), h[1..];
    if h[0].fate == Queued {
      assert g[1..] == tail;
    } else {
      assert g[1..] == MarkFirst(tail, fate);
      MarkSettles(tail, fate);
    }
  }

  lemma {:induction false} MarkCounts(h: seq<Record>, fate: Fate)
    requires |Pick(h, Queued)| > 0 && fate != Queued
    ensures multiset(Pick(MarkFirst(h, fate), Dropped)) ==
      multiset(Pick(h, Dropped)) + (if fate == Dropped then multiset{Pick(h, Queued)[0]} else multiset{})
  {
    var g, tail := MarkFirst(h, fate), h[1..];
    if h[0].fate == Queued {
      assert g[1..] == tail;
    } else {
      assert g[1..] == MarkFirst(tail, fate);
      MarkCounts(tail, fate);
    }
  }

  lemma {:induction false} MarkKeepsEvents(h: seq<Record>, fate: Fate)
    ensures Events(MarkFirst(h, fate)) == Events(h)
  {
    if |h| == 0 {
    } else {
      MarkKeepsEvents(h[1..], fate);
      assert Events(h) == [h[0].ev] + Events(h[1..]);
      var g := MarkFirst(h, fate);
      assert Events(g) == [g[0].ev] + Events(g[1..]);
    }
  }

  // ---- the invariant ----

  function Occupying(pump: Pump): seq<Ev> { if pump.Sent? then [pump.ev] else [] }

  predicate Histories(w: World) {
    && InOrder(w.history)
    && w.delivered == Pick(w.history, Delivered)
    && multiset(w.drops) == multiset(Pick(w.history, Dropped))
    && w.sub.queue == Occupying(w.pump) + Pick(w.history, Queued)
    && (w.pump.Holding? ==> |w.sub.queue| > 0 && w.sub.queue[0] == w.pump.ev)
  }

  function Droppable(q: seq<Ev>): nat {
    if |q| == 0 then 0 else (if q[0].critical then 0 else 1) + Droppable(q[1..])
  }

  predicate Tiers(w: World) {
    |w.sub.queue| <= RING_SIZE && Droppable(w.sub.queue) <= SUB_RING_CAP
  }

  /** Drops since the last resync was queued: fewer than the threshold and none critical. The
      last resync queued is still to come or is the last one the browser was told. */
  predicate Accounted(w: World) {
    && w.covered <= |w.drops| && w.sub.dropped == |w.drops| - w.covered < RESYNC_DROP_THRESHOLD
    && (forall i :: w.covered <= i < |w.drops| ==> !w.drops[i].critical)
    && (w.covered == 0 ==> w.sub.pending.None?)
    && (w.covered > 0 && !w.pump.Ended? ==> Latest(w) == Some(w.drops[w.covered - 1]))
  }

  function Latest(w: World): Option<Ev> {
    if w.sub.pending.Some? then w.sub.pending
    else if w.pump.Resyncing? then Some(w.pump.ev)
    else if |w.told| > 0 then Some(w.told[|w.told| - 1])
    else None
  }

  predicate Inv(w: World) { Histories(w) && Tiers(w) && Accounted(w) }

  lemma StartInv(w: World)
    requires Start(w)
    ensures Inv(w)
  {}

  lemma OfferKeepsHistories(w: World, ev: Ev)
    requires Histories(w)
    ensures Histories(Apply(w, Offer(ev)))
  {
    var r := Record(ev, if Accepts(w.sub, ev) then Queued else Dropped);
    PickAppend(w.history, r, Queued);
    PickAppend(w.history, r, Delivered);
    PickAppend(w.history, r, Dropped);
    InOrderAppend(w.history, r);
  }

  lemma DeliverKeepsHistories(w: World)
    requires Histories(w) && w.pump.Holding?
    ensures Histories(Apply(w, Deliver))
  {
    MarkSettles(w.history, Delivered);
    MarkCounts(w.history, Delivered);
    var q := Pick(w.history, Queued);
    assert w.sub.queue == q && q == [q[0]] + q[1..];
  }

  lemma DiscardKeepsHistories(w: World)
    requires Histories(w) && Enabled(w, Discard)
    ensures Histories(Apply(w, Discard))
  {
    MarkSettles(w.history, Dropped);
    MarkCounts(w.history, Dropped);
    var q, g := Pick(w.history, Queued), Apply(w, Discard);
    assert w.sub.queue == q && q == [q[0]] + q[1..];
    assert multiset(g.drops) == multiset(w.drops) + multiset{q[0]};
    assert g.sub.queue == Occupying(g.pump) + Pick(g.history, Queued);
  }

  lemma StepKeepsHistories(w: World, step: Step)
    requires Histories(w) && Enabled(w, step)
    ensures Histories(Apply(w, step))
  {
    match step
    case Offer(ev) => OfferKeepsHistories(w, ev);
    case Deliver => DeliverKeepsHistories(w);
    case Discard => DiscardKeepsHistories(w);
    case _ =>
  }

  lemma StepRecords(w: World, step: Step)
    requires Enabled(w, step)
    ensures Events(Apply(w, step).history) == Events(w.history) + (if step.Offer? then [step.ev] else [])
  {
    MarkKeepsEvents(w.history, Delivered);
    MarkKeepsEvents(w.history, Dropped);
  }

  lemma {:induction false} DroppableAppend(q: seq<Ev>, ev: Ev)
    ensures Droppable(q + [ev]) == Droppable(q) + if ev.critical then 0 else 1
    ensures Droppable(q) <= |q|
  {
    if |q| == 0 {
    } else {
      assert (q + [ev])[1..] == q[1..] + [ev];
      DroppableAppend(q[1..], ev);
    }
  }

  lemma StepKeepsTiers(w: World, step: Step)
    requires Tiers(w) && Enabled(w, step)
    ensures Tiers(Apply(w, step))
  {
    if step.Offer? {
      DroppableAppend(w.sub.queue, step.ev);
    }
  }

  lemma StepKeepsAccounted(w: World, step: Step)
    requires Accounted(w) && Enabled(w, step)
    ensures Accounted(Apply(w, step))
  {}

  lemma StepKeepsInv(w: World, step: Step)
    requires Inv(w) && Enabled(w, step)
    ensures Inv(Apply(w, step))
  {
    StepKeepsHistories(w, step);
    StepKeepsTiers(w, step);
    StepKeepsAccounted(w, step);
  }

  lemma {:induction false} RunKeepsInv(w: World, steps: seq<Step>)
    requires Inv(w) && Legal(w, steps)
    ensures Inv(Run(w, steps))
    decreases |steps|
  {
    if |steps| == 0 {
    } else {
      StepKeepsInv(w, steps[0]);
      RunKeepsInv(Apply(w, steps[0]), steps[1..]);
    }
  }

  lemma {:induction false} RunRecords(w: World, steps: seq<Step>)
    requires Legal(w, steps)
    ensures Events(Run(w, steps).history) == Events(w.history) + Offers(steps)
    decreases |steps|
  {
    if |steps| > 0 {
      StepRecords(w, steps[0]);
      RunRecords(Apply(w, steps[0]), steps[1..]);
    }
  }

  // ---- theorems ----

  /** The browser gets an in-order part of what was offered, and every event offered was
      delivered, was dropped, or still waits: exactly once each. */
  lemma DeliveredInOrder(w: World, steps: seq<Step>)
    requires Start(w) && Legal(w, steps)
    ensures var g := Run(w, steps);
            && Events(g.history) == Offers(steps)
            && g.delivered == Pick(g.history, Delivered)
            && g.sub.queue == Occupying(g.pump) + Pick(g.history, Queued)
            && multiset(Offers(steps)) == multiset(g.delivered) + multiset(g.drops) + multiset(Pick(g.history, Queued))
  {
    StartInv(w);
    RunKeepsInv(w, steps);
    RunRecords(w, steps);
    PickAll(Run(w, steps).history);
  }

  /** A critical event is lost only at the door, only when every slot is taken, and then at
      least the whole reserve is taken by other critical events. */
  lemma CriticalLostOnlyWhenFull(w: World, steps: seq<Step>, step: Step)
    requires Start(w) && Legal(w, steps) && Enabled(Run(w, steps), step)
    ensures var g := Run(w, steps);
            var h := Apply(g, step);
            var lost := |h.drops| > |g.drops| && h.drops[|g.drops|].critical;
            && (lost <==> step.Offer? && step.ev.critical && |g.sub.queue| == RING_SIZE)
            && (lost ==> |g.sub.queue| - Droppable(g.sub.queue) >= SUB_RING_CRITICAL_SLACK)
  {
    StartInv(w);
    RunKeepsInv(w, steps);
  }

  /** Loss is always owned up to: the drops no resync stands for are fewer than the threshold and
      none of them critical, and unless the pump has ended, the newest resync queued is waiting,
      is being sent, or is the last one the browser got. */
  lemma LossIsReported(w: World, steps: seq<Step>)
    requires Start(w) && Legal(w, steps)
    ensures Accounted(Run(w, steps))
  {
    StartInv(w);
    RunKeepsInv(w, steps);
  }

  /** The slots an event may find taken and still be queued: an ordinary one leaves the critical
      tier free. */
  function Share(ev: Ev): nat { if ev.critical then RING_SIZE else SUB_RING_CAP }

  /** At the door an event is lost exactly when its share of the slots is taken. Otherwise it is
      queued, behind everything queued before, and nothing is dropped. */
  lemma LostAtDoorExactlyWhen(w: World, steps: seq<Step>, ev: Ev)
    requires Start(w) && Legal(w, steps)
    ensures var g := Run(w, steps);
            var h := Apply(g, Offer(ev));
            && (h.drops == g.drops + [ev] <==> |g.sub.queue| >= Share(ev))
            && (|g.sub.queue| >= Share(ev) ==>
                  h.sub.queue == g.sub.queue && Pick(h.history, Queued) == Pick(g.history, Queued))
            && (|g.sub.queue| < Share(ev) ==>
                  && h.drops == g.drops && h.sub == g.sub.(queue := g.sub.queue + [ev])
                  && Pick(h.history, Queued) == Pick(g.history, Queued) + [ev])
  {
    var g := Run(w, steps);
    StartInv(w);
    RunKeepsInv(w, steps);
    PickAppend(g.history, Record(ev, if Accepts(g.sub, ev) then Queued else Dropped), Queued);
  }

  /** An event lost at the door queues a resync exactly when it is critical or the threshold's
      worth since the last. */
  lemma EscalatesExactlyWhen(w: World, steps: seq<Step>, ev: Ev)
    requires Start(w) && Legal(w, steps) && |Run(w, steps).sub.queue| >= Share(ev)
    ensures var g := Run(w, steps);
            var h := Apply(g, Offer(ev));
            && h.drops == g.drops + [ev]
            && (h.covered == |h.drops| <==> ev.critical || |h.drops| - g.covered == RESYNC_DROP_THRESHOLD)
            && (h.covered == |h.drops| ==> h.sub.pending == Some(ev))
            && (h.covered != |h.drops| ==> h.sub.pending == g.sub.pending)
  {
    StartInv(w);
    RunKeepsInv(w, steps);
  }

  /** A pump left alone empties the ring: from rest, with room in the browser's channel, three
      turns deliver the event that has waited longest. */
  lemma PumpMakesProgress(w: World)
    requires Inv(w) && w.pump.Idle? && w.sub.pending.None? && |w.sub.queue| > 0
    ensures Enabled(w, Look)
    ensures var a := Apply(w, Look);
            && Enabled(a, Deliver)
            && var b := Apply(a, Deliver);
               && Enabled(b, Pop)
               && var g := Apply(b, Pop);
                  && Inv(g) && g.pump.Idle? && g.sub.pending.None? && g.drops == w.drops
                  && g.delivered == w.delivered + [w.sub.queue[0]] && g.sub.queue == w.sub.queue[1..]
  {
    StepKeepsInv(w, Look);
    var a := Apply(w, Look);
    StepKeepsInv(a, Deliver);
    StepKeepsInv(Apply(a, Deliver), Pop);
  }

  /** A queued resync goes before the queue: the pump tells it in its next turn, and until it has
      done so nothing is delivered, whatever else happens meanwhile. */
  lemma ResyncGoesFirst(w: World, step: Step)
    requires Inv(w) && Enabled(w, step) && w.pump.Idle? && w.sub.pending.Some?
    ensures var a := Apply(w, step);
            && a.delivered == w.delivered
            && (step.Look? ==> a.pump == Resyncing(w.sub.pending.value) && a.sub.queue == w.sub.queue)
            && (!step.Look? ==> a.pump == w.pump && a.sub.pending.Some?)
    ensures step.Look? ==>
      var b := Apply(Apply(w, Look), Tell);
      b.told == w.told + [w.sub.pending.value] && b.delivered == w.delivered && b.pump.Idle? && b.sub.pending.None?
  {
    StepKeepsInv(w, step);
  }

  // ---- a pump left alone ----

  lemma FirstStep(w: World, step: Step, rest: seq<Step>)
    requires Enabled(w, step) && Legal(Apply(w, step), rest)
    ensures Legal(w, [step] + rest) && Run(w, [step] + rest) == Run(Apply(w, step), rest)
  {
    assert ([step] + rest)[1..] == rest;
  }

  /** One turn of the pump, and then the rest. */
  lemma FirstTurn(w: World, c: World, rest: seq<Step>) returns (steps: seq<Step>)
    requires Enabled(w, Look) && Enabled(Apply(w, Look), Deliver) && Enabled(Apply(Apply(w, Look), Deliver), Pop)
    requires c == Apply(Apply(Apply(w, Look), Deliver), Pop) && Legal(c, rest) && PumpOnly(rest)
    ensures Legal(w, steps) && Run(w, steps) == Run(c, rest) && PumpOnly(steps)
  {
    var a := Apply(w, Look);
    FirstStep(Apply(a, Deliver), Pop, rest);
    FirstStep(a, Deliver, [Pop] + rest);
    FirstStep(w, Look, [Deliver] + ([Pop] + rest));
    steps := [Look] + ([Deliver] + ([Pop] + rest));
  }

  predicate PumpOnly(steps: seq<Step>) {
    forall i :: 0 <= i < |steps| ==> steps[i].Look? || steps[i].Deliver? || steps[i].Pop?
  }

  /** A pump left alone, with room in the browser's channel, delivers the whole queue in order and
      comes to rest with nothing queued and nothing dropped. */
  lemma {:induction false} PumpDeliversAll(w: World) returns (steps: seq<Step>)
    requires Inv(w) && w.pump.Idle? && w.sub.pending.None?
    ensures Legal(w, steps) && PumpOnly(steps)
    ensures var g := Run(w, steps);
            g.pump.Idle? && |g.sub.queue| == 0 && g.delivered == w.delivered + w.sub.queue && g.drops == w.drops
    decreases |w.sub.queue|
  {
    if |w.sub.queue| == 0 {
      steps := [];
    } else {
      PumpMakesProgress(w);
      var c := Apply(Apply(Apply(w, Look), Deliver), Pop);
      var rest := PumpDeliversAll(c);
      steps := FirstTurn(w, c, rest);
      FirstThenRest(w.delivered, w.sub.queue);
    }
  }

  lemma FirstThenRest(delivered: seq<Ev>, queue: seq<Ev>)
    requires |queue| > 0
    ensures delivered + [queue[0]] + queue[1..] == delivered + queue
  {}
}
