/** What reaches the browsers while the epoch stays the same (internal/hub/hub.go): every event that
    found room in the queue, in order. */
module EpochFlow {
  import opened EpochIsolation

  /** The items of one epoch, in order. */
  function OfEpoch(s: seq<Item>, e: nat): seq<Item> {
    if |s| == 0 then []
    else OfEpoch(s[..|s| - 1], e) + if s[|s| - 1].epoch == e then [s[|s| - 1]] else []
  }

  lemma {:induction false} OfEpochAppend(a: seq<Item>, b: seq<Item>, e: nat)
    ensures OfEpoch(a + b, e) == OfEpoch(a, e) + OfEpoch(b, e)
  {
    if |b| == 0 {
      assert a + b == a;
    } else {
      assert (a + b)[..|a + b| - 1] == a + b[..|b| - 1];
      OfEpochAppend(a, b[..|b| - 1], e);
    }
  }

  lemma {:induction false} NoneOfEpoch(s: seq<Item>, e: nat)
    requires forall x :: x in s ==> x.epoch != e
    ensures OfEpoch(s, e) == []
  {
    if |s| > 0 {
      NoneOfEpoch(s[..|s| - 1], e);
    }
  }

  lemma OneOfEpoch(x: Item, e: nat)
    ensures OfEpoch([x], e) == if x.epoch == e then [x] else []
  {
    assert [x][..0] == [];
  }

  /** What a step adds to the traffic of epoch e: the event of a reader that finds room in the
      queue, and the reset that announces the epoch, if it is not dropped. */
  function Added(h: Host, step: Step, e: nat): seq<Item>
    requires Enabled(h, step)
  {
    match step
    case Enqueue(r) =>
      var reader := h.readers[r];
      if |h.queue| < h.cap && reader.epoch == e then [Event(reader.at.number, e)] else []
    case AttachAnnounce => if h.ready && |h.queue| < h.cap && h.epoch == e then [Reset(h.attach.baseline, e)] else []
    case AttachDeliver => if h.epoch == e then [Reset(h.attach.baseline, e)] else []
    case _ => []
  }

  lemma AppendedToEpoch(h: Host, g: Host, x: Item, e: nat)
    requires Pipeline(g) == Pipeline(h) + [x]
    ensures OfEpoch(Pipeline(g), e) == OfEpoch(Pipeline(h), e) + if x.epoch == e then [x] else []
  {
    OfEpochAppend(Pipeline(h), [x], e);
    OneOfEpoch(x, e);
  }

  /** An epoch being announced has no traffic yet. */
  lemma NothingYet(h: Host)
    requires Epochs(h) && !h.attach.Idle?
    ensures OfEpoch(h.out, h.epoch) == OfEpoch(InHand(h.drain) + h.queue, h.epoch) == []
  {
    forall x | x in h.out || x in InHand(h.drain) + h.queue ensures x.epoch != h.epoch {
      assert x in Pipeline(h);
    }
    NoneOfEpoch(h.out, h.epoch);
    NoneOfEpoch(InHand(h.drain) + h.queue, h.epoch);
  }

  lemma DeliverAdds(h: Host)
    requires Epochs(h) && h.attach.Direct?
    ensures var e := h.epoch;
            OfEpoch(Pipeline(Apply(h, AttachDeliver)), e) == OfEpoch(Pipeline(h), e) + Added(h, AttachDeliver, e)
  {
    var reset, rest := Reset(h.attach.baseline, h.epoch), InHand(h.drain) + h.queue;
    assert Pipeline(h) == h.out + rest && Pipeline(Apply(h, AttachDeliver)) == h.out + [reset] + rest;
    NothingYet(h);
    OfEpochAppend(h.out, rest, h.epoch);
    OfEpochAppend(h.out + [reset], rest, h.epoch);
    OfEpochAppend(h.out, [reset], h.epoch);
    OneOfEpoch(reset, h.epoch);
  }

  lemma CheckDropsOnlyOthers(h: Host)
    requires h.drain.Took?
    ensures OfEpoch(Pipeline(Apply(h, Check)), h.epoch) == OfEpoch(Pipeline(h), h.epoch)
  {
    var g, x := Apply(h, Check), h.drain.item;
    if x.epoch == h.epoch {
      assert Pipeline(g) == Pipeline(h);
    } else {
      assert Pipeline(h) == h.out + [x] + h.queue && Pipeline(g) == h.out + h.queue;
      OfEpochAppend(h.out + [x], h.queue, h.epoch);
      OfEpochAppend(h.out, [x], h.epoch);
      OfEpochAppend(h.out, h.queue, h.epoch);
      OneOfEpoch(x, h.epoch);
    }
  }

  lemma StepAdds(h: Host, step: Step)
    requires Epochs(h) && Enabled(h, step) && !step.AttachStore?
    ensures Apply(h, step).epoch == h.epoch
    ensures OfEpoch(Pipeline(Apply(h, step)), h.epoch) == OfEpoch(Pipeline(h), h.epoch) + Added(h, step, h.epoch)
  {
    var g := Apply(h, step);
    match step
    case Enqueue(r) =>
      var x := Event(h.readers[r].at.number, h.readers[r].epoch);
      if |h.queue| < h.cap {
        assert Pipeline(g) == Pipeline(h) + [x];
        AppendedToEpoch(h, g, x, h.epoch);
      }
    case AttachAnnounce =>
      if h.ready && |h.queue| < h.cap {
        assert Pipeline(g) == Pipeline(h) + [Reset(h.attach.baseline, h.epoch)];
        AppendedToEpoch(h, g, Reset(h.attach.baseline, h.epoch), h.epoch);
      }
    case AttachDeliver => DeliverAdds(h);
    case Check => CheckDropsOnlyOthers(h);
    case Take => assert Pipeline(g) == Pipeline(h);
    case Broadcast => assert Pipeline(g) == Pipeline(h);
    case _ =>
  }

  predicate SameEpoch(steps: seq<Step>) { forall i :: 0 <= i < |steps| ==> !steps[i].AttachStore? }

  function AllAdded(h: Host, steps: seq<Step>, e: nat): seq<Item>
    requires Legal(h, steps)
    decreases |steps|
  {
    if |steps| == 0 then [] else Added(h, steps[0], e) + AllAdded(Apply(h, steps[0]), steps[1..], e)
  }

  /** While the epoch stays the same nothing of it is lost, doubled or reordered once it found room
      in the queue, over every interleaving: what was broadcast, is in the drain's hands or is
      queued grows by exactly the events that found room and the reset, in that order. */
  lemma {:induction false} NothingCurrentIsLost(h: Host, steps: seq<Step>)
    requires Inv(h) && Legal(h, steps) && SameEpoch(steps)
    ensures Run(h, steps).epoch == h.epoch && Inv(Run(h, steps))
    ensures OfEpoch(Pipeline(Run(h, steps)), h.epoch)
         == OfEpoch(Pipeline(h), h.epoch) + AllAdded(h, steps, h.epoch)
    decreases |steps|
  {
    if |steps| == 0 {
    } else {
      var g := Apply(h, steps[0]);
      StepAdds(h, steps[0]);
      StepKeepsInv(h, steps[0]);
      assert forall i :: 0 <= i < |steps[1..]| ==> steps[1..][i] == steps[i + 1];
      NothingCurrentIsLost(g, steps[1..]);
      Regroup(OfEpoch(Pipeline(h), h.epoch), Added(h, steps[0], h.epoch), AllAdded(g, steps[1..], h.epoch));
    }
  }

  lemma Regroup(a: seq<Item>, b: seq<Item>, c: seq<Item>)
    ensures (a + b) + c == a + (b + c)
  {}

  /** The reset of an epoch carries the baseline of the attach that installed the epoch. */
  lemma {:induction false} ResetCarriesBaseline(h: Host, steps: seq<Step>, baseline: nat)
    requires Legal(h, steps) && SameEpoch(steps) && (h.attach.Idle? || h.attach.baseline == baseline)
    ensures forall x :: x in AllAdded(h, steps, h.epoch) && x.Reset? ==> x == Reset(baseline, h.epoch)
    decreases |steps|
  {
    if |steps| > 0 {
      assert forall i :: 0 <= i < |steps[1..]| ==> steps[1..][i] == steps[i + 1];
      ResetCarriesBaseline(Apply(h, steps[0]), steps[1..], baseline);
    }
  }

  /** So from the moment it is installed, an epoch is announced with its own baseline or not at all. */
  lemma AnnouncedAsInstalled(h: Host, baseline: nat, a: Host, steps: seq<Step>)
    requires Inv(h) && h.attach.Idle? && a == Apply(h, AttachStore(baseline)) && Legal(a, steps) && SameEpoch(steps)
    ensures var g, e := Run(a, steps), h.epoch + 1;
            && g.epoch == e
            && forall x :: x in OfEpoch(Pipeline(g), e) && x.Reset? ==> x == Reset(baseline, e)
  {
    InstalledIsSilent(h, baseline, a);
    NothingCurrentIsLost(a, steps);
    ResetCarriesBaseline(a, steps, baseline);
  }

  lemma InstalledIsSilent(h: Host, baseline: nat, a: Host)
    requires Inv(h) && h.attach.Idle? && a == Apply(h, AttachStore(baseline))
    ensures Inv(a) && a.attach.baseline == baseline && OfEpoch(Pipeline(a), a.epoch) == []
  {
    StepKeepsInv(h, AttachStore(baseline));
    NothingYet(a);
    OfEpochAppend(a.out, InHand(a.drain) + a.queue, a.epoch);
    assert Pipeline(a) == a.out + (InHand(a.drain) + a.queue);
  }

  // ---- the drain left alone ----

  lemma FirstStep(h: Host, step: Step, rest: seq<Step>)
    requires Enabled(h, step) && Legal(Apply(h, step), rest)
    ensures Legal(h, [step] + rest) && Run(h, [step] + rest) == Run(Apply(h, step), rest)
  {
    assert ([step] + rest)[1..] == rest;
  }

  predicate DrainOnly(steps: seq<Step>) {
    forall i :: 0 <= i < |steps| ==> steps[i].Take? || steps[i].Check? || steps[i].Broadcast?
  }

  /** The host after one turn of the drain. */
  function AfterTurn(h: Host): Host
    requires |h.queue| > 0
  {
    h.(queue := h.queue[1..], out := if h.queue[0].epoch == h.epoch then h.out + [h.queue[0]] else h.out)
  }

  lemma OneTurn(h: Host, rest: seq<Step>) returns (steps: seq<Step>)
    requires h.ready && h.drain.Waiting? && |h.queue| > 0
    requires Legal(AfterTurn(h), rest) && DrainOnly(rest)
    ensures Legal(h, steps) && DrainOnly(steps) && Run(h, steps) == Run(AfterTurn(h), rest)
  {
    var a := Apply(h, Take);
    var b := Apply(a, Check);
    var more := rest;
    if h.queue[0].epoch == h.epoch {
      assert Apply(b, Broadcast) == AfterTurn(h);
      FirstStep(b, Broadcast, rest);
      more := [Broadcast] + rest;
    } else {
      assert b == AfterTurn(h);
    }
    FirstStep(a, Check, more);
    FirstStep(h, Take, [Check] + more);
    steps := [Take] + ([Check] + more);
  }

  lemma TurnOfEpoch(out: seq<Item>, queue: seq<Item>, e: nat)
    requires |queue| > 0
    ensures (if queue[0].epoch == e then out + [queue[0]] else out) + OfEpoch(queue[1..], e) == out + OfEpoch(queue, e)
  {
    OfEpochAppend([queue[0]], queue[1..], e);
    OneOfEpoch(queue[0], e);
    assert queue == [queue[0]] + queue[1..];
  }

  /** A drain left alone broadcasts everything of the current epoch, in order, and nothing else. */
  lemma {:induction false} DrainDeliversAll(h: Host) returns (steps: seq<Step>)
    requires h.ready && h.drain.Waiting?
    ensures Legal(h, steps) && DrainOnly(steps)
    ensures var g := Run(h, steps);
            |g.queue| == 0 && g.drain.Waiting? && g.epoch == h.epoch && g.out == h.out + OfEpoch(h.queue, h.epoch)
    decreases |h.queue|
  {
    if |h.queue| == 0 {
      steps := [];
    } else {
      var rest := DrainDeliversAll(AfterTurn(h));
      steps := OneTurn(h, rest);
      TurnOfEpoch(h.out, h.queue, h.epoch);
    }
  }

  // ---- the ring ----

  /** The events the readers put into the host's ring. */
  function Ringed(h: Host, steps: seq<Step>): seq<Item>
    requires Legal(h, steps)
    decreases |steps|
  {
    if |steps| == 0 then []
    else
      (if steps[0].Buffer?
       then [Event(h.readers[steps[0].reader].at.number, h.readers[steps[0].reader].epoch)] else [])
      + Ringed(Apply(h, steps[0]), steps[1..])
  }

  /** Between two attaches and without trimming, the ring grows by exactly the events the readers
      gated, in order, whether or not they find room in the queue. */
  lemma {:induction false} RingTakesAll(h: Host, steps: seq<Step>)
    requires Legal(h, steps) && forall i :: 0 <= i < |steps| ==> !steps[i].AttachClear? && !steps[i].Trim?
    ensures Run(h, steps).ring == h.ring + Ringed(h, steps)
    decreases |steps|
  {
    if |steps| == 0 {
    } else {
      assert forall i :: 0 <= i < |steps[1..]| ==> steps[1..][i] == steps[i + 1];
      RingTakesAll(Apply(h, steps[0]), steps[1..]);
    }
  }
}
