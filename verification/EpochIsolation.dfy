/** Events of one host on their way to the browsers while its epoch changes underneath them
    (internal/hub/hub.go: attach, ingestRawEvents, the fan-out queue and its drain). Each step
    is one lock section or one channel operation; everything else interleaves freely.

    Epochs are never reused, so they are numbered in the order they are installed. */
module EpochIsolation {
  import opened Wire

  /** A queued event or epoch reset, tagged with the epoch it was gated on. */
  datatype Item = Event(number: nat, epoch: nat) | Reset(baseline: nat, epoch: nat)

  /** Where the one attach that holds the hub's lock has got to. */
  datatype Attach = Idle | Stored(baseline: nat) | Cleared(baseline: nat) | Direct(baseline: nat)

  /** A session's ingest loop, for one event at a time. */
  datatype Reader = Reader(epoch: nat, at: Stage)

  datatype Stage = Between | Locked(number: nat) | Gated(number: nat)

  /** The drain goroutine: waiting, holding an item it took, or about to broadcast it. */
  datatype Drain = Waiting | Took(item: Item) | Checked(item: Item)

  /** epoch is the host's current one and attached the last whose attach finished; mu is the
      reader holding the host's data lock; ready says whether the fan-out queue exists;
      accepted are the epochs whose reset was queued or delivered; out is what was broadcast. */
  datatype Host = Host(
    epoch: nat, attached: nat, attach: Attach,
    mu: Option<nat>, ring: seq<Item>, readers: map<nat, Reader>,
    ready: bool, cap: nat, queue: seq<Item>, drain: Drain,
    accepted: set<nat>, out: seq<Item>)

  datatype Step =
    | AttachStore(baseline: nat)
    | AttachClear
    | AttachAnnounce
    | AttachDeliver
    | Connect(reader: nat, epoch: nat)
    | Gate(reader: nat, number: nat)
    | Buffer(reader: nat)
    | Trim(count: nat)
    | OpenQueue(reader: nat)
    | Enqueue(reader: nat)
    | Take
    | Check
    | Broadcast

  predicate Start(h: Host) {
    && h.epoch == h.attached == 0 && h.attach == Idle && h.mu == None && |h.ring| == 0
    && h.readers == map[] && !h.ready && |h.queue| == 0 && h.drain == Waiting
    && h.accepted == {} && |h.out| == 0
  }

  predicate At(h: Host, reader: nat, stage: Stage) {
    reader in h.readers && h.readers[reader].at == stage
  }

  predicate Enabled(h: Host, step: Step) {
    match step
    case AttachStore(_) => h.attach.Idle?
    case AttachClear => h.attach.Stored? && h.mu.None?
    case AttachAnnounce => h.attach.Cleared?
    case AttachDeliver => h.attach.Direct?
    case Connect(r, e) => r !in h.readers && e <= h.attached
    case Gate(r, _) => At(h, r, Between) && h.mu.None? && h.readers[r].epoch == h.epoch
    case Buffer(r) => r in h.readers && h.readers[r].at.Locked? && h.mu == Some(r)
    case Trim(count) => count <= |h.ring| && h.mu.Some?
    case OpenQueue(r) => r in h.readers && h.readers[r].at.Gated?
    case Enqueue(r) => r in h.readers && h.readers[r].at.Gated? && h.ready
    case Take => h.ready && h.drain.Waiting? && |h.queue| > 0
    case Check => h.drain.Took?
    case Broadcast => h.drain.Checked?
  }

  function Send(h: Host, item: Item): seq<Item> {
    if |h.queue| < h.cap then h.queue + [item] else h.queue
  }

  function Apply(h: Host, step: Step): Host
    requires Enabled(h, step)
  {
    match step
    case AttachStore(baseline) => h.(epoch := h.epoch + 1, attach := Stored(baseline))
    case AttachClear => h.(ring := [], attach := Cleared(h.attach.baseline))
    case AttachAnnounce =>
      if !h.ready then h.(attach := Direct(h.attach.baseline))
      else h.(queue := Send(h, Reset(h.attach.baseline, h.epoch)),
              accepted := if |h.queue| < h.cap then h.accepted + {h.epoch} else h.accepted,
              attach := Idle, attached := h.epoch)
    case AttachDeliver =>
      h.(out := h.out + [Reset(h.attach.baseline, h.epoch)], accepted := h.accepted + {h.epoch},
         attach := Idle, attached := h.epoch)
    case Connect(r, e) => h.(readers := h.readers[r := Reader(e, Between)])
    case Gate(r, number) => h.(mu := Some(r), readers := h.readers[r := h.readers[r].(at := Locked(number))])
    case Buffer(r) =>
      var reader := h.readers[r];
      h.(mu := None, ring := h.ring + [Event(reader.at.number, reader.epoch)],
         readers := h.readers[r := reader.(at := Gated(reader.at.number))])
    case Trim(count) => h.(ring := h.ring[count..])
    case OpenQueue(r) => h.(ready := true)
    case Enqueue(r) =>
      var reader := h.readers[r];
      h.(queue := Send(h, Event(reader.at.number, reader.epoch)), readers := h.readers[r := reader.(at := Between)])
    case Take => h.(drain := Took(h.queue[0]), queue := h.queue[1..])
    case Check => h.(drain := if h.drain.item.epoch == h.epoch then Checked(h.drain.item) else Waiting)
    case Broadcast => h.(drain := Waiting, out := h.out + [h.drain.item])
  }

  predicate Legal(h: Host, steps: seq<Step>)
    decreases |steps|
  {
    |steps| == 0 || (Enabled(h, steps[0]) && Legal(Apply(h, steps[0]), steps[1..]))
  }

  function Run(h: Host, steps: seq<Step>): Host
    requires Legal(h, steps)
    decreases |steps|
  {
    if |steps| == 0 then h else Run(Apply(h, steps[0]), steps[1..])
  }

  // ---- the pipeline ----

  function InHand(d: Drain): seq<Item> { if d.Waiting? then [] else [d.item] }

  /** Everything broadcast or still on its way, in order. */
  function Pipeline(h: Host): seq<Item> { h.out + InHand(h.drain) + h.queue }

  predicate HasReset(s: seq<Item>, e: nat) {
    exists i :: 0 <= i < |s| && s[i].Reset? && s[i].epoch == e
  }

  /** Every event of epoch e comes after a reset to it. */
  predicate ResetFirst(s: seq<Item>, e: nat) {
    forall j :: 0 <= j < |s| && s[j].Event? && s[j].epoch == e ==> HasReset(s[..j], e)
  }

  lemma HasResetGrows(a: seq<Item>, b: seq<Item>, e: nat)
    requires HasReset(a, e)
    ensures HasReset(a + b, e) && HasReset(b + a, e)
  {
    var i :| 0 <= i < |a| && a[i].Reset? && a[i].epoch == e;
    assert (a + b)[i] == a[i] && (b + a)[|b| + i] == a[i];
  }

  lemma ResetFirstAppend(s: seq<Item>, item: Item, e: nat)
    requires ResetFirst(s, e) && (item.Event? && item.epoch == e ==> HasReset(s, e))
    ensures ResetFirst(s + [item], e)
    ensures HasReset(s, e) ==> HasReset(s + [item], e)
  {
    var t := s + [item];
    forall j | 0 <= j < |t| && t[j].Event? && t[j].epoch == e ensures HasReset(t[..j], e) {
      assert t[..j] == if j < |s| then s[..j] else s;
    }
    if HasReset(s, e) {
      HasResetGrows(s, [item], e);
    }
  }

  /** Dropping an item of another epoch from the middle changes nothing for epoch e. */
  lemma DropOther(a: seq<Item>, x: Item, b: seq<Item>, e: nat)
    requires x.epoch != e && ResetFirst(a + [x] + b, e)
    ensures ResetFirst(a + b, e)
    ensures HasReset(a + [x] + b, e) ==> HasReset(a + b, e)
  {
    var s, t := a + [x] + b, a + b;
    forall j | 0 <= j < |t| && t[j].Event? && t[j].epoch == e ensures HasReset(t[..j], e) {
      var k := if j < |a| then j else j + 1;
      assert s[k] == t[j];
      assert t == s[..|a|] + s[|a| + 1..];
      DropOtherReset(s, t, |a|, k, j, e);
    }
    if HasReset(s, e) {
      assert s[..|s|] == s && t[..|t|] == t;
      assert t == s[..|a|] + s[|a| + 1..];
      DropOtherReset(s, t, |a|, |s|, |t|, e);
    }
  }

  lemma DropOtherReset(s: seq<Item>, t: seq<Item>, at: nat, k: nat, j: nat, e: nat)
    requires at < |s| && |s| == |t| + 1 && s[at].epoch != e
    requires t == s[..at] + s[at + 1..]
    requires j <= |t| && (k == (if j < at then j else j + 1) || (k == |s| && j == |t|))
    requires HasReset(s[..k], e)
    ensures HasReset(t[..j], e)
  {
    var i :| 0 <= i < k && s[..k][i].Reset? && s[..k][i].epoch == e;
    assert s[..k][i] == s[i];
    if i < at {
      assert t[i] == s[i];
      assert t[..j][i] == t[i];
    } else {
      assert t[i - 1] == s[i];
      assert t[..j][i - 1] == t[i - 1];
    }
  }

  // ---- invariants ----

  predicate Epochs(h: Host) {
    && (if h.attach.Idle? then h.attached == h.epoch else h.attached + 1 == h.epoch)
    && (forall r :: r in h.readers ==> h.readers[r].epoch <= h.attached)
    && (forall x :: x in Pipeline(h) ==> x.epoch <= h.epoch)
    && (!h.attach.Idle? ==> forall x :: x in Pipeline(h) ==> x.epoch <= h.attached)
    && (forall e :: e in h.accepted ==> e <= h.attached)
    && (!h.ready ==> |h.queue| == 0 && h.drain.Waiting?)
  }

  /** What was broadcast never goes back to an older epoch, nor does the item about to be. */
  predicate Ordered(h: Host) {
    && (forall i, j :: 0 <= i < j < |h.out| ==> h.out[i].epoch <= h.out[j].epoch)
    && (h.drain.Checked? ==> forall i :: 0 <= i < |h.out| ==> h.out[i].epoch <= h.drain.item.epoch)
    && (h.attach.Direct? ==> !h.drain.Checked?)
  }

  predicate Guarded(h: Host) {
    && (h.epoch in h.accepted ==> ResetFirst(Pipeline(h), h.epoch) && HasReset(Pipeline(h), h.epoch))
    && (forall e :: e in h.accepted ==> ResetFirst(h.out, e))
    && (h.drain.Checked? && h.drain.item.Event? && h.drain.item.epoch in h.accepted ==>
         HasReset(h.out, h.drain.item.epoch))
  }

  /** Unless an attach is between storing the new epoch and clearing the ring, the ring holds
      events of the current epoch only, and so will what a reader under the lock adds. */
  predicate RingCurrent(h: Host) {
    && (!h.attach.Stored? ==> forall i :: 0 <= i < |h.ring| ==> h.ring[i].epoch == h.epoch)
    && (h.mu.Some? ==> h.mu.value in h.readers && h.readers[h.mu.value].at.Locked?)
    && (h.mu.Some? && !h.attach.Stored? ==> h.readers[h.mu.value].epoch == h.epoch)
    && (forall r :: r in h.readers && h.readers[r].at.Locked? ==> h.mu == Some(r))
  }

  predicate Inv(h: Host) { Epochs(h) && Ordered(h) && Guarded(h) && RingCurrent(h) }

  lemma StartInv(h: Host)
    requires Start(h)
    ensures Inv(h)
  {}

  lemma StepKeepsEpochs(h: Host, step: Step)
    requires Epochs(h) && Enabled(h, step)
    ensures Epochs(Apply(h, step))
  {
    var g := Apply(h, step);
    forall x | x in Pipeline(g) ensures x in Pipeline(h) || x.epoch <= g.attached {
      if step.Check? && x !in h.out {
        assert x in InHand(h.drain) + h.queue;
      }
    }
  }

  lemma StepKeepsRing(h: Host, step: Step)
    requires Epochs(h) && RingCurrent(h) && Enabled(h, step)
    ensures RingCurrent(Apply(h, step))
  {}

  lemma StepKeepsOrdered(h: Host, step: Step)
    requires Epochs(h) && Ordered(h) && Enabled(h, step)
    ensures Ordered(Apply(h, step))
  {
    assert forall i :: 0 <= i < |h.out| ==> h.out[i] in Pipeline(h);
    if h.drain.Took? {
      assert h.drain.item in Pipeline(h);
    }
  }

  lemma EnqueueKeepsGuarded(h: Host, g: Host, item: Item)
    requires Guarded(h) && g.queue == Send(h, item)
    requires g.epoch == h.epoch && g.out == h.out && g.drain == h.drain && g.accepted == h.accepted
    ensures Guarded(g)
  {
    if |h.queue| < h.cap {
      assert Pipeline(g) == Pipeline(h) + [item];
      if h.epoch in h.accepted {
        ResetFirstAppend(Pipeline(h), item, h.epoch);
      }
    }
  }

  lemma NoEventIsGuarded(s: seq<Item>, e: nat)
    requires forall x :: x in s ==> x.epoch != e
    ensures ResetFirst(s, e)
  {}

  lemma AnnounceKeepsGuarded(h: Host)
    requires Epochs(h) && Guarded(h) && h.attach.Cleared?
    ensures Guarded(Apply(h, AttachAnnounce))
  {
    var g := Apply(h, AttachAnnounce);
    if h.ready && |h.queue| < h.cap {
      var reset := Reset(h.attach.baseline, h.epoch);
      assert Pipeline(g) == Pipeline(h) + [reset];
      NoEventIsGuarded(Pipeline(h), h.epoch);
      ResetFirstAppend(Pipeline(h), reset, h.epoch);
      assert (Pipeline(h) + [reset])[|Pipeline(h)|] == reset;
      NoNewInOut(h);
    }
  }

  lemma NoNewInOut(h: Host)
    requires Epochs(h) && !h.attach.Idle?
    ensures ResetFirst(h.out, h.epoch)
  {
    forall j | 0 <= j < |h.out| ensures h.out[j].epoch != h.epoch {
      assert h.out[j] in Pipeline(h);
    }
  }

  lemma DeliverKeepsGuarded(h: Host)
    requires Epochs(h) && Ordered(h) && Guarded(h) && h.attach.Direct?
    ensures Guarded(Apply(h, AttachDeliver))
  {
    var g := Apply(h, AttachDeliver);
    var reset := Reset(h.attach.baseline, h.epoch);
    forall e | e in g.accepted ensures ResetFirst(g.out, e) {
      if e == h.epoch { NoNewInOut(h); }
      ResetFirstAppend(h.out, reset, e);
    }
    var p := Pipeline(g);
    assert p[|h.out|] == reset;
    forall j | 0 <= j < |p| && p[j].Event? ensures p[j].epoch != h.epoch {
      assert p[j] in Pipeline(h);
    }
  }

  lemma CheckKeepsGuarded(h: Host)
    requires Guarded(h) && h.drain.Took?
    ensures Guarded(Apply(h, Check))
  {
    var x := h.drain.item;
    var g := Apply(h, Check);
    assert Pipeline(h) == h.out + [x] + h.queue;
    if x.epoch != h.epoch {
      assert Pipeline(g) == h.out + h.queue;
      if h.epoch in h.accepted {
        DropOther(h.out, x, h.queue, h.epoch);
      }
    } else if x.Event? && h.epoch in h.accepted {
      assert Pipeline(h)[|h.out|] == x;
      assert Pipeline(h)[..|h.out|] == h.out;
    }
  }

  lemma BroadcastKeepsGuarded(h: Host)
    requires Guarded(h) && h.drain.Checked?
    ensures Guarded(Apply(h, Broadcast))
  {
    var x := h.drain.item;
    var g := Apply(h, Broadcast);
    assert Pipeline(g) == Pipeline(h);
    forall e | e in g.accepted ensures ResetFirst(g.out, e) {
      ResetFirstAppend(h.out, x, e);
    }
  }

  lemma StepKeepsGuarded(h: Host, step: Step)
    requires Inv(h) && Enabled(h, step)
    ensures Guarded(Apply(h, step))
  {
    match step
    case AttachAnnounce => AnnounceKeepsGuarded(h);
    case AttachDeliver => DeliverKeepsGuarded(h);
    case Enqueue(r) => EnqueueKeepsGuarded(h, Apply(h, step), Event(h.readers[r].at.number, h.readers[r].epoch));
    case Take => assert Pipeline(Apply(h, step)) == Pipeline(h);
    case Check => CheckKeepsGuarded(h);
    case Broadcast => BroadcastKeepsGuarded(h);
    case _ =>
  }

  lemma StepKeepsInv(h: Host, step: Step)
    requires Inv(h) && Enabled(h, step)
    ensures Inv(Apply(h, step))
  {
    StepKeepsEpochs(h, step);
    StepKeepsRing(h, step);
    StepKeepsOrdered(h, step);
    StepKeepsGuarded(h, step);
  }

  lemma {:induction false} RunKeepsInv(h: Host, steps: seq<Step>)
    requires Inv(h) && Legal(h, steps)
    ensures Inv(Run(h, steps))
    decreases |steps|
  {
    if |steps| == 0 {
    } else {
      StepKeepsInv(h, steps[0]);
      RunKeepsInv(Apply(h, steps[0]), steps[1..]);
    }
  }

  /** Epoch isolation, over every interleaving: no event gated under a retired epoch is broadcast
      after a later epoch's reset; an accepted reset precedes every event of its epoch; and once
      an attach has cleared the ring it holds only events of the current epoch. */
  lemma EpochsStayApart(h: Host, steps: seq<Step>)
    requires Start(h) && Legal(h, steps)
    ensures var g := Run(h, steps);
            && (forall i, j :: 0 <= i < j < |g.out| && g.out[i].Reset? && g.out[j].Event? ==>
                 g.out[i].epoch <= g.out[j].epoch)
            && (forall j :: 0 <= j < |g.out| && g.out[j].Event? && g.out[j].epoch in g.accepted ==>
                  HasReset(g.out[..j], g.out[j].epoch))
            && (!g.attach.Stored? ==> forall i :: 0 <= i < |g.ring| ==> g.ring[i].epoch == g.epoch)
  {
    StartInv(h);
    RunKeepsInv(h, steps);
  }

  /** A reset is accepted exactly when the host has no queue yet or the queue has room: a full
      queue drops it like any other item, and the new epoch then goes out unannounced. */
  lemma ResetAcceptedExactlyWhen(h: Host)
    requires Epochs(h) && h.attach.Cleared?
    ensures var g := Apply(h, AttachAnnounce);
            var told := if g.attach.Direct? then Apply(g, AttachDeliver) else g;
            && told.attached == h.epoch
            && (h.epoch in told.accepted <==> !h.ready || |h.queue| < h.cap)
            && (HasReset(Pipeline(told), h.epoch) <==> !h.ready || |h.queue| < h.cap)
  {
    var g := Apply(h, AttachAnnounce);
    var told := if g.attach.Direct? then Apply(g, AttachDeliver) else g;
    var reset := Reset(h.attach.baseline, h.epoch);
    if !h.ready {
      assert Pipeline(told)[|h.out|] == reset;
    } else if |h.queue| < h.cap {
      assert Pipeline(told)[|Pipeline(told)| - 1] == reset;
    } else {
      assert Pipeline(told) == Pipeline(h);
      forall i | 0 <= i < |Pipeline(h)| ensures Pipeline(h)[i].epoch != h.epoch {
        assert Pipeline(h)[i] in Pipeline(h);
      }
    }
  }

  // ---- a run that loses a reset ----

  lemma {:induction false} OneMore(h: Host, steps: seq<Step>, step: Step)
    requires Legal(h, steps) && Enabled(Run(h, steps), step)
    ensures Legal(h, steps + [step]) && Run(h, steps + [step]) == Apply(Run(h, steps), step)
    decreases |steps|
  {
    if |steps| == 0 {
      assert (steps + [step])[1..] == steps;
    } else {
      assert (steps + [step])[1..] == steps[1..] + [step];
      OneMore(Apply(h, steps[0]), steps[1..], step);
    }
  }

  /** Epoch 1 is attached, and a reader of it is about to queue an event. */
  predicate Filling(h: Host) {
    && h.epoch == h.attached == 1 && h.attach.Idle? && h.mu.None? && h.ready && h.accepted == {1}
    && 0 in h.readers && h.readers[0].epoch == 1 && h.readers[0].at.Gated? && |h.queue| <= h.cap
  }

  lemma FillingStarts(h: Host) returns (steps: seq<Step>)
    requires Start(h)
    ensures Legal(h, steps) && Filling(Run(h, steps)) && Run(h, steps).cap == h.cap
  {
    steps := [];
    OneMore(h, steps, AttachStore(0));
    steps := steps + [AttachStore(0)];
    OneMore(h, steps, AttachClear);
    steps := steps + [AttachClear];
    OneMore(h, steps, AttachAnnounce);
    steps := steps + [AttachAnnounce];
    OneMore(h, steps, AttachDeliver);
    steps := steps + [AttachDeliver];
    OneMore(h, steps, Connect(0, 1));
    steps := steps + [Connect(0, 1)];
    OneMore(h, steps, Gate(0, 1));
    steps := steps + [Gate(0, 1)];
    OneMore(h, steps, Buffer(0));
    steps := steps + [Buffer(0)];
    OneMore(h, steps, OpenQueue(0));
    steps := steps + [OpenQueue(0)];
  }

  lemma FillingOn(h: Host, steps: seq<Step>) returns (more: seq<Step>)
    requires Legal(h, steps) && Filling(Run(h, steps)) && |Run(h, steps).queue| < Run(h, steps).cap
    ensures Legal(h, more) && Filling(Run(h, more)) && Run(h, more).cap == Run(h, steps).cap
    ensures |Run(h, more).queue| == |Run(h, steps).queue| + 1
  {
    OneMore(h, steps, Enqueue(0));
    more := steps + [Enqueue(0)];
    OneMore(h, more, Gate(0, 1));
    more := more + [Gate(0, 1)];
    OneMore(h, more, Buffer(0));
    more := more + [Buffer(0)];
  }

  /** Whatever the queue's capacity, a run from the start fills it with events of the first epoch
      and then attaches a second epoch whose reset is neither queued nor delivered. */
  lemma ResetCanBeLost(h: Host) returns (steps: seq<Step>)
    requires Start(h)
    ensures Legal(h, steps)
    ensures var g := Run(h, steps); g.attached == g.epoch == 2 && 2 !in g.accepted && !HasReset(Pipeline(g), 2)
  {
    steps := FillingStarts(h);
    while |Run(h, steps).queue| < h.cap
      invariant Legal(h, steps) && Filling(Run(h, steps)) && Run(h, steps).cap == h.cap
      decreases h.cap - |Run(h, steps).queue|
    {
      steps := FillingOn(h, steps);
    }
    OneMore(h, steps, AttachStore(0));
    steps := steps + [AttachStore(0)];
    OneMore(h, steps, AttachClear);
    steps := steps + [AttachClear];
    StartInv(h);
    RunKeepsInv(h, steps);
    ResetAcceptedExactlyWhen(Run(h, steps));
    OneMore(h, steps, AttachAnnounce);
    steps := steps + [AttachAnnounce];
  }
}
