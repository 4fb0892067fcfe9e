/** One browser's event queue (internal/hub/hub.go: feSubscriber): a circular buffer with a tier
    kept free for critical events, drained by a pump, and a resync slot for what was dropped. */
module FeSubscriber {
  import opened Wire

  const SUB_RING_CAP := 2048
  const SUB_RING_CRITICAL_SLACK := 512
  const RING_SIZE := SUB_RING_CAP + SUB_RING_CRITICAL_SLACK
  const RESYNC_DROP_THRESHOLD := 32

  datatype Ev = Ev(number: nat, critical: bool)

  /** The queue as a simple FIFO; pending is the event a queued resync frame was built from. */
  datatype Sub = Sub(queue: seq<Ev>, dropped: nat, pending: Option<Ev>)

  predicate Escalates(dropped: nat, critical: bool) { critical || dropped + 1 >= RESYNC_DROP_THRESHOLD }

  function NotedDrop(s: Sub, ev: Ev, critical: bool): Sub {
    if Escalates(s.dropped, critical) then s.(dropped := 0, pending := Some(ev)) else s.(dropped := s.dropped + 1)
  }

  predicate Accepts(s: Sub, ev: Ev) {
    |s.queue| < if ev.critical then RING_SIZE else SUB_RING_CAP
  }

  function Enqueued(s: Sub, ev: Ev): Sub {
    if Accepts(s, ev) then s.(queue := s.queue + [ev]) else NotedDrop(s, ev, ev.critical)
  }

  // ---- the circular buffer ----

  /** The slot i places behind head. */
  function Slot(head: nat, i: nat): (k: nat)
    requires head < RING_SIZE
    ensures k < RING_SIZE
    ensures i < RING_SIZE ==> k == if head + i < RING_SIZE then head + i else head + i - RING_SIZE
  {
    (head + i) % RING_SIZE
  }

  /** Exactly the n slots from head on are occupied; the free ones keep no event alive. */
  predicate Occupied(slots: seq<Option<Ev>>, head: nat, n: nat) {
    && |slots| == RING_SIZE && head < RING_SIZE && n <= RING_SIZE
    && forall i :: 0 <= i < RING_SIZE ==> (slots[Slot(head, i)].Some? <==> i < n)
  }

  /** The occupied slots, oldest first. */
  function Unrolled(slots: seq<Option<Ev>>, head: nat, n: nat): (q: seq<Ev>)
    requires Occupied(slots, head, n)
    ensures |q| == n
  {
    seq(n, i requires 0 <= i < n => slots[Slot(head, i)].value)
  }

  lemma PushUnrolls(slots: seq<Option<Ev>>, head: nat, n: nat, ev: Ev)
    requires Occupied(slots, head, n) && n < RING_SIZE
    ensures var after := slots[Slot(head, n) := Some(ev)];
            Occupied(after, head, n + 1) && Unrolled(after, head, n + 1) == Unrolled(slots, head, n) + [ev]
  {
    var after := slots[Slot(head, n) := Some(ev)];
    assert forall i :: 0 <= i < RING_SIZE && i != n ==> after[Slot(head, i)] == slots[Slot(head, i)];
  }

  lemma PopUnrolls(slots: seq<Option<Ev>>, head: nat, n: nat)
    requires Occupied(slots, head, n) && n > 0
    ensures var after, next := slots[head := None], Slot(head, 1);
            Occupied(after, next, n - 1) && Unrolled(after, next, n - 1) == Unrolled(slots, head, n)[1..]
  {
    var after, next := slots[head := None], Slot(head, 1);
    forall i | 0 <= i < RING_SIZE - 1 ensures after[Slot(next, i)] == slots[Slot(head, i + 1)] {
      assert Slot(next, i) == Slot(head, i + 1) != head;
    }
    forall i | 0 <= i < RING_SIZE ensures after[Slot(next, i)].Some? <==> i < n - 1 {
      if i == RING_SIZE - 1 {
        assert Slot(next, i) == head;
      } else {
        assert slots[Slot(head, i + 1)].Some? <==> i + 1 < n;
      }
    }
    var q, r := Unrolled(slots, head, n), Unrolled(after, next, n - 1);
    forall i | 0 <= i < n - 1 ensures r[i] == q[1..][i] {
      assert after[Slot(next, i)] == slots[Slot(head, i + 1)];
    }
  }

  class Subscriber {
    const ring: array<Option<Ev>>
    var head: nat
    var n: nat
    var dropped: nat
    var pending: Option<Ev>

    ghost predicate Valid() reads this, ring {
      Occupied(ring[..], head, n)
    }

    ghost function Queue(): (q: seq<Ev>)
      reads this, ring
      requires Valid()
      ensures |q| == n
    {
      Unrolled(ring[..], head, n)
    }

    ghost function State(): Sub
      reads this, ring
      requires Valid()
    {
      Sub(Queue(), dropped, pending)
    }

    constructor ()
      ensures Valid() && fresh(ring) && State() == Sub([], 0, None)
    {
      var empty := new Option<Ev>[RING_SIZE](_ => None);
      ring, head, n, dropped, pending := empty, 0, 0, 0, None;
    }

    method Enqueue(ev: Ev)
      requires Valid()
      modifies this, ring
      ensures Valid() && State() == Enqueued(old(State()), ev)
    {
      var limit := SUB_RING_CAP;
      if ev.critical {
        limit := ring.Length;
      }
      if n >= limit {
        NoteDrop(ev, ev.critical);
        return;
      }
      Push(ev);
    }

    /** The ring's half of enqueue. */
    method Push(ev: Ev)
      requires Valid() && n < RING_SIZE
      modifies this`n, ring
      ensures Valid() && Queue() == old(Queue()) + [ev] && n == old(n) + 1
    {
      PushUnrolls(ring[..], head, n, ev);
      ring[(head + n) % ring.Length] := Some(ev);
      n := n + 1;
      assert ring[..] == old(ring[..])[Slot(head, n - 1) := Some(ev)];
    }

    method NoteDrop(ev: Ev, critical: bool)
      requires Valid()
      modifies this`dropped, this`pending
      ensures Valid() && State() == NotedDrop(old(State()), ev, critical)
    {
      dropped := dropped + 1;
      if !critical && dropped < RESYNC_DROP_THRESHOLD {
        return;
      }
      dropped := 0;
      pending := Some(ev);
    }

    /** The pump's first lock section: a pending resync is taken out, an event only looked at. */
    method Look() returns (resync: Option<Ev>, next: Option<Ev>)
      requires Valid()
      modifies this`pending
      ensures Valid()
      ensures resync == old(pending) && State() == old(State()).(pending := None)
      ensures next == if resync.None? && |Queue()| > 0 then Some(Queue()[0]) else None
    {
      resync, next := pending, None;
      if pending.Some? {
        pending := None;
      } else if n != 0 {
        assert ring[Slot(head, 0)].Some?;
        next := ring[head];
      }
    }

    /** The pump's second lock section: the event it looked at leaves the ring. */
    method Pop()
      requires Valid() && n > 0
      modifies this`head, this`n, ring
      ensures Valid() && State() == old(State()).(queue := old(Queue())[1..])
    {
      PopUnrolls(ring[..], head, n);
      ring[head] := None;
      assert ring[..] == old(ring[..])[head := None];
      head := (head + 1) % ring.Length;
      n := n - 1;
    }
  }
}
