/** From acked to ingested: the sessions of one epoch share a receiver, and each feeds what its own
    batches released into the host's buffer, if it is still the attached one
    (internal/hub/session.go, handleEvents; internal/hub/hub.go, attach and ingestRawEvents). */
module Ingest {
  import opened Wire
  import opened Receiving
  import Events

  /** A session between two batches, inside one (the number of its next event and what it has
      released so far), storing what was released, or ended. */
  datatype Stage = Idle | Batch(next: nat, held: seq<Entry>) | Storing(rest: seq<Entry>) | Ended

  /** An event and the session whose batch released it. */
  datatype By = By(session: nat, event: Entry)

  /** released, stored and refused record, in order, what became applicable, what reached the
      buffer and what the hub turned away. */
  datatype World = World(
    r: ReceiverState, attached: Option<nat>, sessions: map<nat, Stage>,
    released: seq<By>, stored: seq<By>, refused: seq<By>)

  datatype Step =
    | Attach(s: nat)
    | Detach
    | Begin(s: nat, first: nat)
    | Accept(s: nat, body: Payload)
    | Admit(s: nat)
    | Store(s: nat)

  predicate Start(w: World) {
    && Consistent(w.r) && w.attached.None? && w.sessions == map[]
    && |w.released| == 0 && |w.stored| == 0 && |w.refused| == 0
  }

  predicate At(w: World, s: nat) { s in w.sessions }

  predicate Enabled(w: World, step: Step) {
    match step
    case Attach(s) => s !in w.sessions
    case Detach => w.attached.Some?
    case Begin(s, first) => At(w, s) && w.sessions[s].Idle? && first > 0
    case Accept(s, _) => At(w, s) && w.sessions[s].Batch?
    case Admit(s) => At(w, s) && w.sessions[s].Batch?
    case Store(s) => At(w, s) && w.sessions[s].Storing? && |w.sessions[s].rest| > 0
  }

  function Numbered(first: nat, ready: seq<Payload>): seq<Entry> {
    seq(|ready|, i requires 0 <= i < |ready| => Entry(first + i, ready[i]))
  }

  function Tagged(s: nat, events: seq<Entry>): seq<By> {
    seq(|events|, i requires 0 <= i < |events| => By(s, events[i]))
  }

  /** An error in a batch ends the session. A batch that released nothing has nothing to store. */
  function Apply(w: World, step: Step): World
    requires Enabled(w, step)
  {
    match step
    case Attach(s) => w.(attached := Some(s), sessions := w.sessions[s := Idle])
    case Detach => w.(attached := None)
    case Begin(s, first) => w.(sessions := w.sessions[s := Batch(first, [])])
    case Accept(s, body) =>
      var b := w.sessions[s];
      var a := Offer(w.r, b.next, body);
      var events := Numbered(w.r.acked + 1, a.ready);
      if a.err.Some? then w.(sessions := w.sessions[s := Ended])
      else w.(r := a.after, released := w.released + Tagged(s, events),
              sessions := w.sessions[s := Batch(b.next + 1, b.held + events)])
    case Admit(s) =>
      var held := w.sessions[s].held;
      if |held| == 0 then w.(sessions := w.sessions[s := Idle])
      else if w.attached == Some(s) then w.(sessions := w.sessions[s := Storing(held)])
      else w.(sessions := w.sessions[s := Ended], refused := w.refused + Tagged(s, held))
    case Store(s) =>
      var rest := w.sessions[s].rest;
      w.(stored := w.stored + [By(s, rest[0])],
         sessions := w.sessions[s := if |rest| == 1 then Idle else Storing(rest[1..])])
  }

  predicate Legal(w: World, steps: seq<Step>)
    decreases |steps|
  {
    |steps| == 0 || (Enabled(w, steps[0]) && Legal(Apply(w, steps[0]), steps[1..]))
  }

  function Run(w: World, steps: seq<Step>): World
    requires Legal(w, steps)
    decreases |steps|
  {
    if |steps| == 0 then w else Run(Apply(w, steps[0]), steps[1..])
  }

  // ---- one session's share ----

  /** The events of one session, in order. */
  function Of(log: seq<By>, s: nat): seq<Entry> {
    if |log| == 0 then []
    else Of(log[..|log| - 1], s) + if log[|log| - 1].session == s then [log[|log| - 1].event] else []
  }

  function InHand(w: World, s: nat): seq<Entry> {
    if s !in w.sessions then []
    else match w.sessions[s]
         case Batch(_, held) => held
         case Storing(rest) => rest
         case _ => []
  }

  lemma {:induction false} OfAppend(log: seq<By>, more: seq<By>, s: nat)
    ensures Of(log + more, s) == Of(log, s) + Of(more, s)
  {
    if |more| == 0 {
      assert log + more == log;
    } else {
      assert (log + more)[..|log + more| - 1] == log + more[..|more| - 1];
      OfAppend(log, more[..|more| - 1], s);
    }
  }

  lemma {:induction false} OfTagged(t: nat, events: seq<Entry>, s: nat)
    ensures Of(Tagged(t, events), s) == if s == t then events else []
  {
    if |events| == 0 {
    } else {
      var tagged, init := Tagged(t, events), events[..|events| - 1];
      assert tagged[..|tagged| - 1] == Tagged(t, init);
      OfTagged(t, init, s);
      assert events == init + [events[|events| - 1]];
    }
  }

  // ---- what every run keeps ----

  /** What a session released is, in this order, stored, refused, or in its hands. */
  predicate Shared(w: World, s: nat) {
    Of(w.released, s) == Of(w.stored, s) + Of(w.refused, s) + InHand(w, s)
  }

  /** Refusal ends a session, and only a session that is not attached meets it. */
  predicate RefusedIsEnded(w: World, s: nat) {
    |Of(w.refused, s)| > 0 ==> s in w.sessions && w.sessions[s].Ended? && w.attached != Some(s)
  }

  /** A batch that released something has caught up with the gap. */
  predicate CaughtUp(w: World, s: nat) {
    && (s in w.sessions && w.sessions[s].Batch? ==>
          w.sessions[s].next > 0 && (|w.sessions[s].held| > 0 ==> w.sessions[s].next <= w.r.acked + 1))
    && (w.attached == Some(s) ==> s in w.sessions)
    && (s !in w.sessions ==> |Of(w.released, s)| == 0 && |Of(w.stored, s)| == 0 && |Of(w.refused, s)| == 0)
  }

  ghost predicate Inv(w: World, base: nat) {
    && Consistent(w.r) && w.r.acked == base + |w.released|
    && (forall i :: 0 <= i < |w.released| ==> w.released[i].event.seqNo == base + 1 + i)
    && (forall s :: Shared(w, s) && RefusedIsEnded(w, s) && CaughtUp(w, s))
  }

  lemma StartInv(w: World)
    requires Start(w)
    ensures Inv(w, w.r.acked)
  {}

  /** What one step does to the share of a session. */
  lemma StepShares(w: World, step: Step, base: nat, s: nat)
    requires Inv(w, base) && Enabled(w, step)
    ensures Shared(Apply(w, step), s) && RefusedIsEnded(Apply(w, step), s) && CaughtUp(Apply(w, step), s)
  {
    assert Shared(w, s) && RefusedIsEnded(w, s) && CaughtUp(w, s);
    match step
    case Accept(t, body) => AcceptShares(w, t, body, base, s);
    case Admit(t) => AdmitShares(w, t, base, s);
    case Store(t) => StoreShares(w, t, base, s);
    case _ =>
  }

  lemma HoldMore(r: seq<Entry>, stored: seq<Entry>, refused: seq<Entry>, held: seq<Entry>, more: seq<Entry>)
    requires r == stored + refused + held
    ensures r + more == stored + refused + (held + more)
  {}

  lemma RefuseHeld(r: seq<Entry>, stored: seq<Entry>, refused: seq<Entry>, held: seq<Entry>, none: seq<Entry>)
    requires r == stored + refused + held && |none| == 0
    ensures r == stored + (refused + held) + none
  {}

  lemma StoreFirst(r: seq<Entry>, stored: seq<Entry>, refused: seq<Entry>, rest: seq<Entry>, left: seq<Entry>)
    requires r == stored + refused + rest && |refused| == 0 && |rest| > 0 && left == rest[1..]
    ensures r == stored + [rest[0]] + refused + left
  {}

  /** A tagged run appended to a log adds to its own session's share only. */
  lemma OfMore(log: seq<By>, t: nat, events: seq<Entry>, s: nat)
    ensures Of(log + Tagged(t, events), s) == if s == t then Of(log, s) + events else Of(log, s)
  {
    OfAppend(log, Tagged(t, events), s);
    OfTagged(t, events, s);
  }

  /** A batch that has released something meets no error, and one that releases has caught up. */
  lemma AcceptCatchesUp(w: World, t: nat, body: Payload)
    requires Consistent(w.r) && Enabled(w, Accept(t, body)) && CaughtUp(w, t)
    ensures var b := w.sessions[t];
            var a := Offer(w.r, b.next, body);
            && (a.err.Some? ==> |b.held| == 0)
            && (a.err.None? && |b.held| + |a.ready| > 0 ==> b.next <= a.after.acked)
            && w.r.acked <= a.after.acked
  {
    OfferKeeps(w.r, w.sessions[t].next, body);
  }

  lemma ReleaseShared(w: World, v: World, t: nat, events: seq<Entry>, s: nat)
    requires Shared(w, s) && v.stored == w.stored && v.refused == w.refused
    requires v.released == w.released + Tagged(t, events)
    requires InHand(v, s) == if s == t then InHand(w, s) + events else InHand(w, s)
    ensures Shared(v, s)
    ensures Of(v.released, s) == if s == t then Of(w.released, s) + events else Of(w.released, s)
  {
    OfMore(w.released, t, events, s);
    if s == t {
      HoldMore(Of(w.released, s), Of(w.stored, s), Of(w.refused, s), InHand(w, s), events);
    }
  }

  lemma AcceptedShared(w: World, t: nat, body: Payload, s: nat)
    requires Enabled(w, Accept(t, body)) && Shared(w, s) && Offer(w.r, w.sessions[t].next, body).err.None?
    ensures var v := Apply(w, Accept(t, body));
            Shared(v, s) && (s != t ==> |Of(v.released, s)| == |Of(w.released, s)|)
  {
    var events := Numbered(w.r.acked + 1, Offer(w.r, w.sessions[t].next, body).ready);
    ReleaseShared(w, Apply(w, Accept(t, body)), t, events, s);
  }

  lemma AcceptShares(w: World, t: nat, body: Payload, base: nat, s: nat)
    requires Inv(w, base) && Enabled(w, Accept(t, body))
    ensures var v := Apply(w, Accept(t, body)); Shared(v, s) && RefusedIsEnded(v, s) && CaughtUp(v, s)
  {
    assert Shared(w, s) && RefusedIsEnded(w, s) && CaughtUp(w, s) && CaughtUp(w, t);
    AcceptCatchesUp(w, t, body);
    if Offer(w.r, w.sessions[t].next, body).err.None? {
      AcceptedShared(w, t, body, s);
    }
  }

  lemma RefuseShared(w: World, v: World, t: nat, held: seq<Entry>, s: nat)
    requires Shared(w, s) && v.released == w.released && v.stored == w.stored
    requires v.refused == w.refused + Tagged(t, held)
    requires if s == t then InHand(w, s) == held && |InHand(v, s)| == 0 else InHand(v, s) == InHand(w, s)
    ensures Shared(v, s)
    ensures Of(v.refused, s) == if s == t then Of(w.refused, s) + held else Of(w.refused, s)
  {
    OfMore(w.refused, t, held, s);
    if s == t {
      RefuseHeld(Of(w.released, s), Of(w.stored, s), Of(w.refused, s), held, InHand(v, s));
    }
  }

  lemma AdmitShares(w: World, t: nat, base: nat, s: nat)
    requires Inv(w, base) && Enabled(w, Admit(t))
    ensures var v := Apply(w, Admit(t)); Shared(v, s) && RefusedIsEnded(v, s) && CaughtUp(v, s)
  {
    assert Shared(w, s) && RefusedIsEnded(w, s) && CaughtUp(w, s);
    var v := Apply(w, Admit(t));
    if v.sessions[t].Ended? {
      RefuseShared(w, v, t, w.sessions[t].held, s);
    }
  }

  lemma StoreShares(w: World, t: nat, base: nat, s: nat)
    requires Inv(w, base) && Enabled(w, Store(t))
    ensures var v := Apply(w, Store(t)); Shared(v, s) && RefusedIsEnded(v, s) && CaughtUp(v, s)
  {
    assert Shared(w, s) && RefusedIsEnded(w, s) && CaughtUp(w, s) && RefusedIsEnded(w, t);
    var rest, v := w.sessions[t].rest, Apply(w, Store(t));
    assert v.stored[..|w.stored|] == w.stored;
    if s == t {
      StoreFirst(Of(w.released, s), Of(w.stored, s), Of(w.refused, s), rest, InHand(v, s));
    }
  }

  lemma StepKeepsInv(w: World, step: Step, base: nat)
    requires Inv(w, base) && Enabled(w, step)
    ensures Inv(Apply(w, step), base)
  {
    var v := Apply(w, step);
    if step.Accept? {
      assert CaughtUp(w, step.s);
      OfferKeeps(w.r, w.sessions[step.s].next, step.body);
    }
    forall s ensures Shared(v, s) && RefusedIsEnded(v, s) && CaughtUp(v, s) {
      StepShares(w, step, base, s);
    }
  }

  lemma {:induction false} RunKeepsInv(w: World, steps: seq<Step>, base: nat)
    requires Inv(w, base) && Legal(w, steps)
    ensures Inv(Run(w, steps), base)
    decreases |steps|
  {
    if |steps| == 0 {
    } else {
      StepKeepsInv(w, steps[0], base);
      RunKeepsInv(Apply(w, steps[0]), steps[1..], base);
    }
  }

  // ---- theorems ----

  /** The watermark and the buffer, over every run: each number up to the watermark was released
      exactly once; and of what a session released, in that order, a first part was stored, and
      the rest is in its hands, or was refused and ended it. */
  lemma AckedIsAccountedFor(w: World, steps: seq<Step>, s: nat)
    requires Start(w) && Legal(w, steps)
    ensures var v := Run(w, steps);
            && v.r.acked == w.r.acked + |v.released|
            && (forall i :: 0 <= i < |v.released| ==> v.released[i].event.seqNo == w.r.acked + 1 + i)
            && Of(v.released, s) == Of(v.stored, s) + Of(v.refused, s) + InHand(v, s)
            && (|Of(v.refused, s)| > 0 ==> s in v.sessions && v.sessions[s].Ended? && v.attached != Some(s))
  {
    StartInv(w);
    RunKeepsInv(w, steps, w.r.acked);
    var v := Run(w, steps);
    assert Shared(v, s) && RefusedIsEnded(v, s) && CaughtUp(v, s);
  }

  /** While a session is still attached, everything its batches released is stored in order or
      still in its hands: nothing of it was refused, whatever older sessions do meanwhile. */
  lemma AttachedLosesNothing(w: World, steps: seq<Step>, s: nat)
    requires Start(w) && Legal(w, steps) && Run(w, steps).attached == Some(s)
    ensures var v := Run(w, steps); Of(v.released, s) == Of(v.stored, s) + InHand(v, s)
  {
    AckedIsAccountedFor(w, steps, s);
    var v := Run(w, steps);
    assert Of(v.stored, s) + Of(v.refused, s) == Of(v.stored, s);
  }

  /** Exactly which releases are refused: the whole of what a batch released, when its session
      asks to store it and is not the attached one. Nothing else is ever refused; a session that
      was let in stores all of it even if it is replaced meanwhile. */
  lemma RefusedExactlyWhen(w: World, step: Step)
    requires Enabled(w, step)
    ensures var v := Apply(w, step);
            && (v.refused != w.refused <==> step.Admit? && |w.sessions[step.s].held| > 0 && w.attached != Some(step.s))
            && (v.refused != w.refused ==> v.refused == w.refused + Tagged(step.s, w.sessions[step.s].held))
  {
    if step.Admit? {
      assert |Tagged(step.s, w.sessions[step.s].held)| == |w.sessions[step.s].held|;
    }
  }

  function PayloadsOf(events: seq<Entry>): seq<Payload> {
    seq(|events|, i requires 0 <= i < |events| => events[i].payload)
  }

  /** One accept for each event of a batch. */
  function Accepts(s: nat, bodies: seq<Payload>): seq<Step> {
    seq(|bodies|, i requires 0 <= i < |bodies| => Accept(s, bodies[i]))
  }

  /** An undisturbed batch goes as its loop does: the session ends up holding what the loop releases,
      and the receiver is where the loop leaves it. */
  lemma {:induction false} BatchIsTheLoop(w: World, s: nat, bodies: seq<Payload>)
    requires At(w, s) && w.sessions[s].Batch?
    requires var b := w.sessions[s]; Events.AcceptAlone(w.r, b.next, bodies, PayloadsOf(b.held)).err.None?
    ensures Legal(w, Accepts(s, bodies))
    ensures var b, v := w.sessions[s], Run(w, Accepts(s, bodies));
            var loop := Events.AcceptAlone(w.r, b.next, bodies, PayloadsOf(b.held));
            && At(v, s) && v.sessions[s].Batch? && v.sessions[s].next == b.next + |bodies|
            && v.r == loop.after && PayloadsOf(v.sessions[s].held) == loop.released
    decreases |bodies|
  {
    var b := w.sessions[s];
    if |bodies| == 0 {
    } else {
      var a, v := Offer(w.r, b.next, bodies[0]), Apply(w, Accept(s, bodies[0]));
      assert bodies[0..] == bodies;
      Events.AloneOneMore(w.r, b.next, bodies, 0, PayloadsOf(b.held));
      assert PayloadsOf(v.sessions[s].held) == PayloadsOf(b.held) + a.ready;
      assert Accepts(s, bodies)[1..] == Accepts(s, bodies[1..]);
      BatchIsTheLoop(v, s, bodies[1..]);
    }
  }

  /** A session that was let in and is left alone stores all it has, in order. */
  lemma {:induction false} LetInStoresAll(w: World, s: nat) returns (steps: seq<Step>)
    requires s in w.sessions && w.sessions[s].Storing? && |w.sessions[s].rest| > 0
    ensures Legal(w, steps) && forall i :: 0 <= i < |steps| ==> steps[i] == Store(s)
    ensures var v := Run(w, steps);
            && v.stored == w.stored + Tagged(s, w.sessions[s].rest) && At(v, s) && v.sessions[s] == Idle
            && v.r == w.r && v.refused == w.refused
    decreases |w.sessions[s].rest|
  {
    var rest := w.sessions[s].rest;
    var v := Apply(w, Store(s));
    assert Tagged(s, rest) == [By(s, rest[0])] + Tagged(s, rest[1..]);
    if |rest| == 1 {
      steps := [Store(s)];
      assert |steps[1..]| == 0;
    } else {
      var more := LetInStoresAll(v, s);
      steps := [Store(s)] + more;
      assert steps[1..] == more;
    }
  }

  /** What an attached session's batch released reaches the buffer: from the end of the batch on,
      left alone, the session stores every event of it once and in order, and is done. */
  lemma AttachedStoresAll(w: World, s: nat) returns (steps: seq<Step>)
    requires w.attached == Some(s) && s in w.sessions && w.sessions[s].Batch?
    ensures Legal(w, steps) && forall i :: 0 <= i < |steps| ==> steps[i] == Admit(s) || steps[i] == Store(s)
    ensures var v := Run(w, steps);
            && v.stored == w.stored + Tagged(s, w.sessions[s].held) && At(v, s) && v.sessions[s] == Idle
            && v.r == w.r && v.refused == w.refused
  {
    var v, more := Apply(w, Admit(s)), [];
    if |w.sessions[s].held| > 0 {
      more := LetInStoresAll(v, s);
    } else {
      assert |Tagged(s, w.sessions[s].held)| == 0;
    }
    steps := [Admit(s)] + more;
    assert steps[1..] == more;
  }

  /** Acked is not ingested: from any state without a session, the next event can be released by
      one just before another attaches, and is then acked, refused, and in nobody's hands. */
  lemma TakeoverLosesEvent(w: World, body: Payload, s: nat, t: nat)
    requires Start(w) && s != t
    ensures Enabled(w, Attach(s))
    ensures var a := Apply(w, Attach(s));
            && Enabled(a, Begin(s, w.r.acked + 1))
            && var b := Apply(a, Begin(s, w.r.acked + 1));
               && Enabled(b, Accept(s, body))
               && var c := Apply(b, Accept(s, body));
                  && Enabled(c, Attach(t))
                  && var d := Apply(c, Attach(t));
                     && Enabled(d, Admit(s))
                     && var v := Apply(d, Admit(s));
                        && v.r.acked > w.r.acked && v.attached == Some(t) && |v.stored| == 0
                        && |v.refused| > 0 && v.refused[0] == By(s, Entry(w.r.acked + 1, body))
                        && |InHand(v, s)| == |InHand(v, t)| == 0
  {
    OfferKeeps(w.r, w.r.acked + 1, body);
    var events := Numbered(w.r.acked + 1, Offer(w.r, w.r.acked + 1, body).ready);
    assert events[0] == Entry(w.r.acked + 1, body);
  }
}
