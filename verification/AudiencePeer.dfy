/** What a rewritten audience means for the peer: the protocol state of SessionRuns, the frames
    its writers put on the wire, and a peer that is a plain receiver (internal/hub/session.go,
    wire/receiver.go). */
module AudiencePeer {
  import opened Wire
  import opened Validation
  import opened Sending
  import opened SessionProtocol
  import opened SessionRuns
  import Receiving

  /** wire holds every entry written in full; any of them may be delivered at any time, any number
      of times or never. told is the newest audience generation the peer has applied. */
  datatype Link = Link(w: World, peer: Receiving.ReceiverState, wire: set<Entry>, told: nat)

  datatype Move = Hub(step: Step) | Deliver(e: Entry)

  ghost predicate LinkStart(g: Link) {
    && Start(g.w) && g.wire == {} && g.told == 0
    && g.peer.acked == 0 && g.peer.window >= 1 && |g.peer.buf| == 0
  }

  /** The peer acks, and resumes from, what it has reached. */
  predicate Can(g: Link, m: Move) {
    match m
    case Hub(step) => Enabled(g.w, step) && (step.Ack? || step.Resume? ==> step.n <= g.peer.acked)
    case Deliver(e) => e in g.wire
  }

  /** The newest generation after applying payloads in order. */
  function Newest(ready: seq<Payload>, told: nat): nat {
    if |ready| == 0 then told
    else Newest(ready[1..], if ready[0].frame.AudienceFrame? then Max(told, ready[0].frame.state.gen) else told)
  }

  /** On a resume the peer applies the snapshot in hello_ack before any replayed frame. */
  function Do(g: Link, m: Move): Link
    requires Can(g, m)
  {
    match m
    case Hub(step) =>
      Link(Apply(g.w, step), g.peer, if step.Write? then g.wire + {step.e} else g.wire,
           if step.Resume? then Max(g.told, LatestGen(g.w.p.latest)) else g.told)
    case Deliver(e) =>
      var a := Receiving.Offer(g.peer, e.seqNo, e.payload);
      g.(peer := a.after, told := Newest(a.ready, g.told))
  }

  predicate LegalMoves(g: Link, moves: seq<Move>)
    decreases |moves|
  {
    |moves| == 0 || (Can(g, moves[0]) && LegalMoves(Do(g, moves[0]), moves[1..]))
  }

  function RunMoves(g: Link, moves: seq<Move>): Link
    requires LegalMoves(g, moves)
    decreases |moves|
  {
    if |moves| == 0 then g else RunMoves(Do(g, moves[0]), moves[1..])
  }

  lemma {:induction false} OneMore(g: Link, moves: seq<Move>, m: Move)
    requires LegalMoves(g, moves) && Can(RunMoves(g, moves), m)
    ensures LegalMoves(g, moves + [m]) && RunMoves(g, moves + [m]) == Do(RunMoves(g, moves), m)
    decreases |moves|
  {
    if |moves| == 0 {
      assert (moves + [m])[1..] == moves;
    } else {
      assert (moves + [m])[1..] == moves[1..] + [m];
      OneMore(Do(g, moves[0]), moves[1..], m);
    }
  }

  // ---- what every run keeps ----

  /** Some copy of frame n is on the wire. */
  predicate OnWire(g: Link, n: nat) { exists e :: e in g.wire && e.seqNo == n }

  /** The peer applied and parked only what was written. */
  ghost predicate PeerFed(g: Link) {
    && Receiving.Consistent(g.peer)
    && g.wire <= g.w.copies
    && (forall k :: k in g.peer.buf ==> Entry(k, g.peer.buf[k]) in g.wire)
    && (forall n :: 1 <= n <= g.peer.acked ==> OnWire(g, n))
    && g.w.p.down.acked <= g.peer.acked
  }

  /** No copy carries a generation that was never pushed, and neither has the peer one. */
  ghost predicate NothingNewer(g: Link) {
    && (forall e :: e in g.w.copies && e.payload.frame.AudienceFrame? ==>
         e.payload.frame.state.gen <= LatestGen(g.w.p.latest))
    && g.told <= LatestGen(g.w.p.latest)
    && (g.w.p.audSeq != 0 ==> g.w.p.resend.None?)
  }

  ghost predicate LinkInv(g: Link) { AudienceInv(g.w) && PeerFed(g) && NothingNewer(g) }

  lemma PeerBelowNext(g: Link)
    requires LinkInv(g)
    ensures g.peer.acked <= g.w.p.down.next
  {
    if g.peer.acked > 0 {
      assert OnWire(g, g.peer.acked);
      var e :| e in g.wire && e.seqNo == g.peer.acked;
      assert CopyIsOld(g.w.p, e);
    }
  }

  lemma {:induction false} NewestIsMax(ready: seq<Payload>, told: nat, limit: nat)
    requires told <= limit
    requires forall i :: 0 <= i < |ready| && ready[i].frame.AudienceFrame? ==> ready[i].frame.state.gen <= limit
    ensures told <= Newest(ready, told) <= limit
    ensures forall i :: 0 <= i < |ready| && ready[i].frame.AudienceFrame? ==>
      ready[i].frame.state.gen <= Newest(ready, told)
  {
    if |ready| == 0 {
    } else {
      NewestIsMax(ready[1..],
                  if ready[0].frame.AudienceFrame? then Max(told, ready[0].frame.state.gen) else told, limit);
      forall i | 0 <= i < |ready| && ready[i].frame.AudienceFrame?
        ensures ready[i].frame.state.gen <= Newest(ready, told) {
        if i > 0 {
          assert ready[1..][i - 1] == ready[i];
        } else {
          NewestGrows(ready[1..], Max(told, ready[0].frame.state.gen));
        }
      }
    }
  }

  lemma {:induction false} NewestGrows(ready: seq<Payload>, told: nat)
    ensures Newest(ready, told) >= told
  {
    if |ready| == 0 {
    } else {
      NewestGrows(ready[1..], if ready[0].frame.AudienceFrame? then Max(told, ready[0].frame.state.gen) else told);
    }
  }

  /** What one delivery releases: each payload is the delivered one or a parked one. */
  lemma Released(r: Receiving.ReceiverState, e: Entry)
    requires Receiving.Consistent(r) && e.seqNo > 0
    ensures var a := Receiving.Offer(r, e.seqNo, e.payload);
            && Receiving.Consistent(a.after) && a.after.acked == r.acked + |a.ready|
            && (e.seqNo == r.acked + 1 ==> |a.ready| > 0)
            && (forall i :: 0 <= i < |a.ready| ==>
                  var n := r.acked + 1 + i;
                  (n == e.seqNo && a.ready[i] == e.payload) || (n in r.buf && a.ready[i] == r.buf[n]))
            && (forall k :: k in a.after.buf ==>
                 (k == e.seqNo && a.after.buf[k] == e.payload) || (k in r.buf && a.after.buf[k] == r.buf[k]))
  {
    Receiving.OfferKeeps(r, e.seqNo, e.payload);
    Receiving.RunBehindIsLongest(r.buf, e.seqNo);
  }

  /** Frame n reached the peer in some copy, whose generation, if it is an audience, the peer has. */
  predicate Applied(g: Link, n: nat) {
    exists e :: e in g.wire && e.seqNo == n && (e.payload.frame.AudienceFrame? ==> e.payload.frame.state.gen <= g.told)
  }

  lemma DeliveryTells(g: Link, e: Entry)
    requires LinkInv(g) && e in g.wire
    ensures var h := Do(g, Deliver(e));
            && Receiving.Consistent(h.peer) && h.peer.acked >= g.peer.acked
            && g.told <= h.told <= LatestGen(g.w.p.latest)
            && (forall n :: g.peer.acked < n <= h.peer.acked ==> Applied(h, n))
            && (forall k :: k in h.peer.buf ==> Entry(k, h.peer.buf[k]) in g.wire)
  {
    assert CopyIsOld(g.w.p, e);
    Released(g.peer, e);
    var h := Do(g, Deliver(e));
    var a := Receiving.Offer(g.peer, e.seqNo, e.payload);
    forall i | 0 <= i < |a.ready| ensures Entry(g.peer.acked + 1 + i, a.ready[i]) in g.wire {}
    forall i | 0 <= i < |a.ready| && a.ready[i].frame.AudienceFrame?
      ensures a.ready[i].frame.state.gen <= LatestGen(g.w.p.latest)
    {
      assert Entry(g.peer.acked + 1 + i, a.ready[i]) in g.w.copies;
    }
    NewestIsMax(a.ready, g.told, LatestGen(g.w.p.latest));
    forall n | g.peer.acked < n <= h.peer.acked ensures Applied(h, n) {
      assert Entry(n, a.ready[n - g.peer.acked - 1]) in h.wire;
    }
  }

  lemma DeliverKeepsLink(g: Link, e: Entry)
    requires LinkInv(g) && e in g.wire
    ensures LinkInv(Do(g, Deliver(e)))
  {
    DeliveryTells(g, e);
    var h := Do(g, Deliver(e));
    forall n | 1 <= n <= h.peer.acked ensures OnWire(h, n) {
      if n <= g.peer.acked {
        assert OnWire(g, n);
      } else {
        assert Applied(h, n);
      }
    }
  }

  lemma HubKeepsPeer(g: Link, step: Step)
    requires LinkInv(g) && Can(g, Hub(step))
    ensures PeerFed(Do(g, Hub(step)))
  {
    var h := Do(g, Hub(step));
    forall n | 1 <= n <= h.peer.acked ensures OnWire(h, n) {
      assert OnWire(g, n);
    }
    match step
    case Push(a, ack, size) => PushOutcome(g.w.p, a, ack, size, g.w.cap);
    case PushTaken(a, ack, size) => PushOutcome(g.w.p, a, ack, size, g.w.cap);
    case Ack(n) => AckKeeps(g.w.p.down, 0, n);
    case Resume(n) => AckKeeps(g.w.p.down, 0, n);
    case _ =>
  }

  lemma PushKeepsNewest(g: Link, a: Audience, ack: nat, size: nat)
    requires LinkInv(g) && ValidateAudience(a).None? && (a.gen in g.w.pushed ==> g.w.pushed[a.gen] == a)
    ensures NothingNewer(g.(w := AfterPush(g.w, a, ack, size)))
  {
    PushOutcome(g.w.p, a, ack, size, g.w.cap);
    PushKeepsAudience(g.w, a, ack, size);
  }

  lemma ReadKeepsNewest(g: Link, e: Entry)
    requires LinkInv(g) && e in g.w.p.down.log
    ensures NothingNewer(Do(g, Hub(ReadLog(e))))
  {
    if e.payload.frame.AudienceFrame? {
      LoggedIsNewest(g.w.p, e);
    }
  }

  lemma HubKeepsNewest(g: Link, step: Step)
    requires LinkInv(g) && Can(g, Hub(step))
    ensures NothingNewer(Do(g, Hub(step)))
  {
    match step
    case Push(a, ack, size) => PushKeepsNewest(g, a, ack, size);
    case PushTaken(a, ack, size) => PushKeepsNewest(g, a, ack, size);
    case ReadLog(e) => ReadKeepsNewest(g, e);
    case _ =>
  }

  lemma LoggedIsNewest(p: ProtoState, e: Entry)
    requires AudienceState(p) && e in p.down.log && e.payload.frame.AudienceFrame?
    ensures e.seqNo == p.audSeq && p.latest == Some(e.payload.frame.state)
  {}

  lemma MoveKeepsLink(g: Link, m: Move)
    requires LinkInv(g) && Can(g, m)
    ensures LinkInv(Do(g, m))
  {
    match m
    case Hub(step) =>
      StepKeepsAudience(g.w, step);
      HubKeepsPeer(g, step);
      HubKeepsNewest(g, step);
    case Deliver(e) => DeliverKeepsLink(g, e);
  }

  lemma {:induction false} RunKeepsLink(g: Link, moves: seq<Move>)
    requires LinkInv(g) && LegalMoves(g, moves)
    ensures LinkInv(RunMoves(g, moves))
    decreases |moves|
  {
    if |moves| == 0 {
    } else {
      MoveKeepsLink(g, moves[0]);
      RunKeepsLink(Do(g, moves[0]), moves[1..]);
    }
  }

  lemma StartInv(g: Link)
    requires LinkStart(g)
    ensures LinkInv(g)
  {}

  // ---- a rewrite no writer has read an older copy of ----

  /** Frame k carries the newest snapshot b wherever it is: in the log, in a writer's hands, on the
      wire, and at the peer once it is applied. */
  ghost predicate Settled(g: Link, k: nat, b: Audience) {
    && LinkInv(g) && g.w.p.latest == Some(b) && 1 <= k <= g.w.p.down.next
    && (forall e :: e in g.w.copies && e.seqNo == k ==> e.payload.frame == AudienceFrame(b))
    && (g.w.p.down.acked < k ==> g.w.p.audSeq == k)
    && (g.peer.acked >= k ==> g.told >= b.gen)
  }

  lemma DeliverStaysSettled(g: Link, e: Entry, k: nat, b: Audience)
    requires Settled(g, k, b) && e in g.wire
    ensures Settled(Do(g, Deliver(e)), k, b)
  {
    DeliverKeepsLink(g, e);
    DeliveryTells(g, e);
    var h := Do(g, Deliver(e));
    if g.peer.acked < k <= h.peer.acked {
      assert Applied(h, k);
    }
  }

  lemma ResendStaysSettled(g: Link, a: Audience, ack: nat, size: nat, k: nat, b: Audience)
    requires Settled(g, k, b) && a in g.w.inHand
    ensures Settled(Do(g, Hub(PushTaken(a, ack, size))), k, b)
  {
    MoveKeepsLink(g, Hub(PushTaken(a, ack, size)));
    PushOutcome(g.w.p, a, ack, size, g.w.cap);
  }

  lemma AckStaysSettled(g: Link, step: Step, k: nat, b: Audience)
    requires Settled(g, k, b) && Can(g, Hub(step)) && (step.Ack? || step.Resume?)
    ensures Settled(Do(g, Hub(step)), k, b)
  {
    MoveKeepsLink(g, Hub(step));
    AckKeeps(g.w.p.down, 0, step.n);
  }

  lemma ReadStaysSettled(g: Link, e: Entry, k: nat, b: Audience)
    requires Settled(g, k, b) && e in g.w.p.down.log
    ensures Settled(Do(g, Hub(ReadLog(e))), k, b)
  {
    MoveKeepsLink(g, Hub(ReadLog(e)));
    if e.payload.frame.AudienceFrame? {
      LoggedIsNewest(g.w.p, e);
    }
  }

  lemma OtherStepStaysSettled(g: Link, step: Step, k: nat, b: Audience)
    requires Settled(g, k, b) && Can(g, Hub(step))
    requires !step.Push? && !step.PushTaken? && !step.Ack? && !step.Resume? && !step.ReadLog?
    ensures Settled(Do(g, Hub(step)), k, b)
  {
    MoveKeepsLink(g, Hub(step));
  }

  lemma HubStaysSettled(g: Link, step: Step, k: nat, b: Audience)
    requires Settled(g, k, b) && Can(g, Hub(step)) && !step.Push?
    ensures Settled(Do(g, Hub(step)), k, b)
  {
    match step
    case PushTaken(a, ack, size) => ResendStaysSettled(g, a, ack, size, k, b);
    case Ack(n) => AckStaysSettled(g, step, k, b);
    case Resume(n) => AckStaysSettled(g, step, k, b);
    case ReadLog(e) => ReadStaysSettled(g, e, k, b);
    case _ => OtherStepStaysSettled(g, step, k, b);
  }

  /** Only the push of a new snapshot is left out: resends, dispatches, writers, acks, resumes and
      deliveries may go on. */
  predicate Quiet(moves: seq<Move>) { forall i :: 0 <= i < |moves| ==> !(moves[i].Hub? && moves[i].step.Push?) }

  lemma {:induction false} QuietRunStaysSettled(g: Link, moves: seq<Move>, k: nat, b: Audience)
    requires Settled(g, k, b) && Quiet(moves) && LegalMoves(g, moves)
    ensures Settled(RunMoves(g, moves), k, b)
    decreases |moves|
  {
    if |moves| == 0 {
    } else {
      match moves[0] {
        case Hub(step) => HubStaysSettled(g, step, k, b);
        case Deliver(e) => DeliverStaysSettled(g, e, k, b);
      }
      QuietRunStaysSettled(Do(g, moves[0]), moves[1..], k, b);
    }
  }

  /** The hub has nothing more to send: every frame is acked, and no resend is queued or in hand. */
  predicate Drained(g: Link) {
    |g.w.p.down.log| == 0 && g.w.p.resend.None? && g.w.p.latest.Some? && g.w.p.latest.value !in g.w.inHand
  }

  // ---- a rewrite some writer has read an older copy of ----

  /** A push that is folded into the unacked audience frame. */
  predicate Rewrites(g: Link, b: Audience) { Newer(g, b) && g.w.p.audSeq != 0 }

  /** A snapshot newer than any pushed before. */
  predicate Newer(g: Link, b: Audience) { ValidateAudience(b).None? && b.gen > LatestGen(g.w.p.latest) }

  /** A writer has read an earlier payload of the frame the push is folded into. */
  predicate OlderCopyRead(g: Link) { exists e :: e in g.w.copies && e.seqNo == g.w.p.audSeq }

  /** Frame k was rewritten and written with snapshot b, and an older copy o of it too, while the
      peer has met nothing of b's generation. */
  ghost predicate Racing(g: Link, k: nat, b: Audience, o: Entry) {
    && LinkInv(g) && g.w.p.latest == Some(b) && g.w.p.audSeq == k && g.w.p.audGen == b.gen == g.w.p.audSentGen
    && b !in g.w.inHand
    && o in g.wire && o.seqNo == k && Stale(o.payload, b)
    && g.told < b.gen
    && (forall j :: j in g.peer.buf ==> Stale(g.peer.buf[j], b))
  }

  predicate Stale(p: Payload, b: Audience) { p.frame.AudienceFrame? ==> p.frame.state.gen < b.gen }

  /** Delivering a stale payload leaves the peer without b. */
  lemma StaleDelivery(g: Link, k: nat, b: Audience, o: Entry, e: Entry)
    requires Racing(g, k, b, o) && e in g.wire && e.seqNo == g.peer.acked + 1 && Stale(e.payload, b)
    ensures Racing(Do(g, Deliver(e)), k, b, o) && Do(g, Deliver(e)).peer.acked > g.peer.acked
  {
    DeliverKeepsLink(g, e);
    Released(g.peer, e);
    var a := Receiving.Offer(g.peer, e.seqNo, e.payload);
    NewestIsMax(a.ready, g.told, b.gen - 1);
  }

  lemma OtherFrameRead(g: Link, k: nat, b: Audience, o: Entry, e: Entry)
    requires Racing(g, k, b, o) && e in g.w.p.down.log && e.seqNo != k
    ensures !e.payload.frame.AudienceFrame? && Racing(Do(g, Hub(ReadLog(e))), k, b, o)
  {
    MoveKeepsLink(g, Hub(ReadLog(e)));
  }

  lemma OtherFrameWritten(g: Link, k: nat, b: Audience, o: Entry, e: Entry)
    requires Racing(g, k, b, o) && e in g.w.copies && e.seqNo != k
    ensures Racing(Do(g, Hub(Write(e))), k, b, o)
  {
    MoveKeepsLink(g, Hub(Write(e)));
  }

  /** A run without a push that ends in the race. */
  ghost predicate RacingRun(start: Link, moves: seq<Move>, k: nat, b: Audience, o: Entry) {
    LegalMoves(start, moves) && Quiet(moves) && Racing(RunMoves(start, moves), k, b, o)
  }

  lemma QuietMore(moves: seq<Move>, m: Move)
    requires Quiet(moves) && !(m.Hub? && m.step.Push?)
    ensures Quiet(moves + [m])
  {}

  lemma ReadAndWrite(start: Link, moves: seq<Move>, e: Entry) returns (more: seq<Move>)
    requires LegalMoves(start, moves) && e in RunMoves(start, moves).w.p.down.log
    ensures LegalMoves(start, more) && (Quiet(moves) ==> Quiet(more))
    ensures Can(Do(RunMoves(start, moves), Hub(ReadLog(e))), Hub(Write(e)))
    ensures RunMoves(start, more) == Do(Do(RunMoves(start, moves), Hub(ReadLog(e))), Hub(Write(e)))
  {
    OneMore(start, moves, Hub(ReadLog(e)));
    more := moves + [Hub(ReadLog(e))];
    OneMore(start, more, Hub(Write(e)));
    more := more + [Hub(Write(e))];
  }

  lemma WriteOther(start: Link, moves: seq<Move>, k: nat, b: Audience, o: Entry, e: Entry) returns (more: seq<Move>)
    requires RacingRun(start, moves, k, b, o) && e in RunMoves(start, moves).w.p.down.log && e.seqNo != k
    ensures RacingRun(start, more, k, b, o)
    ensures var g, h := RunMoves(start, moves), RunMoves(start, more);
            SameDown(g, h) && h.peer == g.peer && e in h.wire && Stale(e.payload, b)
  {
    var g := RunMoves(start, moves);
    OtherFrameRead(g, k, b, o, e);
    OtherFrameWritten(Do(g, Hub(ReadLog(e))), k, b, o, e);
    more := ReadAndWrite(start, moves, e);
  }

  predicate SameDown(g: Link, h: Link) { h.w.p.down == g.w.p.down }

  lemma DeliverStale(start: Link, moves: seq<Move>, k: nat, b: Audience, o: Entry, e: Entry) returns (more: seq<Move>)
    requires RacingRun(start, moves, k, b, o)
    requires var g := RunMoves(start, moves); e in g.wire && e.seqNo == g.peer.acked + 1 && Stale(e.payload, b)
    ensures RacingRun(start, more, k, b, o)
    ensures var g, h := RunMoves(start, moves), RunMoves(start, more); SameDown(g, h) && h.peer.acked > g.peer.acked
  {
    StaleDelivery(RunMoves(start, moves), k, b, o, e);
    OneMore(start, moves, Deliver(e));
    QuietMore(moves, Deliver(e));
    more := moves + [Deliver(e)];
  }

  lemma NextInLog(g: Link) returns (e: Entry)
    requires LinkInv(g) && g.peer.acked < g.w.p.down.next
    ensures e in g.w.p.down.log && e.seqNo == g.peer.acked + 1
  {
    e := g.w.p.down.log[g.peer.acked - g.w.p.down.acked];
  }

  /** The frame the peer lacks next can be delivered without b: the older copy, or a frame of
      another kind. */
  lemma OneFrameOn(start: Link, moves: seq<Move>, k: nat, b: Audience, o: Entry) returns (more: seq<Move>)
    requires RacingRun(start, moves, k, b, o)
    requires RunMoves(start, moves).peer.acked < RunMoves(start, moves).w.p.down.next
    ensures RacingRun(start, more, k, b, o)
    ensures SameDown(RunMoves(start, moves), RunMoves(start, more))
    ensures RunMoves(start, more).peer.acked > RunMoves(start, moves).peer.acked
  {
    var g := RunMoves(start, moves);
    if g.peer.acked + 1 == k {
      more := DeliverStale(start, moves, k, b, o, o);
    } else {
      var e := NextInLog(g);
      more := WriteOther(start, moves, k, b, o, e);
      more := DeliverStale(start, more, k, b, o, e);
    }
  }

  /** So the peer can reach the end of the log without b, and its ack then drains the hub. */
  lemma StaleEnding(start: Link, moves: seq<Move>, k: nat, b: Audience, o: Entry) returns (more: seq<Move>)
    requires RacingRun(start, moves, k, b, o)
    ensures LegalMoves(start, more) && Quiet(more)
    ensures Drained(RunMoves(start, more)) && RunMoves(start, more).told < b.gen
  {
    more := moves;
    var next := RunMoves(start, moves).w.p.down.next;
    while RunMoves(start, more).peer.acked < next
      invariant RacingRun(start, more, k, b, o) && RunMoves(start, more).w.p.down.next == next
      decreases next - RunMoves(start, more).peer.acked
    {
      more := OneFrameOn(start, more, k, b, o);
    }
    AckDrains(RunMoves(start, more), k, b, o);
    OneMore(start, more, Hub(Ack(next)));
    QuietMore(more, Hub(Ack(next)));
    more := more + [Hub(Ack(next))];
  }

  lemma AckDrains(g: Link, k: nat, b: Audience, o: Entry)
    requires Racing(g, k, b, o) && g.peer.acked >= g.w.p.down.next
    ensures Can(g, Hub(Ack(g.w.p.down.next)))
    ensures Drained(Do(g, Hub(Ack(g.w.p.down.next)))) && Do(g, Hub(Ack(g.w.p.down.next))).told < b.gen
  {
    AckKeeps(g.w.p.down, 0, g.w.p.down.next);
  }

  /** The push of a newer snapshot leaves one live frame with it: the frame there was, or a new one
      whose number no writer and no peer has met. */
  lemma NewerStarts(g: Link, b: Audience, ack: nat, size: nat)
    requires LinkInv(g) && Newer(g, b)
    ensures Can(g, Hub(Push(b, ack, size))) && LinkInv(Do(g, Hub(Push(b, ack, size))))
    ensures var h := Do(g, Hub(Push(b, ack, size)));
            && Live(h, b) && h.w.copies == g.w.copies && h.wire == g.wire && h.peer == g.peer && h.told == g.told
            && h.w.p.audSeq == (if g.w.p.audSeq != 0 then g.w.p.audSeq else g.w.p.down.next + 1)
  {
    assert b.gen !in g.w.pushed;
    MoveKeepsLink(g, Hub(Push(b, ack, size)));
    PushOutcome(g.w.p, b, ack, size, g.w.cap);
  }

  /** Snapshot b is the newest, in the live audience frame, and nobody holds it as a resend. */
  ghost predicate Live(h: Link, b: Audience) {
    && h.w.p.latest == Some(b) && h.w.p.audGen == b.gen && b !in h.w.inHand && h.w.p.resend.None?
    && h.w.p.down.acked < h.w.p.audSeq <= h.w.p.down.next
  }

  /** The new payload was written, and the older copy has yet to be. */
  ghost predicate Ready(h: Link, k: nat, b: Audience, o: Entry) {
    && LinkInv(h) && h.w.p.latest == Some(b) && h.w.p.audSeq == k != 0 && h.w.p.audGen == b.gen
    && b !in h.w.inHand && h.told < b.gen
    && o in h.w.copies && o.seqNo == k && Stale(o.payload, b)
    && (forall j :: j in h.peer.buf ==> Stale(h.peer.buf[j], b))
  }

  lemma NewPayloadRead(h: Link, k: nat, b: Audience, o: Entry, e: Entry)
    requires Ready(h, k, b, o) && e == h.w.p.down.log[k - h.w.p.down.acked - 1]
    ensures e.seqNo == k && e in h.w.p.down.log && e.payload.frame == AudienceFrame(b)
    ensures Ready(Do(h, Hub(ReadLog(e))), k, b, o)
  {
    MoveKeepsLink(h, Hub(ReadLog(e)));
  }

  lemma NewPayloadWritten(h: Link, k: nat, b: Audience, o: Entry, e: Entry)
    requires Ready(h, k, b, o) && e in h.w.copies && e.seqNo == k && e.payload.frame == AudienceFrame(b)
    ensures Ready(Do(h, Hub(Write(e))), k, b, o) && Do(h, Hub(Write(e))).w.p.audSentGen == b.gen
  {
    MoveKeepsLink(h, Hub(Write(e)));
  }

  lemma OldCopyWritten(h: Link, k: nat, b: Audience, o: Entry)
    requires Ready(h, k, b, o) && h.w.p.audSentGen == b.gen
    ensures Racing(Do(h, Hub(Write(o))), k, b, o)
  {
    MoveKeepsLink(h, Hub(Write(o)));
  }

  lemma NewPayloadGoesFirst(start: Link, moves: seq<Move>, k: nat, b: Audience, o: Entry) returns (more: seq<Move>)
    requires LegalMoves(start, moves) && Quiet(moves) && Ready(RunMoves(start, moves), k, b, o)
    ensures LegalMoves(start, more) && Quiet(more)
    ensures Ready(RunMoves(start, more), k, b, o) && RunMoves(start, more).w.p.audSentGen == b.gen
  {
    var h := RunMoves(start, moves);
    var e := h.w.p.down.log[k - h.w.p.down.acked - 1];
    NewPayloadRead(h, k, b, o, e);
    NewPayloadWritten(Do(h, Hub(ReadLog(e))), k, b, o, e);
    more := ReadAndWrite(start, moves, e);
  }

  /** The race begins: the new payload is read and written, and then the older copy. */
  lemma RaceStarts(start: Link, moves: seq<Move>, k: nat, b: Audience, o: Entry) returns (more: seq<Move>)
    requires LegalMoves(start, moves) && Quiet(moves) && Ready(RunMoves(start, moves), k, b, o)
    ensures RacingRun(start, more, k, b, o)
  {
    more := NewPayloadGoesFirst(start, moves, k, b, o);
    OldCopyWritten(RunMoves(start, more), k, b, o);
    OneMore(start, more, Hub(Write(o)));
    QuietMore(more, Hub(Write(o)));
    more := more + [Hub(Write(o))];
  }

  /** Everything the peer holds is older than a rewrite that is still to come. */
  lemma OldBeforeRewrite(g: Link, b: Audience)
    requires LinkInv(g) && Rewrites(g, b)
    ensures g.told < b.gen
    ensures forall e :: e in g.w.copies ==> Stale(e.payload, b)
    ensures forall j :: j in g.peer.buf ==> Stale(g.peer.buf[j], b)
  {
    forall j | j in g.peer.buf ensures Stale(g.peer.buf[j], b) {
      assert Entry(j, g.peer.buf[j]) in g.w.copies;
    }
  }

  /** Every continuation that drains leaves the peer on snapshot b. */
  ghost predicate AlwaysTold(h: Link, b: Audience) {
    forall moves :: LegalMoves(h, moves) && Quiet(moves) && Drained(RunMoves(h, moves)) ==>
      RunMoves(h, moves).told == b.gen
  }

  lemma CleanRewriteIsTold(g: Link, b: Audience, ack: nat, size: nat)
    requires LinkInv(g) && Rewrites(g, b) && !OlderCopyRead(g)
    ensures Can(g, Hub(Push(b, ack, size))) && AlwaysTold(Do(g, Hub(Push(b, ack, size))), b)
  {
    NewerStarts(g, b, ack, size);
    var k, h := g.w.p.audSeq, Do(g, Hub(Push(b, ack, size)));
    assert OnWire(g, k) || g.peer.acked < k;
    assert Settled(h, k, b);
    forall moves | LegalMoves(h, moves) && Quiet(moves) && Drained(RunMoves(h, moves))
      ensures RunMoves(h, moves).told == b.gen {
      QuietRunStaysSettled(h, moves, k, b);
    }
  }

  lemma DirtyRewriteMayNotBeTold(g: Link, b: Audience, ack: nat, size: nat) returns (moves: seq<Move>)
    requires LinkInv(g) && Rewrites(g, b) && OlderCopyRead(g)
    ensures Can(g, Hub(Push(b, ack, size)))
    ensures var h := Do(g, Hub(Push(b, ack, size)));
            LegalMoves(h, moves) && Quiet(moves) && Drained(RunMoves(h, moves)) && RunMoves(h, moves).told < b.gen
  {
    var o :| o in g.w.copies && o.seqNo == g.w.p.audSeq;
    NewerStarts(g, b, ack, size);
    OldBeforeRewrite(g, b);
    var h := Do(g, Hub(Push(b, ack, size)));
    moves := [];
    moves := RaceStarts(h, moves, g.w.p.audSeq, b, o);
    moves := StaleEnding(h, moves, g.w.p.audSeq, b, o);
  }

  // ---- every newer push ----

  lemma AppendedIsTold(g: Link, b: Audience, ack: nat, size: nat)
    requires LinkInv(g) && Newer(g, b) && g.w.p.audSeq == 0
    ensures Can(g, Hub(Push(b, ack, size))) && AlwaysTold(Do(g, Hub(Push(b, ack, size))), b)
  {
    NewerStarts(g, b, ack, size);
    PeerBelowNext(g);
    var k, h := g.w.p.down.next + 1, Do(g, Hub(Push(b, ack, size)));
    forall e | e in h.w.copies ensures e.seqNo != k {
      assert CopyIsOld(g.w.p, e);
    }
    assert Settled(h, k, b);
    forall moves | LegalMoves(h, moves) && Quiet(moves) && Drained(RunMoves(h, moves))
      ensures RunMoves(h, moves).told == b.gen {
      QuietRunStaysSettled(h, moves, k, b);
    }
  }

  // ---- the hub can drain ----

  /** The live frame with b was written, so that its ack will queue no resend. */
  ghost predicate Draining(g: Link, b: Audience) { LinkInv(g) && Live(g, b) && g.w.p.audSentGen == b.gen }

  ghost predicate DrainingRun(start: Link, moves: seq<Move>, b: Audience) {
    LegalMoves(start, moves) && Quiet(moves) && Draining(RunMoves(start, moves), b)
  }

  lemma ReadKeepsLive(g: Link, b: Audience, e: Entry)
    requires LinkInv(g) && Live(g, b) && e in g.w.p.down.log
    ensures LinkInv(Do(g, Hub(ReadLog(e)))) && Live(Do(g, Hub(ReadLog(e))), b)
  {
    MoveKeepsLink(g, Hub(ReadLog(e)));
  }

  lemma WriteKeepsLive(g: Link, b: Audience, e: Entry)
    requires LinkInv(g) && Live(g, b) && e in g.w.copies
    ensures LinkInv(Do(g, Hub(Write(e)))) && Live(Do(g, Hub(Write(e))), b)
    ensures Do(g, Hub(Write(e))).w.p.audSentGen >= g.w.p.audSentGen
    ensures e.seqNo == g.w.p.audSeq && e.payload.frame == AudienceFrame(b) ==>
      Do(g, Hub(Write(e))).w.p.audSentGen == b.gen
  {
    MoveKeepsLink(g, Hub(Write(e)));
  }

  lemma WrittenDrains(g: Link, b: Audience, e: Entry)
    requires LinkInv(g) && Live(g, b) && e in g.w.p.down.log
    requires e.payload.frame == AudienceFrame(b) || g.w.p.audSentGen == b.gen
    ensures var h := Do(Do(g, Hub(ReadLog(e))), Hub(Write(e)));
            Draining(h, b) && SameDown(g, h) && h.peer == g.peer && e in h.wire
  {
    if e.payload.frame == AudienceFrame(b) {
      LoggedIsNewest(g.w.p, e);
    }
    ReadKeepsLive(g, b, e);
    WriteOfRead(Do(g, Hub(ReadLog(e))), b, e);
  }

  lemma WriteOfRead(g: Link, b: Audience, e: Entry)
    requires LinkInv(g) && Live(g, b) && e in g.w.copies
    requires (e.seqNo == g.w.p.audSeq && e.payload.frame == AudienceFrame(b)) || g.w.p.audSentGen == b.gen
    ensures var h := Do(g, Hub(Write(e))); Draining(h, b) && SameDown(g, h) && h.peer == g.peer && e in h.wire
  {
    WriteKeepsLive(g, b, e);
  }

  lemma WriteDraining(start: Link, moves: seq<Move>, b: Audience, e: Entry) returns (more: seq<Move>)
    requires LegalMoves(start, moves) && Quiet(moves) && e in RunMoves(start, moves).w.p.down.log
    requires var g := RunMoves(start, moves);
             LinkInv(g) && Live(g, b) && (e.payload.frame == AudienceFrame(b) || g.w.p.audSentGen == b.gen)
    ensures DrainingRun(start, more, b)
    ensures var g, h := RunMoves(start, moves), RunMoves(start, more); SameDown(g, h) && h.peer == g.peer && e in h.wire
  {
    WrittenDrains(RunMoves(start, moves), b, e);
    more := ReadAndWrite(start, moves, e);
  }

  lemma DeliverDraining(start: Link, moves: seq<Move>, b: Audience, e: Entry) returns (more: seq<Move>)
    requires DrainingRun(start, moves, b)
    requires var g := RunMoves(start, moves); e in g.wire && e.seqNo == g.peer.acked + 1
    ensures DrainingRun(start, more, b)
    ensures var g, h := RunMoves(start, moves), RunMoves(start, more); SameDown(g, h) && h.peer.acked > g.peer.acked
  {
    var g := RunMoves(start, moves);
    DeliverKeepsLink(g, e);
    Released(g.peer, e);
    OneMore(start, moves, Deliver(e));
    QuietMore(moves, Deliver(e));
    more := moves + [Deliver(e)];
  }

  lemma DrainAcked(g: Link, b: Audience)
    requires Draining(g, b) && g.peer.acked >= g.w.p.down.next
    ensures Can(g, Hub(Ack(g.w.p.down.next))) && Drained(Do(g, Hub(Ack(g.w.p.down.next))))
  {
    AckKeeps(g.w.p.down, 0, g.w.p.down.next);
  }

  lemma FirstWritten(h: Link, b: Audience) returns (moves: seq<Move>)
    requires LinkInv(h) && Live(h, b)
    ensures DrainingRun(h, moves, b) && SameDown(h, RunMoves(h, moves))
  {
    var e := h.w.p.down.log[h.w.p.audSeq - h.w.p.down.acked - 1];
    moves := [];
    moves := WriteDraining(h, moves, b, e);
  }

  /** A continuation with nothing left to send: everything is written once, delivered in order and
      acked. */
  lemma CanDrain(h: Link, b: Audience) returns (moves: seq<Move>)
    requires LinkInv(h) && Live(h, b)
    ensures LegalMoves(h, moves) && Quiet(moves) && Drained(RunMoves(h, moves))
  {
    moves := FirstWritten(h, b);
    var next := h.w.p.down.next;
    while RunMoves(h, moves).peer.acked < next
      invariant DrainingRun(h, moves, b) && RunMoves(h, moves).w.p.down.next == next
      decreases next - RunMoves(h, moves).peer.acked
    {
      var e := NextInLog(RunMoves(h, moves));
      moves := WriteDraining(h, moves, b, e);
      moves := DeliverDraining(h, moves, b, e);
    }
    DrainAcked(RunMoves(h, moves), b);
    OneMore(h, moves, Hub(Ack(next)));
    QuietMore(moves, Hub(Ack(next)));
    moves := moves + [Hub(Ack(next))];
  }

  /** Some continuation without a push drains the hub. */
  ghost predicate Drainable(h: Link) {
    exists moves :: LegalMoves(h, moves) && Quiet(moves) && Drained(RunMoves(h, moves))
  }

  /** When a newer snapshot is pushed, in any reachable state, every continuation without a further
      push in which the hub has nothing left to send leaves the peer on that snapshot, if and only
      if no writer had read an older payload of the frame the push goes into. A push that opens a
      frame of its own always reaches the peer; and there always is such a continuation. */
  lemma NewerIsToldExactlyWhen(start: Link, moves: seq<Move>, b: Audience, ack: nat, size: nat)
    requires LinkStart(start) && LegalMoves(start, moves) && Newer(RunMoves(start, moves), b)
    ensures var g := RunMoves(start, moves);
            && Can(g, Hub(Push(b, ack, size)))
            && Drainable(Do(g, Hub(Push(b, ack, size))))
            && (AlwaysTold(Do(g, Hub(Push(b, ack, size))), b) <==> !OlderCopyRead(g))
            && (g.w.p.audSeq == 0 ==> !OlderCopyRead(g))
  {
    StartInv(start);
    RunKeepsLink(start, moves);
    var g := RunMoves(start, moves);
    NewerStarts(g, b, ack, size);
    var some := CanDrain(Do(g, Hub(Push(b, ack, size))), b);
    if g.w.p.audSeq == 0 {
      AppendedIsTold(g, b, ack, size);
      forall e | e in g.w.copies ensures e.seqNo != 0 {
        assert CopyIsOld(g.w.p, e);
      }
    } else if OlderCopyRead(g) {
      var more := DirtyRewriteMayNotBeTold(g, b, ack, size);
    } else {
      CleanRewriteIsTold(g, b, ack, size);
    }
  }

  /** Frame 1 carries snapshot a and is all there is. */
  predicate OnlyFrame(g: Link, a: Audience) {
    && g.w.p.down.log == [Entry(1, AudiencePayload(a, 0, 0))] && g.w.p.down.acked == 0 && g.w.p.down.next == 1
    && g.w.p.audSeq == 1 && g.w.p.audGen == a.gen && g.w.p.latest == Some(a) && g.w.p.resend.None?
    && g.w.inHand == {} && |g.peer.buf| == 0
  }

  lemma FirstPush(g: Link, a: Audience)
    requires LinkStart(g) && ValidateAudience(a).None?
    ensures Can(g, Hub(Push(a, 0, 0))) && OnlyFrame(Do(g, Hub(Push(a, 0, 0))), a)
    ensures Do(g, Hub(Push(a, 0, 0))).peer == g.peer
  {
    assert g.w.p.down.log + [Entry(1, AudiencePayload(a, 0, 0))] == [Entry(1, AudiencePayload(a, 0, 0))];
  }

  lemma SecondPush(g: Link, a: Audience, b: Audience)
    requires LinkInv(g) && OnlyFrame(g, a) && ValidateAudience(b).None? && a.gen < b.gen
    ensures Can(g, Hub(Push(b, 0, 0))) && OnlyFrame(Do(g, Hub(Push(b, 0, 0))), b)
    ensures Do(g, Hub(Push(b, 0, 0))) == g.(w := Do(g, Hub(Push(b, 0, 0))).w)
  {
    NewerStarts(g, b, 0, 0);
    PushOutcome(g.w.p, b, 0, 0, g.w.cap);
  }

  lemma OnlyFrameWritten(g: Link, a: Audience)
    requires LinkInv(g) && OnlyFrame(g, a)
    ensures var e := Entry(1, AudiencePayload(a, 0, 0));
            && Can(g, Hub(ReadLog(e))) && Can(Do(g, Hub(ReadLog(e))), Hub(Write(e)))
            && var h := Do(Do(g, Hub(ReadLog(e))), Hub(Write(e)));
               OnlyFrame(h, a) && e in h.wire && h.peer == g.peer && h.told == g.told && h.w.p.audSentGen == a.gen
  {
    assert g.w.p.down.log[0] == Entry(1, AudiencePayload(a, 0, 0));
  }

  lemma OnlyFrameDelivered(g: Link, a: Audience)
    requires LinkInv(g) && OnlyFrame(g, a) && g.peer.acked == g.told == 0
    requires Entry(1, AudiencePayload(a, 0, 0)) in g.wire
    ensures var h := Do(g, Deliver(Entry(1, AudiencePayload(a, 0, 0))));
            OnlyFrame(h, a) && h.peer.acked == 1 && h.told == a.gen && h.w == g.w
  {
    var o := Receiving.Offer(g.peer, 1, AudiencePayload(a, 0, 0));
    assert 2 !in g.peer.buf;
    assert o.ready == [AudiencePayload(a, 0, 0)];
    assert o.after.buf == g.peer.buf;
    assert o.ready[0].frame == AudienceFrame(a);
    NewestIsMax(o.ready, g.told, a.gen);
  }

  lemma OneMove(g: Link, m: Move)
    requires Can(g, m)
    ensures LegalMoves(g, [m]) && RunMoves(g, [m]) == Do(g, m)
  {
    assert |[m][1..]| == 0;
  }

  lemma FirstSnapshotTaken(start: Link, a: Audience) returns (moves: seq<Move>)
    requires LinkStart(start) && ValidateAudience(a).None?
    ensures LegalMoves(start, moves)
    ensures var g := RunMoves(start, moves); LinkInv(g) && OnlyFrame(g, a) && g.peer.acked == 1 && g.told == a.gen
  {
    var e := Entry(1, AudiencePayload(a, 0, 0));
    StartInv(start);
    FirstPush(start, a);
    OneMove(start, Hub(Push(a, 0, 0)));
    moves := [Hub(Push(a, 0, 0))];
    RunKeepsLink(start, moves);
    OnlyFrameWritten(RunMoves(start, moves), a);
    moves := ReadAndWrite(start, moves, e);
    RunKeepsLink(start, moves);
    OnlyFrameDelivered(RunMoves(start, moves), a);
    OneMore(start, moves, Deliver(e));
    moves := moves + [Deliver(e)];
    RunKeepsLink(start, moves);
  }

  lemma OnlyFrameAcked(g: Link, b: Audience)
    requires LinkInv(g) && OnlyFrame(g, b) && g.w.p.audSentGen == b.gen && g.peer.acked == 1
    ensures Can(g, Hub(Ack(1)))
    ensures var h := Do(g, Hub(Ack(1))); Drained(h) && h.w.p.latest == Some(b) && h.told == g.told
  {
    AckKeeps(g.w.p.down, 0, 1);
  }

  /** The shortest such run from a fresh start: the peer takes the first snapshot, the second is
      written under the same number, and the ack of the first leaves the hub with nothing to send
      and the peer on the first. */
  lemma StalePeerRun(start: Link, a: Audience, b: Audience) returns (moves: seq<Move>)
    requires LinkStart(start) && ValidateAudience(a).None? && ValidateAudience(b).None? && a.gen < b.gen
    ensures LegalMoves(start, moves)
    ensures var g := RunMoves(start, moves); Drained(g) && g.w.p.latest == Some(b) && g.told == a.gen
  {
    moves := FirstSnapshotTaken(start, a);
    moves := SecondSnapshotWritten(start, moves, a, b);
    OnlyFrameAcked(RunMoves(start, moves), b);
    OneMore(start, moves, Hub(Ack(1)));
    moves := moves + [Hub(Ack(1))];
  }

  lemma SecondSnapshotWritten(start: Link, moves: seq<Move>, a: Audience, b: Audience) returns (more: seq<Move>)
    requires LegalMoves(start, moves) && LinkInv(RunMoves(start, moves)) && OnlyFrame(RunMoves(start, moves), a)
    requires ValidateAudience(b).None? && a.gen < b.gen
    ensures LegalMoves(start, more)
    ensures var g, h := RunMoves(start, moves), RunMoves(start, more);
            LinkInv(h) && OnlyFrame(h, b) && h.w.p.audSentGen == b.gen && h.peer == g.peer && h.told == g.told
  {
    var g, e := RunMoves(start, moves), Entry(1, AudiencePayload(b, 0, 0));
    SecondPush(g, a, b);
    MoveKeepsLink(g, Hub(Push(b, 0, 0)));
    OneMore(start, moves, Hub(Push(b, 0, 0)));
    more := moves + [Hub(Push(b, 0, 0))];
    var h := RunMoves(start, more);
    OnlyFrameWritten(h, b);
    MoveKeepsLink(h, Hub(ReadLog(e)));
    MoveKeepsLink(Do(h, Hub(ReadLog(e))), Hub(Write(e)));
    more := ReadAndWrite(start, more, e);
  }

  /** The ack that covers the audience frame queues a resend exactly when its newest payload was
      not yet written in full. */
  lemma CoveringAckResendsExactlyWhen(g: Link, n: nat)
    requires LinkInv(g) && 0 < g.w.p.audSeq <= n
    ensures var q := AckedDown(g.w.p, n);
            && q.audSeq == 0
            && (q.resend.Some? <==> g.w.p.audSentGen < g.w.p.audGen)
            && (q.resend.Some? ==> q.resend == q.latest)
  {
    AckKeeps(g.w.p.down, 0, n);
  }
}
