/** Every run of one protocol state: pushes, dispatches, acks, writers that hold copies of
    entries, session loops that hold a taken resend, same-epoch resumes and the ack deadlines,
    interleaved in any order at the lock boundaries of internal/hub/session.go. */
module SessionRuns {
  import opened Wire
  import opened Validation
  import opened Sending
  import opened SessionProtocol
  import Receiving

  /** A request reported as never acked: when, for which frame, with which
      window, and the watermark at that moment. */
  datatype Report = Report(reqID: string, seqNo: nat, at: nat, window: nat, acked: nat)

  /** The state and, beside it, what happened to it.
      copies: entries a writer has read from the log; written: the number and time of every
      completed write; handed: the number and generation of every audience frame written in
      full; inHand: resends taken by a session loop and not pushed yet; pushed: the snapshot of
      every generation; delivered: generations whose frame an ack covered after it was handed
      over, with that frame's number; discarded: generations whose resend was dropped because
      the session ended or hello_ack carries the snapshot instead. */
  datatype World = World(
    p: ProtoState, cap: nat, defaultWindow: nat, now: nat,
    copies: set<Entry>, written: set<(nat, nat)>, handed: set<(nat, nat)>,
    inHand: set<Audience>, pushed: map<nat, Audience>,
    delivered: map<nat, nat>, discarded: set<nat>,
    issued: set<string>, reports: seq<Report>)

  datatype Step =
    | Push(a: Audience, ack: nat, size: nat)
    | Dispatch(f: Frame, ack: nat, size: nat, window: int)
    | ReadLog(e: Entry)
    | Write(e: Entry)
    | Ack(n: nat)
    | TakeResend
    | PushTaken(a: Audience, ack: nat, size: nat)
    | SessionEnds(a: Audience)
    | Resume(n: nat)
    | Tick(t: nat)
    | Expire(at: nat, order: seq<nat>)

  ghost predicate Start(w: World) {
    && IsFresh(w.p) && Consistent(w.p.down, 0)
    && w.copies == {} && w.written == {} && w.handed == {} && w.inHand == {} && w.pushed == map[]
    && w.delivered == map[] && w.discarded == {} && w.issued == {} && |w.reports| == 0
  }

  /** Snapshots are valid and a generation names one snapshot; request ids are fresh. */
  predicate Enabled(w: World, step: Step) {
    match step
    case Push(a, _, _) => ValidateAudience(a).None? && (a.gen in w.pushed ==> w.pushed[a.gen] == a)
    case Dispatch(f, _, _, _) => f.RequestFrame? && f.reqID !in w.issued
    case ReadLog(e) => e in w.p.down.log
    case Write(e) => e in w.copies
    case PushTaken(a, _, _) => a in w.inHand
    case SessionEnds(a) => a in w.inHand
    case Expire(at, order) => at <= w.now && Enumerates(order, ExpiredKeys(w.p.reqAcks, at))
    case Resume(n) => n > 0
    case Tick(t) => w.now <= t
    case _ => true
  }

  /** An ack that covers the audience frame with its newest payload already handed over. */
  predicate Completes(p: ProtoState, n: nat) {
    0 < p.audSeq <= Acknowledged(p.down, n).acked && p.audSentGen >= p.audGen
  }

  function AfterAck(w: World, n: nat): World {
    w.(p := AckedDown(w.p, n),
       delivered := if Completes(w.p, n) then w.delivered[w.p.audGen := w.p.audSeq] else w.delivered)
  }

  function AfterPush(w: World, a: Audience, ack: nat, size: nat): World {
    w.(p := PushedAudience(w.p, a, ack, size, w.cap).after, pushed := w.pushed[a.gen := a])
  }

  function ReportFor(p: ProtoState, k: nat, at: nat, default: nat): Report
    requires k in p.reqAcks
  {
    Report(p.reqAcks[k].reqID, k, at, Window(p.reqAcks[k], default), p.down.acked)
  }

  function Reports(p: ProtoState, at: nat, order: seq<nat>, default: nat): (out: seq<Report>)
    requires forall i :: 0 <= i < |order| ==> order[i] in p.reqAcks
    ensures |out| == |order|
    ensures forall i :: 0 <= i < |order| ==> out[i] == ReportFor(p, order[i], at, default)
  {
    seq(|order|, i requires 0 <= i < |order| => ReportFor(p, order[i], at, default))
  }

  function Apply(w: World, step: Step): World
    requires Enabled(w, step)
  {
    match step
    case Push(a, ack, size) => AfterPush(w, a, ack, size)
    case Dispatch(f, ack, size, window) =>
      w.(p := DispatchedRequest(w.p, f, ack, size, window, w.cap).after, issued := w.issued + {f.reqID})
    case ReadLog(e) => w.(copies := w.copies + {e})
    case Write(e) =>
      w.(p := NotedWritten(w.p, e, w.now, w.defaultWindow),
         written := w.written + {(e.seqNo, w.now)},
         handed := if e.payload.frame.AudienceFrame?
                   then w.handed + {(e.seqNo, e.payload.frame.state.gen)} else w.handed)
    case Ack(n) => AfterAck(w, n)
    case TakeResend =>
      w.(p := w.p.(resend := None), inHand := if w.p.resend.Some? then w.inHand + {w.p.resend.value} else w.inHand)
    case PushTaken(a, ack, size) => AfterPush(w, a, ack, size).(inHand := w.inHand - {a})
    case SessionEnds(a) => w.(inHand := w.inHand - {a}, discarded := w.discarded + {a.gen})
    case Resume(n) =>
      var v := AfterAck(w, n);
      v.(p := v.p.(resend := None),
         discarded := if v.p.resend.Some? then v.discarded + {v.p.resend.value.gen} else v.discarded)
    case Tick(t) => w.(now := t)
    case Expire(at, order) =>
      w.(p := WithoutExpired(w.p, at), reports := w.reports + Reports(w.p, at, order, w.defaultWindow))
  }

  predicate Legal(w: World, steps: seq<Step>)
    decreases |steps|
  {
    |steps| == 0 || (Enabled(w, steps[0]) && Legal(Apply(w, steps[0]), steps[1..]))
  }

  function Run(w: World, steps: seq<Step>): World
    requires Legal(w, steps)
    decreases |steps|
  {
    if |steps| == 0 then w else Run(Apply(w, steps[0]), steps[1..])
  }

  // ---- the audience frame ----

  /** The one live audience entry, when there is one, carries the newest snapshot. */
  predicate LiveEntry(p: ProtoState) {
    && (p.audSeq == 0 ==> p.audGen == 0 && p.audSentGen == 0)
    && (p.audSeq != 0 ==>
        && p.down.acked < p.audSeq <= p.down.next
        && p.latest.Some? && p.audGen == p.latest.value.gen && p.audSentGen <= p.audGen
        && |p.down.log| == p.down.next - p.down.acked
        && p.down.log[p.audSeq - p.down.acked - 1].payload.frame == AudienceFrame(p.latest.value))
  }

  predicate OnlyAudienceIsLive(p: ProtoState) {
    forall i :: 0 <= i < |p.down.log| && p.down.log[i].payload.frame.AudienceFrame? ==> p.down.log[i].seqNo == p.audSeq
  }

  predicate AudienceState(p: ProtoState) {
    Consistent(p.down, 0) && LiveEntry(p) && OnlyAudienceIsLive(p)
  }

  /** A copy in a writer's hands never carries a newer generation than its entry. */
  predicate CopyIsOld(p: ProtoState, e: Entry) {
    && 1 <= e.seqNo <= p.down.next
    && (e.payload.frame.AudienceFrame? && e.seqNo == p.audSeq ==> e.payload.frame.state.gen <= p.audGen)
  }

  predicate Handed(w: World) {
    && (forall e :: e in w.copies ==> CopyIsOld(w.p, e))
    && (w.p.audSeq != 0 && w.p.audSentGen > 0 ==> (w.p.audSeq, w.p.audSentGen) in w.handed)
    && (forall g :: g in w.delivered ==> (w.delivered[g], g) in w.handed && w.delivered[g] <= w.p.down.acked)
  }

  predicate Generations(w: World) {
    && (forall g :: g in w.pushed ==>
          w.pushed[g].gen == g && 1 <= g <= LatestGen(w.p.latest) && ValidateAudience(w.pushed[g]).None?)
    && (w.p.latest.Some? ==> w.p.latest.value.gen in w.pushed && w.pushed[w.p.latest.value.gen] == w.p.latest.value)
    && (w.p.resend.Some? ==> w.p.resend == w.p.latest)
    && (forall a :: a in w.inHand ==> a.gen in w.pushed && w.pushed[a.gen] == a)
  }

  /** The newest snapshot is somewhere. */
  predicate Held(w: World) {
    w.p.latest.Some? ==>
      || w.p.audSeq != 0
      || w.p.resend.Some?
      || w.p.latest.value in w.inHand
      || w.p.latest.value.gen in w.delivered
      || w.p.latest.value.gen in w.discarded
  }

  predicate AudienceInv(w: World) {
    AudienceState(w.p) && Handed(w) && Generations(w) && Held(w)
  }

  /** What an accepted push does: nothing for an older generation, otherwise the snapshot ends
      up in the one live entry: already there, folded into it, or appended. The branch for a
      vanished entry is never taken. */
  lemma PushOutcome(p: ProtoState, a: Audience, ack: nat, size: nat, cap: nat)
    requires AudienceState(p) && ValidateAudience(a).None?
    requires p.latest.Some? && p.latest.value.gen == a.gen ==> p.latest.value == a
    ensures var q := PushedAudience(p, a, ack, size, cap).after;
            var pl := AudiencePayload(a, ack, size);
            if a.gen < LatestGen(p.latest) then q == p
            else if p.audSeq == 0 then q == WithAudienceAppended(p.(latest := Some(a), resend := None), a, pl)
            else if a.gen == p.audGen then q == p.(latest := Some(a), resend := None)
            else q == p.(latest := Some(a), resend := None, audGen := a.gen,
                         down := ElidedAt(p.down, p.audSeq - p.down.acked - 1, pl))
  {
    FindInRun(p.down.log, p.down.acked, p.audSeq);
  }

  /** What a push reports. The number is that of the one audience entry, which carries the
      snapshot; replaced means that an entry got another payload and no entry was added; the
      overflow error that the log changed and is over the cap. An older generation is told
      nothing. */
  lemma PushReports(p: ProtoState, a: Audience, ack: nat, size: nat, cap: nat)
    requires AudienceState(p) && ValidateAudience(a).None?
    requires p.latest.Some? && p.latest.value.gen == a.gen ==> p.latest.value == a
    ensures var r := PushedAudience(p, a, ack, size, cap);
            var log := r.after.down.log;
            && (if a.gen < LatestGen(p.latest) then r.seqNo == 0 else Holds(log, r.seqNo, AudienceFrame(a)))
            && (r.replaced <==> |log| == |p.down.log| && log != p.down.log && r.after.down.bytes <= cap)
            && (r.err == Some(DownOverflow) <==> log != p.down.log && r.after.down.bytes > cap)
            && (r.err.Some? ==> r.err == Some(DownOverflow))
  {
    PushOutcome(p, a, ack, size, cap);
    PushKeepsState(p, a, ack, size, cap);
    var q := PushedAudience(p, a, ack, size, cap).after;
    if a.gen >= LatestGen(p.latest) {
      assert q.down.log[q.audSeq - q.down.acked - 1].payload.frame == AudienceFrame(a);
    }
    if p.audSeq != 0 {
      assert p.down.log[p.audSeq - p.down.acked - 1].payload.frame == AudienceFrame(p.latest.value);
    }
    FindInRun(p.down.log, p.down.acked, p.audSeq);
  }

  /** A snapshot that is not valid changes nothing of what is sent, whatever its generation; a newer
      one is told why. */
  lemma InvalidPushIsRefused(p: ProtoState, a: Audience, ack: nat, size: nat, cap: nat)
    requires AudienceState(p) && ValidateAudience(a).Some?
    ensures var r := PushedAudience(p, a, ack, size, cap);
            && r.after.down == p.down && r.after.audSeq == p.audSeq && !r.replaced
            && (p.latest.None? || a.gen > LatestGen(p.latest) ==>
                  r.seqNo == 0 && r.err == Some(BadFrame(ValidateAudience(a).value)))
  {}

  /** The log has an entry of that number and frame. */
  predicate Holds(log: seq<Entry>, seqNo: nat, frame: Frame) {
    exists i :: 0 <= i < |log| && log[i].seqNo == seqNo && log[i].payload.frame == frame
  }

  /** What a dispatch reports: the number of the one entry it added, which carries the request, or
      why the frame was refused; and the overflow error exactly when the log is over the cap. */
  lemma DispatchReports(p: ProtoState, f: Frame, ack: nat, size: nat, window: int, cap: nat)
    requires AudienceState(p) && f.RequestFrame?
    ensures var r := DispatchedRequest(p, f, ack, size, window, cap);
            var log := r.after.down.log;
            if f.reqID == "" || f.path == "" || f.verb == "" then r.after == p && r.err.Some? && r.err.value.BadFrame?
            else
              && |log| == |p.down.log| + 1 && log[..|p.down.log|] == p.down.log
              && log[|p.down.log|] == Entry(r.seqNo, Payload(f, ack, size)) && r.seqNo == p.down.next + 1
              && (if r.after.down.bytes > cap then r.err == Some(DownOverflow) else r.err.None?)
  {
    AppendKeeps(p.down, 0, Payload(f, ack, size));
  }

  lemma PushKeepsState(p: ProtoState, a: Audience, ack: nat, size: nat, cap: nat)
    requires AudienceState(p) && ValidateAudience(a).None?
    requires p.latest.Some? && p.latest.value.gen == a.gen ==> p.latest.value == a
    ensures AudienceState(PushedAudience(p, a, ack, size, cap).after)
  {
    PushOutcome(p, a, ack, size, cap);
    AppendKeeps(p.down, 0, AudiencePayload(a, ack, size));
    if p.audSeq != 0 {
      ElideKeeps(p.down, 0, p.audSeq - p.down.acked - 1, AudiencePayload(a, ack, size));
    }
  }

  lemma AckKeepsState(p: ProtoState, n: nat)
    requires AudienceState(p)
    ensures AudienceState(AckedDown(p, n))
    ensures AckedDown(p, n).down.acked >= p.down.acked
  {
    AckKeeps(p.down, 0, n);
    AckCuts(p.down, 0, n);
  }

  lemma PushKeepsAudience(w: World, a: Audience, ack: nat, size: nat)
    requires AudienceInv(w) && ValidateAudience(a).None? && (a.gen in w.pushed ==> w.pushed[a.gen] == a)
    ensures AudienceInv(AfterPush(w, a, ack, size))
    ensures AfterPush(w, a, ack, size).p.latest.value.gen == Max(LatestGen(w.p.latest), a.gen)
    ensures a.gen >= LatestGen(w.p.latest) ==> AfterPush(w, a, ack, size).p.audSeq != 0
  {
    PushOutcome(w.p, a, ack, size, w.cap);
    PushKeepsState(w.p, a, ack, size, w.cap);
    PushKeepsHanded(w, a, ack, size);
  }

  lemma PushKeepsHanded(w: World, a: Audience, ack: nat, size: nat)
    requires AudienceInv(w) && ValidateAudience(a).None? && (a.gen in w.pushed ==> w.pushed[a.gen] == a)
    ensures Handed(AfterPush(w, a, ack, size))
  {
    PushOutcome(w.p, a, ack, size, w.cap);
    var v := AfterPush(w, a, ack, size);
    forall e | e in v.copies ensures CopyIsOld(v.p, e) {
      assert CopyIsOld(w.p, e);
    }
  }

  lemma AckKeepsAudience(w: World, n: nat)
    requires AudienceInv(w)
    ensures AudienceInv(AfterAck(w, n))
    ensures AfterAck(w, n).p.latest == w.p.latest
  {
    AckKeepsState(w.p, n);
    AckKeeps(w.p.down, 0, n);
    var v := AfterAck(w, n);
    forall e | e in v.copies ensures CopyIsOld(v.p, e) {
      assert CopyIsOld(w.p, e);
    }
  }

  lemma WriteKeepsAudience(w: World, e: Entry)
    requires AudienceInv(w) && e in w.copies
    ensures AudienceInv(Apply(w, Write(e)))
  {
    var v := Apply(w, Write(e));
    assert CopyIsOld(w.p, e);
    forall c | c in v.copies ensures CopyIsOld(v.p, c) {
      assert CopyIsOld(w.p, c);
    }
  }

  lemma DispatchKeepsAudience(w: World, f: Frame, ack: nat, size: nat, window: int)
    requires AudienceInv(w) && f.RequestFrame? && f.reqID !in w.issued
    ensures AudienceInv(Apply(w, Dispatch(f, ack, size, window)))
  {
    AppendKeeps(w.p.down, 0, Payload(f, ack, size));
    var v := Apply(w, Dispatch(f, ack, size, window));
    forall e | e in v.copies ensures CopyIsOld(v.p, e) {
      assert CopyIsOld(w.p, e);
    }
  }

  lemma ReadKeepsAudience(w: World, e: Entry)
    requires AudienceInv(w) && e in w.p.down.log
    ensures AudienceInv(Apply(w, ReadLog(e)))
  {
    var v := Apply(w, ReadLog(e));
    forall c | c in v.copies ensures CopyIsOld(v.p, c) {
      if c in w.copies {
        assert CopyIsOld(w.p, c);
      }
    }
  }

  lemma StepKeepsAudience(w: World, step: Step)
    requires AudienceInv(w) && Enabled(w, step)
    ensures AudienceInv(Apply(w, step))
    ensures LatestGen(Apply(w, step).p.latest) >= LatestGen(w.p.latest)
  {
    match step
    case Push(a, ack, size) => PushKeepsAudience(w, a, ack, size);
    case Dispatch(f, ack, size, window) => DispatchKeepsAudience(w, f, ack, size, window);
    case ReadLog(e) => ReadKeepsAudience(w, e);
    case Write(e) => WriteKeepsAudience(w, e);
    case Ack(n) => AckKeepsAudience(w, n);
    case PushTaken(a, ack, size) => PushKeepsAudience(w, a, ack, size);
    case Resume(n) =>
      AckKeepsAudience(w, n);
      DiscardKeepsAudience(AfterAck(w, n));
    case _ => QuietStepKeepsAudience(w, step);
  }

  lemma DiscardKeepsAudience(v: World)
    requires AudienceInv(v)
    ensures AudienceInv(v.(p := v.p.(resend := None),
      discarded := if v.p.resend.Some? then v.discarded + {v.p.resend.value.gen} else v.discarded))
  {
    SameCopies(v, v.(p := v.p.(resend := None),
      discarded := if v.p.resend.Some? then v.discarded + {v.p.resend.value.gen} else v.discarded));
  }

  lemma QuietStepKeepsAudience(w: World, step: Step)
    requires AudienceInv(w) && Enabled(w, step)
    requires step.TakeResend? || step.SessionEnds? || step.Tick? || step.Expire?
    ensures AudienceInv(Apply(w, step)) && Apply(w, step).p.latest == w.p.latest
  {
    SameCopies(w, Apply(w, step));
  }

  lemma SameCopies(w: World, v: World)
    requires Handed(w)
    requires v.copies == w.copies && v.handed == w.handed && v.delivered == w.delivered
    requires v.p.down == w.p.down && v.p.audSeq == w.p.audSeq
    requires v.p.audGen == w.p.audGen && v.p.audSentGen == w.p.audSentGen
    ensures Handed(v)
  {
    forall e | e in v.copies ensures CopyIsOld(v.p, e) {
      assert CopyIsOld(w.p, e);
    }
  }

  lemma {:induction false} RunKeepsAudience(w: World, steps: seq<Step>)
    requires AudienceInv(w) && Legal(w, steps)
    ensures AudienceInv(Run(w, steps))
    ensures LatestGen(Run(w, steps).p.latest) >= LatestGen(w.p.latest)
    decreases |steps|
  {
    if |steps| == 0 {
    } else {
      StepKeepsAudience(w, steps[0]);
      RunKeepsAudience(Apply(w, steps[0]), steps[1..]);
    }
  }

  /** The newest snapshot is in the unacked log under the audience number, or queued for a
      fresh number, or in the hands of the session loop about to push it, or its generation was
      written in full under a number a later ack covers, or its resend was discarded. */
  predicate NewestIsAccountedFor(w: World) {
    w.p.latest.Some? ==>
      var a := w.p.latest.value;
      || (exists i :: 0 <= i < |w.p.down.log| && w.p.down.log[i].seqNo == w.p.audSeq
                      && w.p.down.log[i].payload.frame == AudienceFrame(a))
      || w.p.resend == Some(a)
      || a in w.inHand
      || (a.gen in w.delivered && (w.delivered[a.gen], a.gen) in w.handed && w.delivered[a.gen] <= w.p.down.acked)
      || a.gen in w.discarded
  }

  /** Coalescing never loses the newest state, the generation held never decreases, and at most
      one audience frame is unacked, over every run. */
  lemma CoalescingLosesNothing(w: World, steps: seq<Step>, more: seq<Step>)
    requires Start(w) && Legal(w, steps) && Legal(Run(w, steps), more)
    ensures NewestIsAccountedFor(Run(w, steps))
    ensures LatestGen(Run(Run(w, steps), more).p.latest) >= LatestGen(Run(w, steps).p.latest)
    ensures var log := Run(w, steps).p.down.log;
            forall i, j :: IsAudience(log, i) && IsAudience(log, j) ==> i == j
  {
    RunKeepsAudience(w, steps);
    RunKeepsAudience(Run(w, steps), more);
    InvMeansAccountedFor(Run(w, steps));
    OneAudienceEntry(Run(w, steps).p);
  }

  predicate IsAudience(log: seq<Entry>, i: int) {
    0 <= i < |log| && log[i].payload.frame.AudienceFrame?
  }

  lemma InvMeansAccountedFor(w: World)
    requires AudienceInv(w)
    ensures NewestIsAccountedFor(w)
  {
    if w.p.latest.Some? && w.p.audSeq != 0 {
      var i := w.p.audSeq - w.p.down.acked - 1;
      assert w.p.down.log[i].seqNo == w.p.audSeq;
    }
  }

  lemma OneAudienceEntry(p: ProtoState)
    requires AudienceState(p)
    ensures forall i, j :: IsAudience(p.down.log, i) && IsAudience(p.down.log, j) ==> i == j
  {}

  /** Handed over is not applied. When a newer payload is folded into the live frame and written
      under its number before the ack of the older copy arrives, that ack queues no resend, */
  lemma NoResendOnceRewritten(p: ProtoState, b: Audience, size: nat, cap: nat, now: nat)
    requires AudienceState(p) && p.audSeq != 0 && p.audGen < b.gen && ValidateAudience(b).None?
    ensures var q := AckedDown(PushedAndWritten(p, p.audSeq, b, size, cap, now), p.audSeq);
            q.resend == None && q.audSeq == 0 && q.latest == Some(b) && q.down.acked == p.audSeq
  {
    PushOutcome(p, b, 0, size, cap);
    PushKeepsState(p, b, 0, size, cap);
    AckKeeps(PushedAndWritten(p, p.audSeq, b, size, cap, now).down, 0, p.audSeq);
  }

  function PushedAndWritten(p: ProtoState, n: nat, a: Audience, size: nat, cap: nat, now: nat): ProtoState {
    NotedWritten(PushedAudience(p, a, 0, size, cap).after, Entry(n, AudiencePayload(a, 0, size)), now, 0)
  }

  /** yet a peer that is a plain receiver took the older payload and drops the newer one. */
  lemma RewrittenPayloadIsADuplicate(r: Receiving.ReceiverState, first: Payload, second: Payload)
    requires Receiving.Consistent(r)
    ensures var once := Receiving.Offer(r, r.acked + 1, first);
            && |once.ready| > 0 && once.ready[0] == first
            && Receiving.Offer(once.after, r.acked + 1, second) == Receiving.Accepted(once.after, [], None)
  {}
}
