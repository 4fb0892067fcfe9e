/** What every run guarantees about request deadlines, and why a session may skip acks it has
    already seen (internal/hub/session.go). */
module RequestRuns {
  import opened Wire
  import opened Sending
  import opened SessionProtocol
  import opened SessionRuns

  /** A waiting request belongs to an entry still in the unacked log, and a running deadline
      was set by a completed write of that entry, one window earlier. */
  predicate Waiting(w: World, k: nat)
    requires k in w.p.reqAcks
  {
    var ra := w.p.reqAcks[k];
    && w.p.down.acked < k <= w.p.down.next
    && k - w.p.down.acked - 1 < |w.p.down.log|
    && w.p.down.log[k - w.p.down.acked - 1].payload.frame.RequestFrame?
    && w.p.down.log[k - w.p.down.acked - 1].payload.frame.reqID == ra.reqID
    && ra.reqID in w.issued
    && (ra.deadline.Some? ==>
        var window := Window(ra, w.defaultWindow);
        ra.deadline.value >= window && (k, ra.deadline.value - window) in w.written)
  }

  predicate AllWaiting(w: World) { forall k :: k in w.p.reqAcks ==> Waiting(w, k) }

  /** No request id waits twice, and none waits after it was reported. */
  predicate IdsApart(w: World) {
    && (forall j, k :: j in w.p.reqAcks && k in w.p.reqAcks && j != k ==> w.p.reqAcks[j].reqID != w.p.reqAcks[k].reqID)
    && (forall i, k :: 0 <= i < |w.reports| && k in w.p.reqAcks ==> w.reports[i].reqID != w.p.reqAcks[k].reqID)
    && (forall i, j :: 0 <= i < j < |w.reports| ==> w.reports[i].reqID != w.reports[j].reqID)
    && (forall i :: 0 <= i < |w.reports| ==> w.reports[i].reqID in w.issued)
  }

  /** The frame was written in full at least a window before the report, and no ack had covered
      it by then. */
  ghost predicate Justified(w: World, r: Report) {
    r.acked < r.seqNo && exists t :: (r.seqNo, t) in w.written && t + r.window <= r.at
  }

  ghost predicate AllJustified(w: World) {
    forall i :: 0 <= i < |w.reports| ==> Justified(w, w.reports[i])
  }

  ghost predicate RequestInv(w: World) {
    AllWaiting(w) && IdsApart(w) && AllJustified(w)
  }

  lemma MoreWrittenStillJustified(w: World, v: World)
    requires AllJustified(w) && v.reports == w.reports && w.written <= v.written
    ensures AllJustified(v)
  {
    forall i | 0 <= i < |v.reports| ensures Justified(v, v.reports[i]) {
      assert Justified(w, w.reports[i]);
    }
  }

  lemma DispatchKeepsRequests(w: World, f: Frame, ack: nat, size: nat, window: int)
    requires AudienceInv(w) && RequestInv(w) && f.RequestFrame? && f.reqID !in w.issued
    ensures RequestInv(Apply(w, Dispatch(f, ack, size, window)))
  {
    var v := Apply(w, Dispatch(f, ack, size, window));
    MoreWrittenStillJustified(w, v);
    forall k | k in v.p.reqAcks ensures Waiting(v, k) {
      if k in w.p.reqAcks {
        assert Waiting(w, k);
      }
    }
    assert forall k :: k in w.p.reqAcks ==> w.p.reqAcks[k].reqID in w.issued by {
      forall k | k in w.p.reqAcks ensures w.p.reqAcks[k].reqID in w.issued { assert Waiting(w, k); }
    }
  }

  lemma WriteKeepsWaiting(w: World, e: Entry, k: nat)
    requires e in w.copies && k in w.p.reqAcks && Waiting(w, k)
    ensures k in Apply(w, Write(e)).p.reqAcks && Waiting(Apply(w, Write(e)), k)
    ensures Apply(w, Write(e)).p.reqAcks[k].reqID == w.p.reqAcks[k].reqID
  {}

  lemma WriteKeepsRequests(w: World, e: Entry)
    requires RequestInv(w) && e in w.copies
    ensures RequestInv(Apply(w, Write(e)))
  {
    var v := Apply(w, Write(e));
    MoreWrittenStillJustified(w, v);
    assert v.p.reqAcks.Keys == w.p.reqAcks.Keys;
    forall k | k in w.p.reqAcks ensures Waiting(v, k) && v.p.reqAcks[k].reqID == w.p.reqAcks[k].reqID {
      WriteKeepsWaiting(w, e, k);
    }
    SameIdsApart(w, v);
  }

  lemma SameIdsApart(w: World, v: World)
    requires IdsApart(w) && v.reports == w.reports && w.issued <= v.issued
    requires forall k :: k in v.p.reqAcks ==> k in w.p.reqAcks && v.p.reqAcks[k].reqID == w.p.reqAcks[k].reqID
    ensures IdsApart(v)
  {}

  lemma AckKeepsWaiting(w: World, n: nat, k: nat)
    requires AudienceState(w.p) && k in w.p.reqAcks && Waiting(w, k)
    requires k in AfterAck(w, n).p.reqAcks
    ensures Waiting(AfterAck(w, n), k)
  {
    EntrySurvives(w.p.down, n, k);
  }

  lemma AckKeepsRequests(w: World, n: nat)
    requires AudienceInv(w) && RequestInv(w)
    ensures RequestInv(AfterAck(w, n))
  {
    var v := AfterAck(w, n);
    MoreWrittenStillJustified(w, v);
    forall k | k in v.p.reqAcks ensures Waiting(v, k) {
      assert Waiting(w, k);
      AckKeepsWaiting(w, n, k);
    }
    SameIdsApart(w, v);
  }

  lemma PushKeepsRequests(w: World, a: Audience, ack: nat, size: nat)
    requires AudienceInv(w) && RequestInv(w) && Enabled(w, Push(a, ack, size))
    ensures RequestInv(AfterPush(w, a, ack, size))
  {
    PushOutcome(w.p, a, ack, size, w.cap);
    var v := AfterPush(w, a, ack, size);
    MoreWrittenStillJustified(w, v);
    forall k | k in v.p.reqAcks ensures Waiting(v, k) {
      assert Waiting(w, k);
    }
  }

  lemma ExpireKeepsRequests(w: World, at: nat, order: seq<nat>)
    requires AudienceInv(w) && RequestInv(w) && Enabled(w, Expire(at, order))
    ensures RequestInv(Apply(w, Expire(at, order)))
  {
    var v := Apply(w, Expire(at, order));
    var found := Reports(w.p, at, order, w.defaultWindow);
    forall k | k in v.p.reqAcks ensures Waiting(v, k) {
      assert Waiting(w, k);
    }
    forall i | 0 <= i < |order| ensures Justified(v, found[i]) && found[i].reqID in w.issued {
      ExpiredIsJustified(w, order[i], at);
    }
    forall i | 0 <= i < |v.reports| ensures Justified(v, v.reports[i]) {
      if i < |w.reports| {
        assert Justified(w, w.reports[i]);
      } else {
        assert v.reports[i] == found[i - |w.reports|];
      }
    }
    ExpireKeepsIdsApart(w, at, order);
  }

  lemma ExpiredIsJustified(w: World, k: nat, at: nat)
    requires RequestInv(w) && k in ExpiredKeys(w.p.reqAcks, at)
    ensures Justified(w, ReportFor(w.p, k, at, w.defaultWindow)) && w.p.reqAcks[k].reqID in w.issued
  {
    assert Waiting(w, k);
    var ra := w.p.reqAcks[k];
    assert (k, ra.deadline.value - Window(ra, w.defaultWindow)) in w.written;
  }

  lemma ExpireKeepsIdsApart(w: World, at: nat, order: seq<nat>)
    requires RequestInv(w) && Enabled(w, Expire(at, order))
    ensures IdsApart(Apply(w, Expire(at, order)))
  {
    var v := Apply(w, Expire(at, order));
    var found := Reports(w.p, at, order, w.defaultWindow);
    forall i | 0 <= i < |found| ensures found[i].reqID in w.issued && found[i].seqNo in w.p.reqAcks
                                     && found[i].reqID == w.p.reqAcks[found[i].seqNo].reqID
                                     && found[i].seqNo == order[i] {
      ExpiredIsJustified(w, order[i], at);
    }
    forall i, j | 0 <= i < j < |v.reports| ensures v.reports[i].reqID != v.reports[j].reqID {
      if j >= |w.reports| {
        var y := found[j - |w.reports|];
        if i >= |w.reports| {
          var x := found[i - |w.reports|];
          assert x.seqNo != y.seqNo;
        }
      }
    }
    forall i, k | 0 <= i < |v.reports| && k in v.p.reqAcks ensures v.reports[i].reqID != v.p.reqAcks[k].reqID {
      if i >= |w.reports| {
        var x := found[i - |w.reports|];
        assert x.seqNo in ExpiredKeys(w.p.reqAcks, at);
      }
    }
  }

  lemma StepKeepsRequests(w: World, step: Step)
    requires AudienceInv(w) && RequestInv(w) && Enabled(w, step)
    ensures RequestInv(Apply(w, step))
  {
    match step
    case Push(a, ack, size) => PushKeepsRequests(w, a, ack, size);
    case Dispatch(f, ack, size, window) => DispatchKeepsRequests(w, f, ack, size, window);
    case Write(e) => WriteKeepsRequests(w, e);
    case Ack(n) => AckKeepsRequests(w, n);
    case PushTaken(a, ack, size) =>
      PushKeepsRequests(w, a, ack, size);
      SameRequests(AfterPush(w, a, ack, size), Apply(w, step));
    case Resume(n) =>
      AckKeepsRequests(w, n);
      SameRequests(AfterAck(w, n), Apply(w, step));
    case Expire(at, order) => ExpireKeepsRequests(w, at, order);
    case _ => SameRequests(w, Apply(w, step));
  }

  lemma SameRequests(w: World, v: World)
    requires RequestInv(w)
    requires v.p.down == w.p.down && v.p.reqAcks == w.p.reqAcks
    requires v.written == w.written && v.issued == w.issued
    requires v.reports == w.reports && v.defaultWindow == w.defaultWindow
    ensures RequestInv(v)
  {
    MoreWrittenStillJustified(w, v);
    forall k | k in v.p.reqAcks ensures Waiting(v, k) {
      assert Waiting(w, k);
    }
  }

  lemma {:induction false} RunKeepsRequests(w: World, steps: seq<Step>)
    requires AudienceInv(w) && RequestInv(w) && Legal(w, steps)
    ensures AudienceInv(Run(w, steps)) && RequestInv(Run(w, steps))
    decreases |steps|
  {
    if |steps| == 0 {
    } else {
      StepKeepsAudience(w, steps[0]);
      StepKeepsRequests(w, steps[0]);
      RunKeepsRequests(Apply(w, steps[0]), steps[1..]);
    }
  }

  /** Request bookkeeping over every run: a waiting request is one in the unacked log; one whose
      frame was never written in full cannot expire; a request is reported at most once, only a
      full window after a completed write, and only while no ack covers it. */
  lemma ReportsAreSound(w: World, steps: seq<Step>, at: nat)
    requires Start(w) && Legal(w, steps)
    ensures var v := Run(w, steps);
            && (forall k :: k in v.p.reqAcks ==> Waiting(v, k))
            && (forall k :: k in ExpiredKeys(v.p.reqAcks, at) ==> exists t :: (k, t) in v.written && t <= at)
            && (forall i, j :: 0 <= i < j < |v.reports| ==> v.reports[i].reqID != v.reports[j].reqID)
            && AllJustified(v)
  {
    RunKeepsRequests(w, steps);
    var v := Run(w, steps);
    forall k | k in ExpiredKeys(v.p.reqAcks, at) ensures exists t :: (k, t) in v.written && t <= at {
      ExpiredIsJustified(v, k, at);
    }
  }

  /** The request is acked, or its deadline is the one it was. */
  predicate Untouched(w: World, k: nat, d: nat) {
    w.p.down.acked >= k || (k in w.p.reqAcks && w.p.reqAcks[k].deadline == Some(d))
  }

  lemma PushLeavesDeadline(w: World, a: Audience, ack: nat, size: nat, k: nat, d: nat)
    requires AudienceInv(w) && Enabled(w, Push(a, ack, size)) && Untouched(w, k, d)
    ensures Untouched(AfterPush(w, a, ack, size), k, d)
  {
    PushOutcome(w.p, a, ack, size, w.cap);
  }

  lemma AckLeavesDeadline(w: World, n: nat, k: nat, d: nat)
    requires AudienceInv(w) && Untouched(w, k, d)
    ensures Untouched(AfterAck(w, n), k, d)
  {
    AckKeeps(w.p.down, 0, n);
  }

  lemma DispatchLeavesDeadline(w: World, f: Frame, ack: nat, size: nat, window: int, k: nat, d: nat)
    requires AudienceInv(w) && RequestInv(w) && Enabled(w, Dispatch(f, ack, size, window)) && Untouched(w, k, d)
    ensures Untouched(Apply(w, Dispatch(f, ack, size, window)), k, d)
  {
    assert k in w.p.reqAcks ==> Waiting(w, k);
  }

  lemma StepLeavesDeadline(w: World, step: Step, k: nat, d: nat)
    requires AudienceInv(w) && RequestInv(w) && Enabled(w, step)
    requires Untouched(w, k, d) && w.now < d
    ensures Untouched(Apply(w, step), k, d)
  {
    match step
    case Push(a, ack, size) => PushLeavesDeadline(w, a, ack, size, k, d);
    case PushTaken(a, ack, size) => PushLeavesDeadline(w, a, ack, size, k, d);
    case Ack(n) => AckLeavesDeadline(w, n, k, d);
    case Resume(n) => AckLeavesDeadline(w, n, k, d);
    case Dispatch(f, ack, size, window) => DispatchLeavesDeadline(w, f, ack, size, window, k, d);
    case _ =>
  }

  lemma {:induction false} ClockNeverFalls(w: World, steps: seq<Step>)
    requires Legal(w, steps)
    ensures Run(w, steps).now >= w.now
    decreases |steps|
  {
    if |steps| == 0 {
    } else {
      ClockNeverFalls(Apply(w, steps[0]), steps[1..]);
    }
  }

  /** A replay never extends a live window: however often and by whichever writers its frame is
      written again, a request whose deadline has not come keeps that deadline until an ack
      covers it. */
  lemma {:induction false} ReplayNeverExtends(w: World, steps: seq<Step>, k: nat, d: nat)
    requires AudienceInv(w) && RequestInv(w) && Legal(w, steps)
    requires Untouched(w, k, d) && Run(w, steps).now < d
    ensures Untouched(Run(w, steps), k, d)
    decreases |steps|
  {
    if |steps| == 0 {
    } else {
      ClockNeverFalls(w, steps);
      StepKeepsAudience(w, steps[0]);
      StepKeepsRequests(w, steps[0]);
      StepLeavesDeadline(w, steps[0], k, d);
      ReplayNeverExtends(Apply(w, steps[0]), steps[1..], k, d);
    }
  }

  // ---- the session's ack filter ----

  /** The shared state and, for each session of the epoch, the watermark it remembers: the one
      attached and any it replaced may both still be reading. */
  datatype Filtered = Filtered(w: World, last: map<nat, nat>)

  /** A session starts out with the watermark of the moment; or one of them takes a step. */
  datatype Call = Opens(session: nat) | Does(session: nat, step: Step)

  predicate CallEnabled(f: Filtered, call: Call) {
    match call
    case Opens(s) => s !in f.last
    case Does(s, step) => s in f.last && Enabled(f.w, step)
  }

  /** A session hands over only acks above the watermark it last saw applied, and remembers the
      clamped one. */
  function FilterStep(f: Filtered, call: Call): Filtered
    requires CallEnabled(f, call)
  {
    match call
    case Opens(s) => f.(last := f.last[s := f.w.p.down.acked])
    case Does(s, step) =>
      if step.Ack? then
        if step.n > f.last[s] then
          var v := Apply(f.w, step);
          Filtered(v, f.last[s := v.p.down.acked])
        else f
      else Filtered(Apply(f.w, step), f.last)
  }

  predicate FilterLegal(f: Filtered, calls: seq<Call>)
    decreases |calls|
  {
    |calls| == 0 || (CallEnabled(f, calls[0]) && FilterLegal(FilterStep(f, calls[0]), calls[1..]))
  }

  function FilterRun(f: Filtered, calls: seq<Call>): Filtered
    requires FilterLegal(f, calls)
    decreases |calls|
  {
    if |calls| == 0 then f else FilterRun(FilterStep(f, calls[0]), calls[1..])
  }

  /** The same steps without any filter. */
  function Unfiltered(calls: seq<Call>): seq<Step> {
    if |calls| == 0 then []
    else if calls[0].Opens? then Unfiltered(calls[1..])
    else [calls[0].step] + Unfiltered(calls[1..])
  }

  /** No session remembers more than was applied. */
  predicate MirrorsLag(f: Filtered) { forall s :: s in f.last ==> f.last[s] <= f.w.p.down.acked }

  /** An ack at or below the applied watermark changes nothing at all. */
  lemma OldAckIsIdentity(w: World, n: nat)
    requires AudienceInv(w) && RequestInv(w) && n <= w.p.down.acked
    ensures AfterAck(w, n) == w
  {
    assert forall k :: k in w.p.reqAcks ==> k > w.p.down.acked by {
      forall k | k in w.p.reqAcks ensures k > w.p.down.acked { assert Waiting(w, k); }
    }
    assert Outstanding(w.p.reqAcks, w.p.down.acked) == w.p.reqAcks;
  }

  lemma WatermarkNeverFalls(w: World, step: Step)
    requires AudienceInv(w) && Enabled(w, step)
    ensures Apply(w, step).p.down.acked >= w.p.down.acked
  {
    match step
    case Push(a, ack, size) => PushOutcome(w.p, a, ack, size, w.cap);
    case PushTaken(a, ack, size) => PushOutcome(w.p, a, ack, size, w.cap);
    case Ack(n) => AckKeeps(w.p.down, 0, n);
    case Resume(n) => AckKeeps(w.p.down, 0, n);
    case _ =>
  }

  lemma CallKeepsInv(f: Filtered, call: Call)
    requires AudienceInv(f.w) && RequestInv(f.w) && MirrorsLag(f) && CallEnabled(f, call)
    ensures var g := FilterStep(f, call); AudienceInv(g.w) && RequestInv(g.w) && MirrorsLag(g)
    ensures FilterStep(f, call).w == if call.Opens? then f.w else Apply(f.w, call.step)
  {
    if call.Does? {
      StepKeepsAudience(f.w, call.step);
      StepKeepsRequests(f.w, call.step);
      WatermarkNeverFalls(f.w, call.step);
      if call.step.Ack? && call.step.n <= f.last[call.session] {
        OldAckIsIdentity(f.w, call.step.n);
      }
    }
  }

  /** The filter is transparent: with any number of sessions over the same state, each skipping by
      its own mirror, any stream of raw acks, above anything sent or not, mixed with anything
      else, leaves the very state that applying every ack would; and an ack that would move the
      watermark is never skipped. */
  lemma {:induction false} FilterIsTransparent(f: Filtered, calls: seq<Call>)
    requires AudienceInv(f.w) && RequestInv(f.w) && MirrorsLag(f)
    requires FilterLegal(f, calls)
    ensures Legal(f.w, Unfiltered(calls))
    ensures FilterRun(f, calls).w == Run(f.w, Unfiltered(calls))
    ensures MirrorsLag(FilterRun(f, calls))
    decreases |calls|
  {
    if |calls| == 0 {
    } else {
      CallKeepsInv(f, calls[0]);
      FilterIsTransparent(FilterStep(f, calls[0]), calls[1..]);
      assert calls[0].Does? ==>
        Unfiltered(calls)[0] == calls[0].step && Unfiltered(calls)[1..] == Unfiltered(calls[1..]);
    }
  }

  /** Remembering the raw number instead would not do: after an ack above anything sent, the
      genuine ack of the next frame would look old. */
  lemma RawMirrorWouldStall(s: SenderState, bogus: nat, p: Payload)
    requires Consistent(s, 0) && bogus > s.next
    ensures var acked := Acknowledged(s, bogus);
            var sent := Appended(acked, p);
            && acked.acked == s.next
            && sent.next <= bogus
            && Acknowledged(sent, sent.next).acked > sent.acked
  {
    AckKeeps(s, 0, bogus);
    AppendKeeps(Acknowledged(s, bogus), 0, p);
    AckKeeps(Appended(Acknowledged(s, bogus), p), 0, s.next + 1);
  }
}
