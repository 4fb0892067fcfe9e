/** When a dispatched request expires: never before its frame was written in full, and then one
    window later unless an ack covers it (internal/hub/session.go). */
module Deadlines {
  import opened Wire
  import opened Validation
  import opened Sending
  import opened SessionProtocol
  import opened SessionRuns
  import opened RequestRuns

  /** What is known of one request: its frame number, its id, and the window it was given. */
  datatype Asked = Asked(seqNo: nat, reqID: string, window: int)

  /** A window that is not positive means the default. */
  function Patience(q: Asked, default: nat): nat { if q.window > 0 then q.window else default }

  /** Nothing was reported of the request; an ack covers it, or it waits with that deadline. */
  predicate WaitsWith(w: World, q: Asked, deadline: Option<nat>) {
    && q.seqNo <= w.p.down.next
    && (w.p.down.acked >= q.seqNo
        || (q.seqNo in w.p.reqAcks && w.p.reqAcks[q.seqNo] == ReqAck(q.reqID, q.window, deadline)))
    && forall i :: 0 <= i < |w.reports| ==> w.reports[i].seqNo != q.seqNo
  }

  /** The request was reported, not before d, and waits no more. */
  predicate ReportedFrom(w: World, q: Asked, d: nat) {
    && q.seqNo <= w.p.down.next && q.seqNo !in w.p.reqAcks
    && (exists i :: 0 <= i < |w.reports| && IsReportOf(w.reports[i], q, d, w.defaultWindow))
    && forall i :: 0 <= i < |w.reports| && w.reports[i].seqNo == q.seqNo ==> w.reports[i].at >= d
  }

  predicate IsReportOf(r: Report, q: Asked, d: nat, default: nat) {
    r.seqNo == q.seqNo && r.reqID == q.reqID && r.at >= d && r.window == Patience(q, default) && r.acked < q.seqNo
  }

  /** The request waits with deadline d, or was reported after it. */
  predicate Runs(w: World, q: Asked, d: nat) { WaitsWith(w, q, Some(d)) || ReportedFrom(w, q, d) }

  /** The frame is not written again at or after d. */
  predicate WrittenOnlyBefore(w: World, steps: seq<Step>, k: nat, d: nat)
    requires Legal(w, steps)
    decreases |steps|
  {
    |steps| > 0 ==>
      && (steps[0].Write? && steps[0].e.seqNo == k ==> w.now < d)
      && WrittenOnlyBefore(Apply(w, steps[0]), steps[1..], k, d)
  }

  /** From w to v nothing happened to request k, unless an ack covers it by now. */
  predicate Leaves(w: World, v: World, k: nat) {
    && v.defaultWindow == w.defaultWindow && v.p.down.next >= w.p.down.next && v.p.down.acked >= w.p.down.acked
    && (k in v.p.reqAcks ==> k in w.p.reqAcks && v.p.reqAcks[k] == w.p.reqAcks[k])
    && (k in w.p.reqAcks && v.p.down.acked < k ==> k in v.p.reqAcks)
  }

  lemma PushLeaves(w: World, a: Audience, ack: nat, size: nat, k: nat)
    requires AudienceInv(w) && Enabled(w, Push(a, ack, size))
    ensures Leaves(w, AfterPush(w, a, ack, size), k)
  {
    PushOutcome(w.p, a, ack, size, w.cap);
  }

  lemma AckLeaves(w: World, n: nat, k: nat)
    requires AudienceInv(w)
    ensures Leaves(w, AfterAck(w, n), k)
  {
    AckKeeps(w.p.down, 0, n);
  }

  /** A step that neither writes the frame nor takes expired requests out. */
  lemma StepLeaves(w: World, step: Step, k: nat)
    requires AudienceInv(w) && Enabled(w, step) && k <= w.p.down.next
    requires !step.Expire? && !(step.Write? && step.e.seqNo == k)
    ensures Leaves(w, Apply(w, step), k) && Apply(w, step).reports == w.reports
  {
    match step
    case Push(a, ack, size) => PushLeaves(w, a, ack, size, k);
    case PushTaken(a, ack, size) => PushLeaves(w, a, ack, size, k);
    case Ack(n) => AckLeaves(w, n, k);
    case Resume(n) => AckLeaves(w, n, k);
    case _ =>
  }

  lemma OtherStepWaits(w: World, step: Step, q: Asked, deadline: Option<nat>)
    requires AudienceInv(w) && Enabled(w, step) && WaitsWith(w, q, deadline)
    requires !step.Expire? && !(step.Write? && step.e.seqNo == q.seqNo)
    ensures WaitsWith(Apply(w, step), q, deadline)
  {
    StepLeaves(w, step, q.seqNo);
  }

  lemma RewriteWaits(w: World, e: Entry, q: Asked, d: nat)
    requires Enabled(w, Write(e)) && WaitsWith(w, q, Some(d)) && e.seqNo == q.seqNo && w.now < d
    ensures WaitsWith(Apply(w, Write(e)), q, Some(d))
  {}

  /** Taking the expired requests out reports this one exactly when its deadline has come. */
  lemma ExpireReports(w: World, at: nat, order: seq<nat>, q: Asked, deadline: Option<nat>)
    requires RequestInv(w) && Enabled(w, Expire(at, order)) && WaitsWith(w, q, deadline)
    ensures var v := Apply(w, Expire(at, order));
            if w.p.down.acked >= q.seqNo || deadline.None? || at < deadline.value then WaitsWith(v, q, deadline)
            else ReportedFrom(v, q, deadline.value)
  {
    var v, found := Apply(w, Expire(at, order)), Reports(w.p, at, order, w.defaultWindow);
    assert q.seqNo in w.p.reqAcks ==> Waiting(w, q.seqNo);
    forall i | 0 <= i < |v.reports| && v.reports[i].seqNo == q.seqNo
      ensures q.seqNo in w.p.reqAcks && deadline.Some? && deadline.value <= at == v.reports[i].at
    {
      assert i >= |w.reports|;
      assert v.reports[i] == found[i - |w.reports|];
    }
    if w.p.down.acked < q.seqNo && deadline.Some? && deadline.value <= at {
      assert q.seqNo in ExpiredKeys(w.p.reqAcks, at);
      var i :| 0 <= i < |order| && order[i] == q.seqNo;
      assert v.reports[|w.reports| + i] == found[i];
      assert IsReportOf(v.reports[|w.reports| + i], q, deadline.value, w.defaultWindow);
    }
  }

  lemma StepStaysReported(w: World, step: Step, q: Asked, d: nat)
    requires AudienceInv(w) && Enabled(w, step) && ReportedFrom(w, q, d)
    ensures ReportedFrom(Apply(w, step), q, d)
  {
    var v := Apply(w, step);
    var i :| 0 <= i < |w.reports| && IsReportOf(w.reports[i], q, d, w.defaultWindow);
    if step.Expire? {
      var found := Reports(w.p, step.at, step.order, w.defaultWindow);
      assert forall j :: |w.reports| <= j < |v.reports| ==> v.reports[j] == found[j - |w.reports|];
    } else if step.Write? && step.e.seqNo == q.seqNo {
      assert v.p == w.p.(audSentGen := v.p.audSentGen);
    } else {
      StepLeaves(w, step, q.seqNo);
    }
    assert IsReportOf(v.reports[i], q, d, v.defaultWindow);
  }

  lemma StepRuns(w: World, step: Step, q: Asked, d: nat)
    requires AudienceInv(w) && RequestInv(w) && Enabled(w, step) && Runs(w, q, d)
    requires step.Write? && step.e.seqNo == q.seqNo ==> w.now < d
    ensures Runs(Apply(w, step), q, d)
  {
    if ReportedFrom(w, q, d) {
      StepStaysReported(w, step, q, d);
    } else if step.Expire? {
      ExpireReports(w, step.at, step.order, q, Some(d));
    } else if step.Write? && step.e.seqNo == q.seqNo {
      RewriteWaits(w, step.e, q, d);
    } else {
      OtherStepWaits(w, step, q, Some(d));
    }
  }

  lemma {:induction false} KeepsRunning(w: World, steps: seq<Step>, q: Asked, d: nat)
    requires AudienceInv(w) && RequestInv(w) && Legal(w, steps) && Runs(w, q, d)
    requires WrittenOnlyBefore(w, steps, q.seqNo, d)
    ensures var z := Run(w, steps); AudienceInv(z) && RequestInv(z) && Runs(z, q, d)
    ensures Run(w, steps).defaultWindow == w.defaultWindow
    decreases |steps|
  {
    if |steps| > 0 {
      StepKeepsAudience(w, steps[0]);
      StepKeepsRequests(w, steps[0]);
      StepRuns(w, steps[0], q, d);
      KeepsRunning(Apply(w, steps[0]), steps[1..], q, d);
    }
  }

  /** As long as its frame is not written a request waits without a deadline. */
  lemma {:induction false} UnwrittenWaits(w: World, steps: seq<Step>, q: Asked)
    requires AudienceInv(w) && RequestInv(w) && Legal(w, steps) && WaitsWith(w, q, None)
    requires WrittenOnlyBefore(w, steps, q.seqNo, 0)
    ensures var x := Run(w, steps); AudienceInv(x) && RequestInv(x) && WaitsWith(x, q, None)
    ensures Run(w, steps).defaultWindow == w.defaultWindow
    decreases |steps|
  {
    if |steps| > 0 {
      var step := steps[0];
      StepKeepsAudience(w, step);
      StepKeepsRequests(w, step);
      if step.Expire? {
        ExpireReports(w, step.at, step.order, q, None);
      } else {
        OtherStepWaits(w, step, q, None);
      }
      UnwrittenWaits(Apply(w, step), steps[1..], q);
    }
  }

  // ---- from a fresh start ----

  /** Only frames that were appended were written. */
  predicate OnlyAppended(w: World) { forall x :: x in w.written ==> x.0 <= w.p.down.next }

  lemma StepKeepsNumbers(w: World, step: Step)
    requires AudienceInv(w) && Enabled(w, step) && OnlyAppended(w)
    ensures OnlyAppended(Apply(w, step))
  {
    if step.Write? {
      assert CopyIsOld(w.p, step.e);
    } else if !step.Expire? {
      StepLeaves(w, step, 0);
    }
  }

  /** What every reachable state has: the audience and the request bookkeeping in order. */
  ghost predicate Sound(w: World) { AudienceInv(w) && RequestInv(w) && OnlyAppended(w) }

  lemma ReachableIsSound(start: World, steps: seq<Step>)
    requires Start(start) && Legal(start, steps)
    ensures Sound(Run(start, steps)) && Run(start, steps).defaultWindow == start.defaultWindow
  {
    RunIsSound(start, steps);
  }

  lemma {:induction false} RunIsSound(w: World, steps: seq<Step>)
    requires Sound(w) && Legal(w, steps)
    ensures Sound(Run(w, steps)) && Run(w, steps).defaultWindow == w.defaultWindow
    decreases |steps|
  {
    if |steps| > 0 {
      StepKeepsAudience(w, steps[0]);
      StepKeepsRequests(w, steps[0]);
      StepKeepsNumbers(w, steps[0]);
      RunIsSound(Apply(w, steps[0]), steps[1..]);
    }
  }

  /** Dispatching logs the request under the next number and starts its wait. */
  lemma DispatchStartsWait(w: World, f: Frame, ack: nat, size: nat, window: int)
    requires Sound(w)
    requires Enabled(w, Dispatch(f, ack, size, window)) && EncodeError(f).None?
    ensures var v := Apply(w, Dispatch(f, ack, size, window));
            WaitsWith(v, Asked(w.p.down.next + 1, f.reqID, window), None)
  {
    forall i | 0 <= i < |w.reports| ensures w.reports[i].seqNo <= w.p.down.next {
      assert Justified(w, w.reports[i]);
    }
    AppendKeeps(w.p.down, 0, Payload(f, ack, size));
  }

  /** A full write of a frame not covered by an ack sets the deadline one window later, unless a
      deadline is still running. */
  lemma WriteArms(w: World, e: Entry, q: Asked, deadline: Option<nat>, d: nat)
    requires Enabled(w, Write(e)) && WaitsWith(w, q, deadline) && e.seqNo == q.seqNo
    requires (deadline.None? || w.now >= deadline.value) && d == w.now + Patience(q, w.defaultWindow)
    ensures WaitsWith(Apply(w, Write(e)), q, Some(d))
  {}

  /** Unless an ack covers it the request counts as expired exactly from d on, or has been reported;
      no report is earlier, and taking out what has expired reports it. */
  ghost predicate ExpiresFrom(z: World, q: Asked, d: nat) {
    && (z.p.down.acked < q.seqNo ==>
          ReportedFrom(z, q, d) || forall at: nat :: q.seqNo in ExpiredKeys(z.p.reqAcks, at) <==> at >= d)
    && (forall i :: 0 <= i < |z.reports| && z.reports[i].seqNo == q.seqNo ==> z.reports[i].at >= d)
    && (forall at: nat, order :: z.p.down.acked < q.seqNo && at >= d && Enabled(z, Expire(at, order)) ==>
          ReportedFrom(Apply(z, Expire(at, order)), q, d))
  }

  lemma RunningExpires(z: World, q: Asked, d: nat)
    requires AudienceInv(z) && RequestInv(z) && Runs(z, q, d)
    ensures ExpiresFrom(z, q, d)
  {
    forall at: nat, order | z.p.down.acked < q.seqNo && at >= d && Enabled(z, Expire(at, order))
      ensures ReportedFrom(Apply(z, Expire(at, order)), q, d)
    {
      if ReportedFrom(z, q, d) {
        StepStaysReported(z, Expire(at, order), q, d);
      } else {
        ExpireReports(z, at, order, q, Some(d));
      }
    }
  }

  lemma UnarmedNeverExpires(x: World, q: Asked)
    requires RequestInv(x) && WaitsWith(x, q, None)
    ensures forall at: nat :: q.seqNo !in ExpiredKeys(x.p.reqAcks, at)
  {
    assert q.seqNo in x.p.reqAcks ==> Waiting(x, q.seqNo);
  }

  /** A request written at x, with no deadline running, expires one window later. */
  lemma WriteStartsWindow(x: World, e: Entry, q: Asked, deadline: Option<nat>, y: World, d: nat)
    requires AudienceInv(x) && RequestInv(x) && Enabled(x, Write(e)) && e.seqNo == q.seqNo
    requires WaitsWith(x, q, deadline) && (deadline.None? || x.now >= deadline.value)
    requires y == Apply(x, Write(e)) && d == x.now + Patience(q, x.defaultWindow)
    ensures AudienceInv(y) && RequestInv(y) && Runs(y, q, d)
  {
    WriteArms(x, e, q, deadline, d);
    assert WaitsWith(y, q, Some(d));
    StepKeepsAudience(x, Write(e));
    StepKeepsRequests(x, Write(e));
  }

  lemma FromWriteOn(y: World, after: seq<Step>, z: World, q: Asked, d: nat)
    requires AudienceInv(y) && RequestInv(y) && Runs(y, q, d)
    requires Legal(y, after) && z == Run(y, after) && WrittenOnlyBefore(y, after, q.seqNo, d)
    ensures ExpiresFrom(z, q, d)
  {
    KeepsRunning(y, after, q, d);
    RunningExpires(z, q, d);
  }

  lemma FromDispatchOn(w: World, f: Frame, ack: nat, size: nat, window: int, v: World, q: Asked)
    requires Sound(w)
    requires Enabled(w, Dispatch(f, ack, size, window)) && EncodeError(f).None?
    requires v == Apply(w, Dispatch(f, ack, size, window)) && q == Asked(w.p.down.next + 1, f.reqID, window)
    ensures AudienceInv(v) && RequestInv(v) && v.defaultWindow == w.defaultWindow && WaitsWith(v, q, None)
  {
    StepKeepsAudience(w, Dispatch(f, ack, size, window));
    StepKeepsRequests(w, Dispatch(f, ack, size, window));
    DispatchStartsWait(w, f, ack, size, window);
  }

  /** The life of a dispatched request, from any reachable state: before its frame is written
      it never expires. From the first full write on, unless an ack covers it and as long as the
      frame is not written again after the deadline, it expires exactly one window later. */
  lemma ExpiresExactlyAfterWindow(w: World, f: Frame, ack: nat, size: nat, window: int, v: World, waiting: seq<Step>,
                                  x: World, e: Entry, y: World, after: seq<Step>, z: World, q: Asked, d: nat)
    requires Sound(w)
    requires Enabled(w, Dispatch(f, ack, size, window)) && EncodeError(f).None?
    requires v == Apply(w, Dispatch(f, ack, size, window)) && q == Asked(w.p.down.next + 1, f.reqID, window)
    requires Legal(v, waiting) && x == Run(v, waiting) && WrittenOnlyBefore(v, waiting, q.seqNo, 0)
    requires Enabled(x, Write(e)) && e.seqNo == q.seqNo && y == Apply(x, Write(e))
    requires d == x.now + Patience(q, w.defaultWindow)
    requires Legal(y, after) && z == Run(y, after) && WrittenOnlyBefore(y, after, q.seqNo, d)
    ensures forall at: nat :: q.seqNo !in ExpiredKeys(x.p.reqAcks, at)
    ensures ExpiresFrom(z, q, d)
  {
    FromDispatchOn(w, f, ack, size, window, v, q);
    UnwrittenWaits(v, waiting, q);
    UnarmedNeverExpires(x, q);
    WriteStartsWindow(x, e, q, None, y, d);
    FromWriteOn(y, after, z, q, d);
  }

  /** Written again once its deadline has come and before it was taken out, a request gets a new
      window, from that write on. */
  lemma LateRewriteStartsAnew(x: World, e: Entry, q: Asked, was: nat, y: World, after: seq<Step>, z: World, d: nat)
    requires Sound(x) && WaitsWith(x, q, Some(was)) && x.now >= was
    requires Enabled(x, Write(e)) && e.seqNo == q.seqNo && y == Apply(x, Write(e))
    requires d == x.now + Patience(q, x.defaultWindow)
    requires Legal(y, after) && z == Run(y, after) && WrittenOnlyBefore(y, after, q.seqNo, d)
    ensures ExpiresFrom(z, q, d)
  {
    WriteStartsWindow(x, e, q, Some(was), y, d);
    FromWriteOn(y, after, z, q, d);
  }
}
