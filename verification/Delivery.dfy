/** One direction of a session as a step system: the sender of wire/sender.go and the receiver of
    wire/receiver.go over a channel that may drop, duplicate, delay and reorder frames and
    acks, across any number of same-epoch reconnects and overflow closes. */
module Delivery {
  import opened Wire
  import opened Sending
  import opened Receiving
  import opened Replay

  /** frames and acks hold everything ever put on the wire. A frame that is never delivered is
      lost, one delivered twice is duplicated, and any delivery order is allowed.
      base, appended, elided, logged and applied record the run: where the stream starts,
      every payload in the order it was appended, the numbers whose payload was replaced,
      every (number, payload) the log ever held, and what the receiver released. */
  datatype System = System(
    snd: SenderState, rcv: ReceiverState,
    frames: set<Entry>, acks: set<nat>,
    base: nat, appended: seq<Payload>, elided: set<nat>, logged: set<Entry>, applied: seq<Payload>)

  datatype Step =
    | Append(p: Payload)
    | Elide(seqNo: nat, p: Payload)
    | Transmit(e: Entry)
    | DeliverFrame(e: Entry)
    | Heartbeat
    | DeliverAck(n: nat)
    | Reconnect(resume: nat)

  predicate Start(s: System) {
    && s.snd == SenderState(s.base, s.snd.acked, [], 0) && s.snd.acked <= s.base
    && s.rcv == ReceiverState(s.base, s.rcv.window, map[]) && s.rcv.window >= 1
    && s.frames == {} && s.acks == {}
    && s.appended == [] && s.elided == {} && s.logged == {} && s.applied == []
  }

  /** A writer transmits what is in the log; the network delivers what was transmitted; a
      reconnecting peer resumes from a watermark it has reached. */
  predicate Enabled(s: System, step: Step) {
    match step
    case Transmit(e) => e in s.snd.log
    case DeliverFrame(e) => e in s.frames
    case DeliverAck(n) => n in s.acks
    case Reconnect(resume) => resume <= s.rcv.acked
    case _ => true
  }

  function Apply(s: System, step: Step): System {
    match step
    case Append(p) =>
      s.(snd := Appended(s.snd, p), appended := s.appended + [p],
         logged := s.logged + {Entry(s.snd.next + 1, p)})
    case Elide(seqNo, p) =>
      var at := Find(s.snd.log, 0, seqNo);
      if at.None? then s
      else s.(snd := ElidedAt(s.snd, at.value, p), elided := s.elided + {seqNo},
              logged := s.logged + {Entry(seqNo, p)})
    case Transmit(e) =>
      s.(frames := s.frames + {e})
    case DeliverFrame(e) =>
      var a := Offer(s.rcv, e.seqNo, e.payload);
      s.(rcv := a.after, applied := s.applied + a.ready,
         acks := if a.err.None? then s.acks + {a.after.acked} else s.acks)
    case Heartbeat =>
      s.(acks := s.acks + {s.rcv.acked})
    case DeliverAck(n) =>
      s.(snd := Acknowledged(s.snd, n))
    case Reconnect(resume) =>
      s.(snd := Acknowledged(s.snd, resume))
  }

  predicate Legal(s: System, steps: seq<Step>)
    decreases |steps|
  {
    |steps| == 0 || (Enabled(s, steps[0]) && Legal(Apply(s, steps[0]), steps[1..]))
  }

  function Run(s: System, steps: seq<Step>): System
    decreases |steps|
  {
    if |steps| == 0 then s else Run(Apply(s, steps[0]), steps[1..])
  }

  /** The number was logged with this payload, which is the appended one if it was never elided. */
  predicate Genuine(s: System, e: Entry) {
    && e in s.logged
    && s.base < e.seqNo <= s.base + |s.appended|
    && (e.seqNo in s.elided || e.payload == s.appended[e.seqNo - s.base - 1])
  }

  predicate EndsAgree(s: System) {
    && Sending.Consistent(s.snd, s.base)
    && Receiving.Consistent(s.rcv)
    && s.snd.next == s.base + |s.appended|
    && s.snd.acked <= s.rcv.acked <= s.snd.next
    && s.rcv.acked == s.base + |s.applied|
    && forall n :: n in s.acks ==> n <= s.rcv.acked
  }

  predicate AllGenuine(s: System) {
    && (forall e :: e in s.logged ==> Genuine(s, e))
    && (forall e :: e in s.frames ==> e in s.logged)
    && (forall e :: e in s.snd.log ==> e in s.logged)
    && (forall k :: k in s.rcv.buf ==> Entry(k, s.rcv.buf[k]) in s.logged)
    && (forall i :: 0 <= i < |s.applied| ==> Entry(s.base + 1 + i, s.applied[i]) in s.logged)
  }

  predicate Safe(s: System) { EndsAgree(s) && AllGenuine(s) }

  lemma StartIsSafe(s: System)
    requires Start(s)
    ensures Safe(s)
  {}

  lemma AppendStep(s: System, p: Payload)
    requires Safe(s)
    ensures Safe(Apply(s, Append(p)))
  {
    AppendKeeps(s.snd, s.base, p);
    AppendedIsGenuine(s, p);
  }

  lemma AppendedIsGenuine(s: System, p: Payload)
    requires Safe(s)
    ensures AllGenuine(Apply(s, Append(p)))
  {
    var t := Apply(s, Append(p));
    forall e | e in t.logged ensures Genuine(t, e) {
      if e in s.logged {
        assert Genuine(s, e);
      }
    }
  }

  lemma ElideStep(s: System, seqNo: nat, p: Payload)
    requires Safe(s)
    ensures Safe(Apply(s, Elide(seqNo, p)))
  {
    var t := Apply(s, Elide(seqNo, p));
    var at := Find(s.snd.log, 0, seqNo);
    if at.Some? {
      ElideKeeps(s.snd, s.base, at.value, p);
      assert s.snd.log[at.value] in s.snd.log;
      forall e | e in t.logged ensures Genuine(t, e) {
        if e in s.logged {
          assert Genuine(s, e);
        } else {
          assert Genuine(s, s.snd.log[at.value]);
        }
      }
    }
  }

  lemma AckStep(s: System, n: nat)
    requires Safe(s) && n <= s.rcv.acked
    ensures Safe(s.(snd := Acknowledged(s.snd, n)))
  {
    AckKeeps(s.snd, s.base, n);
    AckCuts(s.snd, s.base, n);
    var t := s.(snd := Acknowledged(s.snd, n));
    LoggedStaysGenuine(s, t);
    forall e | e in t.snd.log ensures e in t.logged {
      assert e in s.snd.log;
    }
  }

  lemma DeliverAgrees(s: System, e: Entry)
    requires Safe(s) && e in s.frames
    ensures EndsAgree(Apply(s, DeliverFrame(e)))
  {
    var a := Offer(s.rcv, e.seqNo, e.payload);
    OfferKeeps(s.rcv, e.seqNo, e.payload);
    assert Genuine(s, e);
    if a.ready != [] && a.after.acked > e.seqNo {
      RunBehindIsLongest(s.rcv.buf, e.seqNo);
      assert Genuine(s, Entry(a.after.acked, s.rcv.buf[a.after.acked]));
    }
  }

  lemma DeliverStep(s: System, e: Entry)
    requires Safe(s) && e in s.frames
    ensures Safe(Apply(s, DeliverFrame(e)))
  {
    DeliverAgrees(s, e);
    ReleasedGenuine(s, e);
    OfferKeeps(s.rcv, e.seqNo, e.payload);
    LoggedStaysGenuine(s, Apply(s, DeliverFrame(e)));
    AppliedGrows(s, Offer(s.rcv, e.seqNo, e.payload).ready);
  }

  lemma AppliedGrows(s: System, ready: seq<Payload>)
    requires s.rcv.acked == s.base + |s.applied|
    requires forall i :: 0 <= i < |s.applied| ==> Entry(s.base + 1 + i, s.applied[i]) in s.logged
    requires forall j :: 0 <= j < |ready| ==> Entry(s.rcv.acked + 1 + j, ready[j]) in s.logged
    ensures var applied := s.applied + ready;
            forall i :: 0 <= i < |applied| ==> Entry(s.base + 1 + i, applied[i]) in s.logged
  {
    var applied := s.applied + ready;
    forall i | 0 <= i < |applied| ensures Entry(s.base + 1 + i, applied[i]) in s.logged {
      if i >= |s.applied| {
        assert Entry(s.rcv.acked + 1 + (i - |s.applied|), ready[i - |s.applied|]) in s.logged;
      }
    }
  }

  lemma LoggedStaysGenuine(s: System, t: System)
    requires AllGenuine(s)
    requires t.logged == s.logged && t.base == s.base && t.appended == s.appended && t.elided == s.elided
    ensures forall e :: e in t.logged ==> Genuine(t, e)
  {
    forall e | e in t.logged ensures Genuine(t, e) {
      assert Genuine(s, e);
    }
  }

  /** What one delivery releases continues the applied run with genuine payloads. */
  lemma ReleasedGenuine(s: System, e: Entry)
    requires Safe(s) && e in s.logged
    ensures var a := Offer(s.rcv, e.seqNo, e.payload);
            && (forall j :: 0 <= j < |a.ready| ==> Entry(s.rcv.acked + 1 + j, a.ready[j]) in s.logged)
            && (forall k :: k in a.after.buf ==> Entry(k, a.after.buf[k]) in s.logged)
  {
    var a := Offer(s.rcv, e.seqNo, e.payload);
    RunBehindIsLongest(s.rcv.buf, e.seqNo);
    forall j | 0 <= j < |a.ready| ensures Entry(s.rcv.acked + 1 + j, a.ready[j]) in s.logged {
      if j > 0 {
        var k := s.rcv.acked + 1 + j;
        assert k in s.rcv.buf && a.ready[j] == s.rcv.buf[k];
      }
    }
  }

  lemma StepKeepsSafe(s: System, step: Step)
    requires Safe(s) && Enabled(s, step)
    ensures Safe(Apply(s, step))
  {
    match step
    case Append(p) => AppendStep(s, p);
    case Elide(seqNo, p) => ElideStep(s, seqNo, p);
    case Transmit(e) => SafeApartFromChannel(s, Apply(s, step));
    case DeliverFrame(e) => DeliverStep(s, e);
    case Heartbeat => SafeApartFromChannel(s, Apply(s, step));
    case DeliverAck(n) => AckStep(s, n);
    case Reconnect(resume) => AckStep(s, resume);
  }

  lemma SafeApartFromChannel(s: System, t: System)
    requires Safe(s) && t == s.(frames := t.frames, acks := t.acks)
    requires forall e :: e in t.frames ==> e in s.logged
    requires forall n :: n in t.acks ==> n <= s.rcv.acked
    ensures Safe(t)
  {
    LoggedStaysGenuine(s, t);
  }

  /** Nothing already released is ever taken back or released again. */
  lemma StepExtends(s: System, step: Step)
    ensures s.applied <= Apply(s, step).applied
    ensures s.appended <= Apply(s, step).appended
    ensures Apply(s, step).base == s.base
  {}

  lemma {:induction false} RunKeepsSafe(s: System, steps: seq<Step>)
    requires Safe(s) && Legal(s, steps)
    ensures var t := Run(s, steps);
            Safe(t) && t.base == s.base && s.applied <= t.applied && s.appended <= t.appended
    decreases |steps|
  {
    if |steps| == 0 {
    } else {
      StepKeepsSafe(s, steps[0]);
      StepExtends(s, steps[0]);
      RunKeepsSafe(Apply(s, steps[0]), steps[1..]);
    }
  }

  /** Safety over every run: the receiver releases a gap-free run from the baseline, each number
      exactly once and in order, each with a payload that was logged under that number: the
      appended one unless it was elided. The three watermarks stay ordered, and what was
      released before the run stays released. */
  lemma EveryRunIsSafe(s: System, steps: seq<Step>)
    requires Safe(s) && Legal(s, steps)
    ensures var t := Run(s, steps);
            && t.base == s.base && s.applied <= t.applied
            && t.snd.acked <= t.rcv.acked <= t.snd.next == t.base + |t.appended|
            && t.rcv.acked == t.base + |t.applied|
            && (forall i :: 0 <= i < |t.applied| ==> Entry(t.base + 1 + i, t.applied[i]) in t.logged)
            && (forall i :: 0 <= i < |t.applied| && t.base + 1 + i !in t.elided ==> t.applied[i] == t.appended[i])
  {
    RunKeepsSafe(s, steps);
    AppliedAsAppended(Run(s, steps));
  }

  lemma AppliedAsAppended(t: System)
    requires Safe(t)
    ensures |t.applied| <= |t.appended|
    ensures forall i :: 0 <= i < |t.applied| && t.base + 1 + i !in t.elided ==> t.applied[i] == t.appended[i]
  {
    forall i | 0 <= i < |t.applied| && t.base + 1 + i !in t.elided ensures t.applied[i] == t.appended[i] {
      assert Genuine(t, Entry(t.base + 1 + i, t.applied[i]));
    }
  }

  /** With no elision the receiver's output is exactly a prefix of what was appended. */
  lemma AppliedIsPrefixOfAppended(s: System, steps: seq<Step>)
    requires Start(s) && Legal(s, steps) && Run(s, steps).elided == {}
    ensures Run(s, steps).applied <= Run(s, steps).appended
  {
    StartIsSafe(s);
    EveryRunIsSafe(s, steps);
  }

  // ---- progress ----

  /** One fault-free retransmission round: the batch arrives in order and the receiver's ack
      comes back. */
  datatype Ends = Ends(snd: SenderState, rcv: ReceiverState)

  function Round(e: Ends, max: nat, maxBytes: nat): Ends {
    var rcv := OfferAll(e.rcv, Batch(e.snd.log, max, maxBytes));
    Ends(Acknowledged(e.snd, rcv.acked), rcv)
  }

  predicate Agree(e: Ends, base: nat) {
    && Sending.Consistent(e.snd, base) && Receiving.Consistent(e.rcv)
    && base <= e.rcv.acked
    && e.snd.acked <= e.rcv.acked <= e.snd.next
    && forall k :: k in e.rcv.buf ==> k <= e.snd.next
  }

  lemma SafeSystemsAgree(s: System)
    requires Safe(s)
    ensures Agree(Ends(s.snd, s.rcv), s.base)
  {
    forall k | k in s.rcv.buf ensures k <= s.snd.next {
      assert Genuine(s, Entry(k, s.rcv.buf[k]));
    }
  }

  /** A run of consecutive frames that starts at or below the gap never overflows, and takes
      the watermark to its end at least. */
  lemma {:induction false} OfferRun(r: ReceiverState, frames: seq<Entry>, first: nat, limit: nat)
    requires Receiving.Consistent(r)
    requires Contiguous(frames, first) && first <= r.acked
    requires first + |frames| <= limit && r.acked <= limit
    requires forall k :: k in r.buf ==> k <= limit
    ensures var t := OfferAll(r, frames);
            && Receiving.Consistent(t)
            && Max(r.acked, first + |frames|) <= t.acked <= limit
            && (forall k :: k in t.buf ==> k <= limit)
    decreases |frames|
  {
    if |frames| == 0 {
    } else {
      var a := Offer(r, frames[0].seqNo, frames[0].payload);
      OfferKeeps(r, frames[0].seqNo, frames[0].payload);
      if frames[0].seqNo == r.acked + 1 {
        RunBehindIsLongest(r.buf, frames[0].seqNo);
        assert a.after.acked == frames[0].seqNo || a.after.acked in r.buf;
      }
      OfferRun(a.after, frames[1..], first + 1, limit);
    }
  }

  /** Every round with something in the log makes the log strictly shorter. */
  lemma RoundShrinks(e: Ends, base: nat, max: nat, maxBytes: nat)
    requires Agree(e, base) && max > 0
    ensures Agree(Round(e, max, maxBytes), base)
    ensures |e.snd.log| > 0 ==> |Round(e, max, maxBytes).snd.log| < |e.snd.log|
    ensures Round(e, max, maxBytes).snd.next == e.snd.next
  {
    var batch := Batch(e.snd.log, max, maxBytes);
    var first := Max(e.snd.acked, base);
    assert Contiguous(batch, first) by {
      forall i | 0 <= i < |batch| ensures batch[i].seqNo == first + 1 + i {
        assert batch[i] == e.snd.log[i];
      }
    }
    OfferRun(e.rcv, batch, first, e.snd.next);
    var rcv := OfferAll(e.rcv, batch);
    AckKeeps(e.snd, base, rcv.acked);
    AckCuts(e.snd, base, rcv.acked);
  }

  ghost function Rounds(e: Ends, base: nat, max: nat, maxBytes: nat): Ends
    requires Agree(e, base) && max > 0
    decreases |e.snd.log|
  {
    if |e.snd.log| == 0 then e
    else
      RoundShrinks(e, base, max, maxBytes);
      Rounds(Round(e, max, maxBytes), base, max, maxBytes)
  }

  /** No loss: from any reachable state, fault-free rounds end with an empty log of no bytes, both
      watermarks at the last assigned number, and nothing parked. */
  lemma {:induction false} RoundsDrain(e: Ends, base: nat, max: nat, maxBytes: nat)
    requires Agree(e, base) && max > 0
    ensures var t := Rounds(e, base, max, maxBytes);
            && Agree(t, base)
            && t.snd.log == [] && t.snd.bytes == 0
            && t.snd.next == e.snd.next == t.rcv.acked
            && t.rcv.buf == map[]
    decreases |e.snd.log|
  {
    if |e.snd.log| == 0 {
      assert forall k :: k in e.rcv.buf ==> false;
    } else {
      RoundShrinks(e, base, max, maxBytes);
      RoundsDrain(Round(e, max, maxBytes), base, max, maxBytes);
    }
  }

  /** AppendAt on a fresh sender is the only way a log starts above its watermark, and it is
      exactly an append onto the baseline it names. */
  lemma AppendAtStartsTheRun(seqNo: nat, p: Payload)
    requires seqNo > 0
    ensures var s := Appended(SenderState(seqNo - 1, 0, [], 0), p);
            && Sending.Consistent(s, seqNo - 1)
            && (Sending.Consistent(s, 0) <==> seqNo == 1)
  {
    AppendKeeps(SenderState(seqNo - 1, 0, [], 0), seqNo - 1, p);
  }
}
