/** The reliable receiver (wire/receiver.go): a watermark over contiguous frames and the
    frames parked above a gap. */
module Receiving {
  import opened Wire
  import opened Sums

  const RESUME_WINDOW := 1500

  datatype AcceptError = SeqZero | Overflow

  datatype ReceiverState = ReceiverState(acked: nat, window: nat, buf: map<nat, Payload>)

  /** What Accept hands back: the payloads that became applicable, in order, or an error. */
  datatype Accepted = Accepted(after: ReceiverState, ready: seq<Payload>, err: Option<AcceptError>)

  /** Frames are parked strictly above the gap and never more than the window allows. */
  predicate Consistent(r: ReceiverState) {
    && r.window >= 1
    && |r.buf| <= r.window
    && forall k :: k in r.buf ==> k > r.acked + 1
  }

  /** The parked frames that continue, without a hole, the run that ends at a. */
  function RunBehind(buf: map<nat, Payload>, a: nat): seq<Payload>
    decreases buf.Keys
  {
    if a + 1 in buf then [buf[a + 1]] + RunBehind(buf - {a + 1}, a + 1) else []
  }

  /** It is the longest such run, in order. */
  lemma {:induction false} RunBehindIsLongest(buf: map<nat, Payload>, a: nat)
    ensures var run := RunBehind(buf, a);
            && a + |run| + 1 !in buf
            && forall k :: a < k <= a + |run| ==> k in buf && buf[k] == run[k - a - 1]
    decreases buf.Keys
  {
    if a + 1 in buf {
      var rest := buf - {a + 1};
      RunBehindIsLongest(rest, a + 1);
      var run := RunBehind(buf, a);
      assert a + |run| + 1 !in rest;
      forall k | a < k <= a + |run| ensures k in buf && buf[k] == run[k - a - 1] {
        if k > a + 1 {
          assert k in rest;
        }
      }
    }
  }

  function Parked(buf: map<nat, Payload>, above: nat): map<nat, Payload> {
    map k | k in buf && k > above :: buf[k]
  }

  /** Accept, stated by what it means: a duplicate changes nothing, a frame above the gap is
      parked while there is room, and the frame at the gap releases itself and the whole
      parked run behind it. */
  function Offer(r: ReceiverState, seqNo: nat, p: Payload): Accepted {
    if seqNo == 0 then Accepted(r, [], Some(SeqZero))
    else if seqNo <= r.acked then Accepted(r, [], None)
    else if seqNo > r.acked + 1 then
      if seqNo in r.buf then Accepted(r, [], None)
      else if |r.buf| >= r.window then Accepted(r, [], Some(Overflow))
      else Accepted(r.(buf := r.buf[seqNo := p]), [], None)
    else
      var ready := [p] + RunBehind(r.buf, seqNo);
      var end := r.acked + |ready|;
      Accepted(ReceiverState(end, r.window, Parked(r.buf, end)), ready, None)
  }

  /** The watermark never jumps: it moves by exactly the number of payloads released. */
  lemma OfferKeeps(r: ReceiverState, seqNo: nat, p: Payload)
    requires Consistent(r)
    ensures var a := Offer(r, seqNo, p);
            && Consistent(a.after) && a.after.window == r.window
            && a.after.acked == r.acked + |a.ready|
            && (a.err.Some? ==> a.after == r && a.ready == [])
            && (a.after.acked >= seqNo <==> seqNo <= r.acked + 1)
  {
    var a := Offer(r, seqNo, p);
    if seqNo != 0 && seqNo == r.acked + 1 {
      ParkedSmaller(r.buf, a.after.acked);
      RunBehindIsLongest(r.buf, seqNo);
    }
  }

  /** The receiver after a whole stream of frames. */
  function OfferAll(r: ReceiverState, frames: seq<Entry>): ReceiverState
    decreases |frames|
  {
    if |frames| == 0 then r
    else OfferAll(Offer(r, frames[0].seqNo, frames[0].payload).after, frames[1..])
  }

  lemma ParkedSmaller(buf: map<nat, Payload>, above: nat)
    ensures |Parked(buf, above)| <= |buf|
  {
    assert Parked(buf, above).Keys <= buf.Keys;
    SizeSubset(Parked(buf, above).Keys, buf.Keys);
    KeysSize(buf);
    KeysSize(Parked(buf, above));
  }

  lemma KeysSize(m: map<nat, Payload>)
    ensures |m.Keys| == |m|
  {}

  class Receiver {
    var acked: nat
    const window: nat
    var buf: map<nat, Payload>

    ghost function State(): ReceiverState reads this { ReceiverState(acked, window, buf) }

    ghost predicate Valid() reads this { Consistent(State()) }

    /** A window below 1 means the package default. */
    constructor (watermark: nat, requested: int)
      ensures Valid()
      ensures State() == ReceiverState(watermark, if requested < 1 then RESUME_WINDOW else requested, map[])
    {
      acked := watermark;
      window := if requested < 1 then RESUME_WINDOW else requested;
      buf := map[];
    }

    method Accept(seqNo: nat, p: Payload) returns (ready: seq<Payload>, ack: nat, err: Option<AcceptError>)
      requires Valid()
      modifies this
      ensures Valid()
      ensures Accepted(State(), ready, err) == Offer(old(State()), seqNo, p)
      ensures ack == acked
    {
      OfferKeeps(State(), seqNo, p);
      if seqNo == 0 {
        return [], acked, Some(SeqZero);
      }
      if seqNo <= acked {
        return [], acked, None;
      }
      if seqNo > acked + 1 {
        if seqNo in buf {
          return [], acked, None;
        }
        if |buf| >= window {
          return [], acked, Some(Overflow);
        }
        buf := buf[seqNo := p];
        return [], acked, None;
      }
      ready := [p];
      acked := seqNo;
      while acked + 1 in buf
        invariant acked == seqNo + |ready| - 1
        invariant buf == Parked(old(buf), acked)
        invariant ready + RunBehind(buf, acked) == [p] + RunBehind(old(buf), seqNo)
        decreases buf.Keys
      {
        var next := buf[acked + 1];
        buf := buf - {acked + 1};
        acked := acked + 1;
        ready := ready + [next];
      }
      ack := acked;
      err := None;
    }
  }
}
