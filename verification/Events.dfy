/** How a session feeds one events batch through the receiver it may share with another
    session of the same epoch (internal/hub/session.go, handleEvents). */
module Events {
  import opened Wire
  import opened Receiving

  /** How the loop left one batch: everything released so far and the error that ended it. */
  datatype BatchResult = BatchResult(after: ReceiverState, released: seq<Payload>, err: Option<AcceptError>)

  /** The loop over the events of a batch numbered from seqNo on. others[i] arrives from another
      session just before event i; released is what earlier events released. */
  function AcceptBatch(r: ReceiverState, seqNo: nat, bodies: seq<Payload>, others: seq<seq<Entry>>,
                       released: seq<Payload>): BatchResult
    requires |others| == |bodies|
    decreases |bodies|
  {
    if |bodies| == 0 then BatchResult(r, released, None)
    else
      var a := Offer(OfferAll(r, others[0]), seqNo, bodies[0]);
      if a.err.Some? then BatchResult(a.after, released, a.err)
      else AcceptBatch(a.after, seqNo + 1, bodies[1..], others[1..], released + a.ready)
  }

  lemma {:induction false} InterferenceAdvances(r: ReceiverState, frames: seq<Entry>)
    requires Consistent(r)
    ensures Consistent(OfferAll(r, frames))
    ensures OfferAll(r, frames).acked >= r.acked
    decreases |frames|
  {
    if |frames| == 0 {
    } else {
      OfferKeeps(r, frames[0].seqNo, frames[0].payload);
      InterferenceAdvances(Offer(r, frames[0].seqNo, frames[0].payload).after, frames[1..]);
    }
  }

  /** Once the watermark has reached the gap of a contiguous batch no event of it overflows. */
  lemma {:induction false} NoErrorOnceCaughtUp(r: ReceiverState, seqNo: nat, bodies: seq<Payload>,
                                               others: seq<seq<Entry>>, released: seq<Payload>)
    requires |others| == |bodies| && Consistent(r)
    requires 0 < seqNo <= r.acked + 1
    ensures AcceptBatch(r, seqNo, bodies, others, released).err.None?
    decreases |bodies|
  {
    if |bodies| == 0 {
    } else {
      InterferenceAdvances(r, others[0]);
      var q := OfferAll(r, others[0]);
      OfferKeeps(q, seqNo, bodies[0]);
      var a := Offer(q, seqNo, bodies[0]);
      NoErrorOnceCaughtUp(a.after, seqNo + 1, bodies[1..], others[1..], released + a.ready);
    }
  }

  /** One batch never both releases and overflows, whatever another session does in between:
      leaving the loop early discards nothing. */
  lemma {:induction false} EarlyReturnDiscardsNothing(r: ReceiverState, seqNo: nat, bodies: seq<Payload>,
                                                      others: seq<seq<Entry>>)
    requires |others| == |bodies| && Consistent(r) && seqNo > 0
    ensures AcceptBatch(r, seqNo, bodies, others, []).err.Some? ==>
      AcceptBatch(r, seqNo, bodies, others, []).released == []
    decreases |bodies|
  {
    if |bodies| == 0 {
    } else {
      InterferenceAdvances(r, others[0]);
      var q := OfferAll(r, others[0]);
      OfferKeeps(q, seqNo, bodies[0]);
      var a := Offer(q, seqNo, bodies[0]);
      if a.err.None? {
        if a.ready == [] {
          assert [] + a.ready == [];
          EarlyReturnDiscardsNothing(a.after, seqNo + 1, bodies[1..], others[1..]);
        } else {
          NoErrorOnceCaughtUp(a.after, seqNo + 1, bodies[1..], others[1..], [] + a.ready);
        }
      }
    }
  }

  // ---- exactly once, in order ----

  /** Everything a receiver releases over a whole stream of frames. */
  function Released(r: ReceiverState, frames: seq<Entry>): seq<Payload>
    decreases |frames|
  {
    if |frames| == 0 then []
    else
      var a := Offer(r, frames[0].seqNo, frames[0].payload);
      a.ready + Released(a.after, frames[1..])
  }

  /** Event number k of the stream is stream[k]; every copy of it carries the same body. */
  predicate FromStream(frames: seq<Entry>, stream: seq<Payload>) {
    forall i :: 0 <= i < |frames| ==> frames[i].seqNo < |stream| && frames[i].payload == stream[frames[i].seqNo]
  }

  predicate ParkedFrom(r: ReceiverState, stream: seq<Payload>) {
    r.acked < |stream| && forall k :: k in r.buf ==> k < |stream| && r.buf[k] == stream[k]
  }

  /** The frame at the gap releases itself and the parked run behind it. */
  lemma GapReleasesRange(r: ReceiverState, e: Entry, stream: seq<Payload>)
    requires ParkedFrom(r, stream)
    requires e.seqNo == r.acked + 1 < |stream| && e.payload == stream[e.seqNo]
    ensures var a := Offer(r, e.seqNo, e.payload);
            && r.acked < a.after.acked < |stream|
            && (forall k :: k in a.after.buf ==> k in r.buf && a.after.buf[k] == r.buf[k])
            && a.ready == stream[r.acked + 1..a.after.acked + 1]
  {
    RunIsRange(r, e.seqNo, stream);
  }

  /** One offer releases exactly the events its move of the watermark covers. */
  lemma OfferReleasesRange(r: ReceiverState, e: Entry, stream: seq<Payload>)
    requires Consistent(r) && ParkedFrom(r, stream)
    requires e.seqNo < |stream| && e.payload == stream[e.seqNo]
    ensures var a := Offer(r, e.seqNo, e.payload);
            && Consistent(a.after) && ParkedFrom(a.after, stream)
            && a.after.acked >= r.acked
            && a.ready == stream[r.acked + 1..a.after.acked + 1]
  {
    OfferKeeps(r, e.seqNo, e.payload);
    if e.seqNo == r.acked + 1 {
      GapReleasesRange(r, e, stream);
    }
  }

  lemma RunIsRange(r: ReceiverState, a: nat, stream: seq<Payload>)
    requires ParkedFrom(r, stream) && a < |stream|
    ensures var run := RunBehind(r.buf, a);
            a + |run| < |stream| && [stream[a]] + run == stream[a..a + |run| + 1]
  {
    var run := RunBehind(r.buf, a);
    RunBehindIsLongest(r.buf, a);
    assert |run| > 0 ==> a + |run| in r.buf;
    forall i | 0 <= i < |run| ensures run[i] == stream[a + 1 + i] {}
  }

  lemma SlicesMeet(stream: seq<Payload>, a: nat, b: nat, c: nat)
    requires a <= b <= c <= |stream|
    ensures stream[a..b] + stream[b..c] == stream[a..c]
  {}

  lemma RestFromStream(frames: seq<Entry>, stream: seq<Payload>)
    requires |frames| > 0 && FromStream(frames, stream)
    ensures FromStream(frames[1..], stream)
  {}

  /** The stream between the two watermarks, each event once. */
  predicate ReleasesStream(r: ReceiverState, frames: seq<Entry>, stream: seq<Payload>) {
    var to := OfferAll(r, frames).acked;
    r.acked <= to < |stream| && Released(r, frames) == stream[r.acked + 1..to + 1]
  }

  lemma ReleasedFirst(r: ReceiverState, frames: seq<Entry>, stream: seq<Payload>, a: Accepted)
    requires |frames| > 0 && a == Offer(r, frames[0].seqNo, frames[0].payload)
    requires r.acked <= a.after.acked < |stream| && a.ready == stream[r.acked + 1..a.after.acked + 1]
    requires ReleasesStream(a.after, frames[1..], stream)
    ensures ReleasesStream(r, frames, stream)
  {
    SlicesMeet(stream, r.acked + 1, a.after.acked + 1, OfferAll(a.after, frames[1..]).acked + 1);
  }

  /** However batches overlap, repeat or arrive out of order, the stream released is exactly the
      events between the two watermarks: each once, in order. */
  lemma {:induction false} ReleasedIsTheStream(r: ReceiverState, frames: seq<Entry>, stream: seq<Payload>)
    requires Consistent(r) && FromStream(frames, stream) && ParkedFrom(r, stream)
    ensures r.acked <= OfferAll(r, frames).acked < |stream|
    ensures Released(r, frames) == stream[r.acked + 1..OfferAll(r, frames).acked + 1]
    decreases |frames|
  {
    if |frames| > 0 {
      var a := Offer(r, frames[0].seqNo, frames[0].payload);
      OfferReleasesRange(r, frames[0], stream);
      RestFromStream(frames, stream);
      ReleasedIsTheStream(a.after, frames[1..], stream);
      ReleasedFirst(r, frames, stream, a);
      assert ReleasesStream(r, frames, stream);
    }
  }

  /** A batch that no other session disturbs. */
  function AcceptAlone(r: ReceiverState, seqNo: nat, bodies: seq<Payload>, released: seq<Payload>): BatchResult {
    AcceptBatch(r, seqNo, bodies, Quiet(|bodies|), released)
  }

  function Quiet(n: nat): seq<seq<Entry>> { seq(n, _ => []) }

  lemma AloneOneMore(r: ReceiverState, seqNo: nat, bodies: seq<Payload>, i: nat, released: seq<Payload>)
    requires i < |bodies|
    ensures var a := Offer(r, seqNo, bodies[i]);
            AcceptAlone(r, seqNo, bodies[i..], released) ==
              if a.err.Some? then BatchResult(a.after, released, a.err)
              else AcceptAlone(a.after, seqNo + 1, bodies[i + 1..], released + a.ready)
  {
    var rest := bodies[i..];
    assert rest[1..] == bodies[i + 1..] && Quiet(|rest|)[1..] == Quiet(|rest[1..]|);
    assert OfferAll(r, Quiet(|rest|)[0]) == r;
  }

  /** The frames of a batch. */
  function BatchFrames(seqNo: nat, bodies: seq<Payload>): seq<Entry> {
    seq(|bodies|, i requires 0 <= i < |bodies| => Entry(seqNo + i, bodies[i]))
  }

  lemma FirstOfBatch(r: ReceiverState, seqNo: nat, bodies: seq<Payload>)
    requires |bodies| > 0
    ensures var a, rest := Offer(r, seqNo, bodies[0]), BatchFrames(seqNo + 1, bodies[1..]);
            && OfferAll(r, BatchFrames(seqNo, bodies)) == OfferAll(a.after, rest)
            && Released(r, BatchFrames(seqNo, bodies)) == a.ready + Released(a.after, rest)
  {
    assert BatchFrames(seqNo, bodies)[1..] == BatchFrames(seqNo + 1, bodies[1..]);
  }

  lemma Joins(released: seq<Payload>, ready: seq<Payload>, rest: seq<Payload>)
    ensures (released + ready) + rest == released + (ready + rest)
  {}

  /** A batch that ends without an error has offered every one of its events, in order, and
      released what they released. */
  lemma {:induction false} BatchOffersAll(r: ReceiverState, seqNo: nat, bodies: seq<Payload>, released: seq<Payload>)
    requires AcceptAlone(r, seqNo, bodies, released).err.None?
    ensures var b, frames := AcceptAlone(r, seqNo, bodies, released), BatchFrames(seqNo, bodies);
            b.after == OfferAll(r, frames) && b.released == released + Released(r, frames)
    decreases |bodies|
  {
    if |bodies| == 0 {
    } else {
      var a := Offer(r, seqNo, bodies[0]);
      assert bodies[0..] == bodies;
      AloneOneMore(r, seqNo, bodies, 0, released);
      BatchOffersAll(a.after, seqNo + 1, bodies[1..], released + a.ready);
      FirstOfBatch(r, seqNo, bodies);
      Joins(released, a.ready, Released(a.after, BatchFrames(seqNo + 1, bodies[1..])));
    }
  }

  /** A batch that reaches down to the gap is applied to its end, whatever another session does
      meanwhile. */
  lemma {:induction false} BatchCatchesUp(r: ReceiverState, seqNo: nat, bodies: seq<Payload>, others: seq<seq<Entry>>,
                                          released: seq<Payload>)
    requires |others| == |bodies| && Consistent(r) && 0 < seqNo <= r.acked + 1
    ensures var b := AcceptBatch(r, seqNo, bodies, others, released);
            b.err.None? && b.after.acked + 1 >= seqNo + |bodies| && released <= b.released
    decreases |bodies|
  {
    NoErrorOnceCaughtUp(r, seqNo, bodies, others, released);
    if |bodies| > 0 {
      InterferenceAdvances(r, others[0]);
      var q := OfferAll(r, others[0]);
      OfferKeeps(q, seqNo, bodies[0]);
      var a := Offer(q, seqNo, bodies[0]);
      BatchCatchesUp(a.after, seqNo + 1, bodies[1..], others[1..], released + a.ready);
    }
  }

  /** The loop itself, on the receiver object. */
  method HandleEvents(up: Receiver, seqNo: nat, bodies: seq<Payload>)
    returns (released: seq<Payload>, err: Option<AcceptError>)
    requires up.Valid() && seqNo > 0
    modifies up
    ensures up.Valid()
    ensures BatchResult(up.State(), released, err) == AcceptAlone(old(up.State()), seqNo, bodies, [])
    ensures err.Some? ==> released == []
  {
    ghost var whole := AcceptAlone(up.State(), seqNo, bodies, []);
    EarlyReturnDiscardsNothing(up.State(), seqNo, bodies, Quiet(|bodies|));
    released := [];
    var i := 0;
    assert bodies[0..] == bodies;
    while i < |bodies|
      invariant 0 <= i <= |bodies| && up.Valid()
      invariant AcceptAlone(up.State(), seqNo + i, bodies[i..], released) == whole
    {
      AloneOneMore(up.State(), seqNo + i, bodies, i, released);
      var ready, ack, e := up.Accept(seqNo + i, bodies[i]);
      if e.Some? {
        return released, e;
      }
      released := released + ready;
      i := i + 1;
    }
    err := None;
  }
}
