/** Frames in any order: what a receiver holds depends only on which numbers have reached it
    (wire/receiver.go). */
module Reordering {
  import opened Wire
  import opened Receiving
  import opened Events
  import opened Sums

  /** The receiver that was at base stands where the numbers heard since, those and no others,
      put it: at the end of the gap-free run, with the rest parked under their own numbers. */
  ghost predicate Stands(r: ReceiverState, base: nat, heard: set<nat>, stream: seq<Payload>) {
    && base <= r.acked < |stream|
    && (forall k :: k in heard ==> base < k < |stream|)
    && (forall k :: base < k <= r.acked ==> k in heard) && r.acked + 1 !in heard
    && (forall k :: k in r.buf <==> k in heard && k > r.acked)
    && (forall k :: k in r.buf ==> r.buf[k] == stream[k])
  }

  /** The numbers that wait behind a gap. */
  function Ahead(heard: set<nat>, gap: nat): set<nat> { set k | k in heard && k > gap }

  /** One frame more. It is refused exactly when its number is 0, or when it is new, lies beyond the
      gap and the window is full of such frames; otherwise it counts as heard. */
  lemma OneMoreHeard(r: ReceiverState, base: nat, heard: set<nat>, e: Entry, stream: seq<Payload>)
    requires Consistent(r) && Stands(r, base, heard, stream)
    requires e.seqNo < |stream| && e.payload == stream[e.seqNo]
    ensures var a := Offer(r, e.seqNo, e.payload);
            && (a.err == Some(SeqZero) <==> e.seqNo == 0)
            && (a.err == Some(Overflow) <==>
                  e.seqNo > r.acked + 1 && e.seqNo !in heard && |Ahead(heard, r.acked + 1)| >= r.window)
            && (a.err.Some? ==> a.after == r)
            && (a.err.None? ==>
                  Stands(a.after, base, if e.seqNo > base then heard + {e.seqNo} else heard, stream))
  {
    OfferKeeps(r, e.seqNo, e.payload);
    OfferReleasesRange(r, e, stream);
    ParkedAreAhead(r, base, heard, stream);
    if e.seqNo == r.acked + 1 {
      GapCloses(r, base, heard, e, stream);
    }
  }

  lemma ParkedAreAhead(r: ReceiverState, base: nat, heard: set<nat>, stream: seq<Payload>)
    requires Stands(r, base, heard, stream)
    ensures r.buf.Keys == Ahead(heard, r.acked + 1) && |r.buf| == |Ahead(heard, r.acked + 1)|
  {
    KeysSize(r.buf);
  }

  lemma GapCloses(r: ReceiverState, base: nat, heard: set<nat>, e: Entry, stream: seq<Payload>)
    requires Consistent(r) && Stands(r, base, heard, stream)
    requires e.seqNo == r.acked + 1 < |stream| && e.payload == stream[e.seqNo]
    ensures Stands(Offer(r, e.seqNo, e.payload).after, base, heard + {e.seqNo}, stream)
  {
    OfferReleasesRange(r, e, stream);
    var end := ReleasesRun(r, e);
    RunEnds(r, base, heard, stream, end);
  }

  lemma ReleasesRun(r: ReceiverState, e: Entry) returns (end: nat)
    requires e.seqNo == r.acked + 1
    ensures Offer(r, e.seqNo, e.payload).after == ReceiverState(end, r.window, Parked(r.buf, end))
    ensures r.acked < end && end + 1 !in r.buf && forall k :: r.acked + 1 < k <= end ==> k in r.buf
  {
    RunBehindIsLongest(r.buf, e.seqNo);
    end := e.seqNo + |RunBehind(r.buf, e.seqNo)|;
  }

  lemma RunEnds(r: ReceiverState, base: nat, heard: set<nat>, stream: seq<Payload>, end: nat)
    requires Stands(r, base, heard, stream) && r.acked < end < |stream|
    requires end + 1 !in r.buf && forall k :: r.acked + 1 < k <= end ==> k in r.buf
    ensures Stands(ReceiverState(end, r.window, Parked(r.buf, end)), base, heard + {r.acked + 1}, stream)
  {
    var more := heard + {r.acked + 1};
    forall k | base < k <= end ensures k in more {
      if k > r.acked + 1 {
        assert k in r.buf;
      }
    }
  }

  /** No frame of the stream is refused. */
  predicate NoneRefused(r: ReceiverState, frames: seq<Entry>)
    decreases |frames|
  {
    |frames| == 0 ||
      var a := Offer(r, frames[0].seqNo, frames[0].payload);
      a.err.None? && NoneRefused(a.after, frames[1..])
  }

  /** The numbers above base among the frames. */
  function NumbersOf(frames: seq<Entry>, base: nat): set<nat> {
    set i | 0 <= i < |frames| && frames[i].seqNo > base :: frames[i].seqNo
  }

  /** Frames within reach of the window: at most window + 1 numbers above base. */
  predicate InReach(base: nat, window: nat, frames: seq<Entry>, stream: seq<Payload>) {
    |stream| <= base + window + 2 && FromStream(frames, stream) && forall i :: 0 <= i < |frames| ==> frames[i].seqNo > 0
  }

  lemma {:induction false} FewerThan(s: set<nat>, a: nat, b: nat)
    requires a < b && forall k :: k in s ==> a < k < b
    ensures |s| < b - a
    decreases b
  {
    if b == a + 1 {
      assert s == {};
    } else {
      FewerThan(s - {b - 1}, a, b - 1);
      assert s <= s - {b - 1} + {b - 1};
      SizeSubset(s, s - {b - 1} + {b - 1});
    }
  }

  lemma AheadFits(heard: set<nat>, gap: nat, e: nat, n: nat)
    requires gap < e < n && e !in heard && forall k :: k in heard ==> k < n
    ensures |Ahead(heard, gap)| + 1 < n - gap
  {
    FewerThan(Ahead(heard, gap) + {e}, gap, n);
    assert |Ahead(heard, gap) + {e}| == |Ahead(heard, gap)| + 1;
  }

  lemma HeardFirst(frames: seq<Entry>, base: nat, heard: set<nat>)
    requires |frames| > 0
    ensures (if frames[0].seqNo > base then heard + {frames[0].seqNo} else heard) + NumbersOf(frames[1..], base)
         == heard + NumbersOf(frames, base)
  {
    var rest := frames[1..];
    forall k | k in NumbersOf(frames, base) ensures k == frames[0].seqNo || k in NumbersOf(rest, base) {
      var i :| 0 <= i < |frames| && frames[i].seqNo > base && frames[i].seqNo == k;
      if i > 0 {
        assert rest[i - 1] == frames[i];
      }
    }
    forall k | k in NumbersOf(rest, base) ensures k in NumbersOf(frames, base) {
      var i :| 0 <= i < |rest| && rest[i].seqNo > base && rest[i].seqNo == k;
      assert frames[i + 1] == rest[i];
    }
  }

  lemma {:induction false} AllHeard(r: ReceiverState, base: nat, heard: set<nat>, frames: seq<Entry>,
                                    stream: seq<Payload>)
    requires Consistent(r) && Stands(r, base, heard, stream) && InReach(base, r.window, frames, stream)
    ensures NoneRefused(r, frames)
    ensures Stands(OfferAll(r, frames), base, heard + NumbersOf(frames, base), stream)
    ensures OfferAll(r, frames).window == r.window
    decreases |frames|
  {
    if |frames| == 0 {
      assert heard + NumbersOf(frames, base) == heard;
    } else {
      var e, rest := frames[0], frames[1..];
      var a := Offer(r, e.seqNo, e.payload);
      var more := if e.seqNo > base then heard + {e.seqNo} else heard;
      OfferKeeps(r, e.seqNo, e.payload);
      OneMoreHeard(r, base, heard, e, stream);
      if e.seqNo > r.acked + 1 && e.seqNo !in heard {
        AheadFits(heard, r.acked + 1, e.seqNo, |stream|);
      }
      RestFromStream(frames, stream);
      AllHeard(a.after, base, more, rest, stream);
      HeardFirst(frames, base, heard);
    }
  }

  /** Any order will do: with nothing parked, let the frames be those numbered from above the
      watermark to the end of the stream, in any order and with any repetition, late copies of
      released ones included. If all but the first of them fit the window, none is refused, all
      are released in number order, and nothing stays parked. */
  lemma AnyOrderReleasesAll(r: ReceiverState, frames: seq<Entry>, stream: seq<Payload>)
    requires Consistent(r) && r.buf == map[] && r.acked < |stream| && InReach(r.acked, r.window, frames, stream)
    requires forall k :: r.acked < k < |stream| ==> k in NumbersOf(frames, r.acked)
    ensures NoneRefused(r, frames)
    ensures OfferAll(r, frames) == ReceiverState(|stream| - 1, r.window, map[])
    ensures Released(r, frames) == stream[r.acked + 1..]
  {
    AllHeard(r, r.acked, {}, frames, stream);
    var z := OfferAll(r, frames);
    assert z.acked + 1 < |stream| ==> z.acked + 1 in NumbersOf(frames, r.acked);
    assert z.buf == map[];
    ReleasedIsTheStream(r, frames, stream);
  }

  /** What has arrived settles the state: two orders of the same numbers leave the same receiver. */
  lemma OrderDoesNotShow(r: ReceiverState, a: seq<Entry>, b: seq<Entry>, stream: seq<Payload>)
    requires Consistent(r) && r.buf == map[] && r.acked < |stream|
    requires InReach(r.acked, r.window, a, stream) && InReach(r.acked, r.window, b, stream)
    requires NumbersOf(a, r.acked) == NumbersOf(b, r.acked)
    ensures OfferAll(r, a) == OfferAll(r, b) && Released(r, a) == Released(r, b)
  {
    SameHeard(r, a, b, stream);
    ReleasedIsTheStream(r, a, stream);
    ReleasedIsTheStream(r, b, stream);
  }

  lemma SameHeard(r: ReceiverState, a: seq<Entry>, b: seq<Entry>, stream: seq<Payload>)
    requires Consistent(r) && r.buf == map[] && r.acked < |stream|
    requires InReach(r.acked, r.window, a, stream) && InReach(r.acked, r.window, b, stream)
    requires NumbersOf(a, r.acked) == NumbersOf(b, r.acked)
    ensures OfferAll(r, a) == OfferAll(r, b)
  {
    var none, heard := {}, NumbersOf(a, r.acked);
    AllHeard(r, r.acked, none, a, stream);
    AllHeard(r, r.acked, none, b, stream);
    assert none + heard == heard;
    StandsOnce(OfferAll(r, a), OfferAll(r, b), r.acked, heard, stream);
  }

  lemma StandsOnce(x: ReceiverState, y: ReceiverState, base: nat, heard: set<nat>, stream: seq<Payload>)
    requires Stands(x, base, heard, stream) && Stands(y, base, heard, stream) && x.window == y.window
    ensures x == y
  {
    assert x.acked > y.acked ==> y.acked + 1 in heard;
    assert y.acked > x.acked ==> x.acked + 1 in heard;
    assert x.buf.Keys == y.buf.Keys;
  }
}
