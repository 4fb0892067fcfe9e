/** How one relayed answer is put together from its numbered chunks (internal/hub/hub.go,
    acceptRespond and applyRespondLocked), whatever order they arrive in. */
module RelayAssembly {
  import opened Wire
  import opened Sums

  /** A respond frame. more is false on the last one; status is the relayed HTTP status. */
  datatype Respond = Respond(chunkSeq: nat, status: int, chunk: string, encoding: string, body: string, more: bool)

  /** base64 and JSON stay abstract: any decoder and any notion of a valid body. */
  datatype Codec = Codec(decode: string -> Option<string>, validJson: string -> bool)

  /** maxBody bounds an assembled base64 body; the other two bound what a host may park in all. */
  datatype Limits = Limits(maxBody: nat, maxChunks: nat, maxBytes: nat)

  datatype Pending = Pending(
    nextChunk: nat,
    parked: map<nat, Respond>, parkedBytes: int,
    chunks: string, status: int, statusSet: bool, chunked: bool)

  const UNANSWERED := Pending(0, map[], 0, "", 0, false, false)

  datatype Answer = Answer(status: int, body: string)

  datatype Failure = BadEncoding | BadChunk | BodyTooLarge | NotJson | TooMuchParked

  /** A request is waiting, was answered by its chunk number final, or failed with a 502. */
  datatype Request = Waiting(p: Pending) | Answered(answer: Answer, final: nat) | Failed(why: Failure)

  function WeightOf(f: Respond): int { |f.chunk| + |f.body| }

  predicate Base64Branch(f: Respond) { f.chunk != "" || f.encoding != "" }

  /** Applying the next chunk in order. */
  function ApplyChunk(c: Codec, lim: Limits, p: Pending, f: Respond): Request {
    var p1 := if p.statusSet then p else p.(status := f.status, statusSet := true);
    if Base64Branch(f) then
      if f.encoding != "base64" then Failed(BadEncoding)
      else
        var d := c.decode(f.chunk);
        if d.None? then Failed(BadChunk)
        else if |p.chunks| + |d.value| > lim.maxBody then Failed(BodyTooLarge)
        else Advance(c, p1.(chunked := true, chunks := p.chunks + d.value), f)
    else if f.more || p.chunked || p.nextChunk > 0 then
      Advance(c, p1.(chunked := true, chunks := p.chunks + f.body), f)
    else Advance(c, p1, f)
  }

  /** The chunk's bytes are in: count it and, on the last one, resolve. A lone plain frame is
      handed on as it is. */
  function Advance(c: Codec, p: Pending, f: Respond): Request {
    if f.more then Waiting(p.(nextChunk := f.chunkSeq))
    else if !p.chunked && f.chunkSeq == 1 then Answered(Answer(f.status, f.body), f.chunkSeq)
    else if !c.validJson(p.chunks) then Failed(NotJson)
    else Answered(Answer(p.status, p.chunks), f.chunkSeq)
  }

  function Unparked(p: Pending, k: nat): Pending
    requires k in p.parked
  {
    p.(parked := p.parked - {k}, parkedBytes := p.parkedBytes - WeightOf(p.parked[k]))
  }

  /** Applies parked chunks while the next one is there. */
  function Drain(c: Codec, lim: Limits, r: Request): Request
    decreases if r.Waiting? then |r.p.parked| + 1 else 0
  {
    if r.Waiting? && r.p.nextChunk + 1 in r.p.parked then
      var k := r.p.nextChunk + 1;
      ApplyKeepsParked(c, lim, Unparked(r.p, k), r.p.parked[k]);
      Drain(c, lim, ApplyChunk(c, lim, Unparked(r.p, k), r.p.parked[k]))
    else r
  }

  lemma ApplyKeepsParked(c: Codec, lim: Limits, p: Pending, f: Respond)
    ensures var r := ApplyChunk(c, lim, p, f);
            r.Waiting? ==> r.p.parked == p.parked && r.p.parkedBytes == p.parkedBytes && r.p.nextChunk == f.chunkSeq
  {}

  /** Room for one more parked chunk, given all the host has parked. The test comes before the
      one for a duplicate. */
  predicate Room(lim: Limits, f: Respond, hostChunks: int, hostBytes: int) {
    hostChunks + 1 <= lim.maxChunks && hostBytes + WeightOf(f) <= lim.maxBytes
  }

  function ParkedToo(p: Pending, f: Respond): Pending {
    p.(parked := p.parked[f.chunkSeq := f], parkedBytes := p.parkedBytes + WeightOf(f))
  }

  function AcceptChunk(c: Codec, lim: Limits, p: Pending, f: Respond, hostChunks: int, hostBytes: int): Request {
    if f.chunkSeq <= p.nextChunk then Waiting(p)
    else if f.chunkSeq > p.nextChunk + 1 then
      if !Room(lim, f, hostChunks, hostBytes) then Failed(TooMuchParked)
      else if f.chunkSeq in p.parked then Waiting(p)
      else Waiting(ParkedToo(p, f))
    else Drain(c, lim, ApplyChunk(c, lim, p, f))
  }

  // ---- the parked map ----

  ghost function ParkedWeight(parked: map<nat, Respond>): int { Total(parked, WeightOf) }

  /** Chunks are parked above the gap only, and parkedBytes is their exact weight. */
  ghost predicate ParkedExactly(p: Pending) {
    && (forall k :: k in p.parked ==> k > p.nextChunk + 1 && p.parked[k].chunkSeq == k)
    && p.parkedBytes == ParkedWeight(p.parked)
  }

  /** The same while draining, when the next chunk may be there. */
  ghost predicate ParkedAhead(p: Pending) {
    && (forall k :: k in p.parked ==> k > p.nextChunk && p.parked[k].chunkSeq == k)
    && p.parkedBytes == ParkedWeight(p.parked)
  }

  lemma {:induction false} DrainKeepsParked(c: Codec, lim: Limits, r: Request)
    requires r.Waiting? ==> ParkedAhead(r.p)
    ensures Drain(c, lim, r).Waiting? ==> ParkedExactly(Drain(c, lim, r).p)
    decreases if r.Waiting? then |r.p.parked| + 1 else 0
  {
    if r.Waiting? && r.p.nextChunk + 1 in r.p.parked {
      DrainStepKeepsParked(c, lim, r.p);
      DrainKeepsParked(c, lim, ApplyChunk(c, lim, Unparked(r.p, r.p.nextChunk + 1), r.p.parked[r.p.nextChunk + 1]));
    }
  }

  /** Taking a chunk out of the parked map, or putting one in, keeps the byte count exact. */
  lemma UnparkedIsExact(p: Pending, k: nat)
    requires k in p.parked && p.parkedBytes == ParkedWeight(p.parked)
    ensures Unparked(p, k).parkedBytes == ParkedWeight(Unparked(p, k).parked)
    ensures |Unparked(p, k).parked| < |p.parked|
  {
    TotalWithout(p.parked, WeightOf, k);
    SizeRemove(p.parked, k);
  }

  lemma ParkedTooIsExact(p: Pending, f: Respond)
    requires f.chunkSeq !in p.parked && p.parkedBytes == ParkedWeight(p.parked)
    ensures ParkedToo(p, f).parkedBytes == ParkedWeight(ParkedToo(p, f).parked)
  {
    var parked := ParkedToo(p, f).parked;
    TotalWithout(parked, WeightOf, f.chunkSeq);
    assert parked - {f.chunkSeq} == p.parked;
  }

  lemma DrainStepKeepsParked(c: Codec, lim: Limits, p: Pending)
    requires ParkedAhead(p) && p.nextChunk + 1 in p.parked
    ensures var r := ApplyChunk(c, lim, Unparked(p, p.nextChunk + 1), p.parked[p.nextChunk + 1]);
            r.Waiting? ==> ParkedAhead(r.p) && |r.p.parked| < |p.parked|
  {
    var k := p.nextChunk + 1;
    UnparkedIsExact(p, k);
    ApplyKeepsParked(c, lim, Unparked(p, k), p.parked[k]);
  }

  /** While a request waits, every parked chunk lies beyond the gap and the byte count is exact. */
  lemma AcceptKeepsParked(c: Codec, lim: Limits, p: Pending, f: Respond, hostChunks: int, hostBytes: int)
    requires ParkedExactly(p)
    ensures var r := AcceptChunk(c, lim, p, f, hostChunks, hostBytes);
            r.Waiting? ==> ParkedExactly(r.p) && r.p.nextChunk >= p.nextChunk
  {
    if f.chunkSeq == p.nextChunk + 1 {
      ApplyKeepsParked(c, lim, p, f);
      DrainKeepsParked(c, lim, ApplyChunk(c, lim, p, f));
      DrainAdvances(c, lim, ApplyChunk(c, lim, p, f));
    } else if f.chunkSeq > p.nextChunk + 1 && f.chunkSeq !in p.parked {
      ParkedTooIsExact(p, f);
    }
  }

  lemma {:induction false} DrainAdvances(c: Codec, lim: Limits, r: Request)
    requires r.Waiting? ==> forall k :: k in r.p.parked ==> r.p.parked[k].chunkSeq == k
    ensures Drain(c, lim, r).Waiting? ==> r.Waiting? && Drain(c, lim, r).p.nextChunk >= r.p.nextChunk
    decreases if r.Waiting? then |r.p.parked| + 1 else 0
  {
    if r.Waiting? && r.p.nextChunk + 1 in r.p.parked {
      var k := r.p.nextChunk + 1;
      ApplyKeepsParked(c, lim, Unparked(r.p, k), r.p.parked[k]);
      DrainAdvances(c, lim, ApplyChunk(c, lim, Unparked(r.p, k), r.p.parked[k]));
    }
  }

  // ---- independence of the order of arrival ----

  /** One frame of any kind, with what the whole host has parked when it arrives. */
  datatype Delivery = Delivery(frame: Respond, hostChunks: int, hostBytes: int)

  function Deliver(c: Codec, lim: Limits, r: Request, d: Delivery): Request {
    if r.Waiting? then AcceptChunk(c, lim, r.p, d.frame, d.hostChunks, d.hostBytes) else r
  }

  /** What a chunk contributes: its decoded bytes, or its plain body. */
  function Piece(c: Codec, f: Respond): string {
    if !Base64Branch(f) then f.body
    else
      var d := c.decode(f.chunk);
      if d.Some? then d.value else ""
  }

  /** The contributions of the first k chunks. */
  function Assembled(c: Codec, frames: seq<Respond>, k: nat): string
    requires k <= |frames|
    decreases k
  {
    if k == 0 then "" else Assembled(c, frames, k - 1) + Piece(c, frames[k - 1])
  }

  /** A base64 chunk that can be applied: it decodes, and with all before it fits the cap. A plain
      one is always applied. */
  predicate Applicable(c: Codec, lim: Limits, frames: seq<Respond>, i: nat)
    requires i < |frames|
  {
    Base64Branch(frames[i]) ==>
      && frames[i].encoding == "base64" && c.decode(frames[i].chunk).Some?
      && |Assembled(c, frames, i + 1)| <= lim.maxBody
  }

  /** A whole answer: n numbered chunks, base64 or plain, that can be applied one after the other
      and form a valid body. The body of a lone plain frame is not looked at. */
  predicate Answerable(c: Codec, lim: Limits, frames: seq<Respond>) {
    && |frames| > 0
    && (forall i :: 0 <= i < |frames| ==> frames[i].chunkSeq == i + 1 && frames[i].more == (i < |frames| - 1))
    && (forall i :: 0 <= i < |frames| ==> Applicable(c, lim, frames, i))
    && (c.validJson(Assembled(c, frames, |frames|)) || (|frames| == 1 && !Base64Branch(frames[0])))
  }

  /** Where a request stands once exactly the chunks in seen have arrived. */
  ghost predicate Reached(c: Codec, lim: Limits, frames: seq<Respond>, seen: set<nat>, r: Request)
    requires Answerable(c, lim, frames)
  {
    match r
    case Waiting(p) => Midway(c, frames, seen, p) && p.nextChunk + 1 !in seen
    case Answered(a, final) =>
      && final == |frames| && a == Answer(frames[0].status, Assembled(c, frames, |frames|))
      && forall i :: 1 <= i <= |frames| ==> i in seen
    case Failed(_) => false
  }

  ghost predicate Midway(c: Codec, frames: seq<Respond>, seen: set<nat>, p: Pending)
    requires |frames| > 0
  {
    && p.nextChunk < |frames|
    && p.chunks == Assembled(c, frames, p.nextChunk)
    && p.statusSet == p.chunked == (p.nextChunk > 0)
    && (p.nextChunk > 0 ==> p.status == frames[0].status)
    && (forall i :: 1 <= i <= p.nextChunk ==> i in seen)
    && (forall i :: i in p.parked <==> i in seen && i > p.nextChunk)
    && (forall i :: i in p.parked ==> i <= |frames| && p.parked[i] == frames[i - 1])
  }

  /** The request once the next chunk, so far parked, has been applied. */
  function MovedOn(c: Codec, frames: seq<Respond>, q: Pending): Pending
    requires q.nextChunk < |frames|
  {
    q.(nextChunk := q.nextChunk + 1, chunks := Assembled(c, frames, q.nextChunk + 1), status := frames[0].status,
       statusSet := true, chunked := true)
  }

  lemma MovedOnIsMidway(c: Codec, frames: seq<Respond>, seen: set<nat>, p: Pending)
    requires |frames| > 0 && Midway(c, frames, seen, p) && p.nextChunk + 1 in p.parked && p.nextChunk + 1 < |frames|
    ensures Midway(c, frames, seen, MovedOn(c, frames, Unparked(p, p.nextChunk + 1)))
  {}

  /** What applying the next chunk comes to. */
  lemma AppliedChunk(c: Codec, lim: Limits, frames: seq<Respond>, q: Pending)
    requires Answerable(c, lim, frames) && q.nextChunk < |frames|
    requires q.chunks == Assembled(c, frames, q.nextChunk)
    requires q.statusSet == q.chunked == (q.nextChunk > 0) && (q.nextChunk > 0 ==> q.status == frames[0].status)
    ensures var k := q.nextChunk + 1;
            ApplyChunk(c, lim, q, frames[k - 1]) ==
              if k < |frames| then Waiting(MovedOn(c, frames, q))
              else Answered(Answer(frames[0].status, Assembled(c, frames, k)), k)
  {
    assert Applicable(c, lim, frames, q.nextChunk);
  }

  lemma LastIsReached(c: Codec, lim: Limits, frames: seq<Respond>, seen: set<nat>, p: Pending)
    requires Answerable(c, lim, frames) && Midway(c, frames, seen, p)
    requires p.nextChunk + 1 == |frames| && |frames| in seen
    ensures Reached(c, lim, frames, seen, Answered(Answer(frames[0].status, Assembled(c, frames, |frames|)), |frames|))
  {}

  /** Applying the next chunk of an answer moves one chunk on, and the last one answers. */
  lemma ApplyNext(c: Codec, lim: Limits, frames: seq<Respond>, seen: set<nat>, p: Pending)
    requires Answerable(c, lim, frames) && Midway(c, frames, seen, p)
    requires p.nextChunk + 1 in seen && p.nextChunk + 1 in p.parked
    ensures var k := p.nextChunk + 1;
            var r := ApplyChunk(c, lim, Unparked(p, k), frames[k - 1]);
            if k < |frames| then r.Waiting? && r.p.nextChunk == k && Midway(c, frames, seen, r.p)
            else Reached(c, lim, frames, seen, r)
  {
    AppliedChunk(c, lim, frames, Unparked(p, p.nextChunk + 1));
    if p.nextChunk + 1 < |frames| {
      MovedOnIsMidway(c, frames, seen, p);
    } else {
      LastIsReached(c, lim, frames, seen, p);
    }
  }

  lemma {:induction false} DrainReaches(c: Codec, lim: Limits, frames: seq<Respond>, seen: set<nat>, p: Pending)
    requires Answerable(c, lim, frames) && Midway(c, frames, seen, p)
    ensures Reached(c, lim, frames, seen, Drain(c, lim, Waiting(p)))
    decreases |frames| - p.nextChunk
  {
    var k := p.nextChunk + 1;
    if k in p.parked {
      ApplyNext(c, lim, frames, seen, p);
      var r := ApplyChunk(c, lim, Unparked(p, k), frames[k - 1]);
      if k < |frames| {
        DrainReaches(c, lim, frames, seen, r.p);
      }
    }
  }

  /** A first chunk arriving in order is as good as one parked and drained at once. */
  lemma ArrivingIsUnparking(c: Codec, lim: Limits, p: Pending, f: Respond)
    requires f.chunkSeq == p.nextChunk + 1 && f.chunkSeq !in p.parked
    ensures Drain(c, lim, ApplyChunk(c, lim, p, f))
         == Drain(c, lim, Waiting(ParkedToo(p, f)))
  {
    var q := ParkedToo(p, f);
    assert Unparked(q, f.chunkSeq) == p by {
      assert p.parked[f.chunkSeq := f] - {f.chunkSeq} == p.parked;
    }
  }

  /** Parking a chunk not yet seen. */
  lemma ParkingSeen(c: Codec, frames: seq<Respond>, seen: set<nat>, p: Pending, i: nat)
    requires 1 <= i <= |frames| && frames[i - 1].chunkSeq == i
    requires Midway(c, frames, seen, p) && i > p.nextChunk && i !in seen
    ensures Midway(c, frames, seen + {i}, ParkedToo(p, frames[i - 1]))
  {}

  lemma ArrivalReaches(c: Codec, lim: Limits, frames: seq<Respond>, seen: set<nat>, p: Pending, i: nat,
                       hostChunks: int, hostBytes: int)
    requires Answerable(c, lim, frames) && Reached(c, lim, frames, seen, Waiting(p)) && 1 <= i <= |frames|
    requires i > p.nextChunk + 1 ==> Room(lim, frames[i - 1], hostChunks, hostBytes)
    ensures Reached(c, lim, frames, seen + {i}, AcceptChunk(c, lim, p, frames[i - 1], hostChunks, hostBytes))
  {
    var f := frames[i - 1];
    if i == p.nextChunk + 1 {
      ArrivingIsUnparking(c, lim, p, f);
      ParkingSeen(c, frames, seen, p, i);
      DrainReaches(c, lim, frames, seen + {i}, ParkedToo(p, f));
    } else if i in seen {
      assert seen + {i} == seen;
    } else {
      ParkingSeen(c, frames, seen, p, i);
    }
  }

  /** One arrival of an answer's chunk: which one, and what the whole host has parked at that moment. */
  datatype Arrival = Arrival(index: nat, hostChunks: int, hostBytes: int)

  function Arrive(c: Codec, lim: Limits, frames: seq<Respond>, r: Request, a: Arrival): Request
    requires 1 <= a.index <= |frames|
  {
    Deliver(c, lim, r, Delivery(frames[a.index - 1], a.hostChunks, a.hostBytes))
  }

  predicate FromAnswer(frames: seq<Respond>, arrivals: seq<Arrival>) {
    forall i :: 0 <= i < |arrivals| ==> 1 <= arrivals[i].index <= |frames|
  }

  function ArriveAll(c: Codec, lim: Limits, frames: seq<Respond>, r: Request, arrivals: seq<Arrival>): Request
    requires FromAnswer(frames, arrivals)
    decreases |arrivals|
  {
    if |arrivals| == 0 then r
    else ArriveAll(c, lim, frames, Arrive(c, lim, frames, r, arrivals[0]), arrivals[1..])
  }

  /** Every out-of-order arrival found room. */
  predicate InBudget(c: Codec, lim: Limits, frames: seq<Respond>, r: Request, arrivals: seq<Arrival>)
    requires FromAnswer(frames, arrivals)
    decreases |arrivals|
  {
    |arrivals| == 0 ||
    (&& (r.Waiting? && arrivals[0].index > r.p.nextChunk + 1 ==>
           Room(lim, frames[arrivals[0].index - 1], arrivals[0].hostChunks, arrivals[0].hostBytes))
     && InBudget(c, lim, frames, Arrive(c, lim, frames, r, arrivals[0]), arrivals[1..]))
  }

  function Seen(arrivals: seq<Arrival>): set<nat> { set i | 0 <= i < |arrivals| :: arrivals[i].index }

  lemma OneArrivalReaches(c: Codec, lim: Limits, frames: seq<Respond>, seen: set<nat>, r: Request, a: Arrival)
    requires Answerable(c, lim, frames) && Reached(c, lim, frames, seen, r) && 1 <= a.index <= |frames|
    requires r.Waiting? && a.index > r.p.nextChunk + 1 ==> Room(lim, frames[a.index - 1], a.hostChunks, a.hostBytes)
    ensures Reached(c, lim, frames, seen + {a.index}, Arrive(c, lim, frames, r, a))
  {
    if r.Waiting? {
      ArrivalReaches(c, lim, frames, seen, r.p, a.index, a.hostChunks, a.hostBytes);
    }
  }

  lemma {:induction false} ArrivalsReach(c: Codec, lim: Limits, frames: seq<Respond>, seen: set<nat>, r: Request,
                                         arrivals: seq<Arrival>)
    requires Answerable(c, lim, frames) && FromAnswer(frames, arrivals)
    requires Reached(c, lim, frames, seen, r) && InBudget(c, lim, frames, r, arrivals)
    ensures Reached(c, lim, frames, seen + Seen(arrivals), ArriveAll(c, lim, frames, r, arrivals))
    decreases |arrivals|
  {
    if |arrivals| == 0 {
      assert seen + Seen(arrivals) == seen;
    } else {
      var a := arrivals[0];
      OneArrivalReaches(c, lim, frames, seen, r, a);
      ArrivalsReach(c, lim, frames, seen + {a.index}, Arrive(c, lim, frames, r, a), arrivals[1..]);
      SeenSplit(arrivals);
      assert seen + {a.index} + Seen(arrivals[1..]) == seen + Seen(arrivals);
    }
  }

  lemma SeenSplit(arrivals: seq<Arrival>)
    requires |arrivals| > 0
    ensures Seen(arrivals) == {arrivals[0].index} + Seen(arrivals[1..])
  {
    forall x | x in Seen(arrivals) ensures x in {arrivals[0].index} + Seen(arrivals[1..]) {
      var i :| 0 <= i < |arrivals| && arrivals[i].index == x;
      if i > 0 {
        assert arrivals[1..][i - 1].index == x;
      }
    }
    forall x | x in Seen(arrivals[1..]) ensures x in Seen(arrivals) {
      var i :| 0 <= i < |arrivals[1..]| && arrivals[1..][i].index == x;
      assert arrivals[i + 1].index == x;
    }
  }

  /** Assembly does not depend on the order of arrival: any order, with any repetition, that stays
      inside the parked budgets answers exactly when every chunk has arrived, and then with the
      first chunk's status and all the chunks in order. */
  lemma AnyOrderGivesTheAnswer(c: Codec, lim: Limits, frames: seq<Respond>, arrivals: seq<Arrival>)
    requires Answerable(c, lim, frames) && FromAnswer(frames, arrivals)
    requires InBudget(c, lim, frames, Waiting(UNANSWERED), arrivals)
    ensures var r := ArriveAll(c, lim, frames, Waiting(UNANSWERED), arrivals);
            && !r.Failed?
            && (r.Answered? <==> forall i :: 1 <= i <= |frames| ==> i in Seen(arrivals))
            && (r.Answered? ==> r == Answered(Answer(frames[0].status, Assembled(c, frames, |frames|)), |frames|))
  {
    var none: set<nat> := {};
    ArrivalsReach(c, lim, frames, none, Waiting(UNANSWERED), arrivals);
    assert none + Seen(arrivals) == Seen(arrivals);
  }

  /** So an answer is over the body cap exactly when all its chunks together are. Base64 chunks see
      to it that they are not; plain bodies at the end, direct or drained, can take it there. */
  lemma AnswerOverCapExactlyWhen(c: Codec, lim: Limits, frames: seq<Respond>, arrivals: seq<Arrival>)
    requires Answerable(c, lim, frames) && FromAnswer(frames, arrivals)
    requires InBudget(c, lim, frames, Waiting(UNANSWERED), arrivals)
    requires forall i :: 1 <= i <= |frames| ==> i in Seen(arrivals)
    ensures var r := ArriveAll(c, lim, frames, Waiting(UNANSWERED), arrivals);
            && r.Answered?
            && (|r.answer.body| > lim.maxBody <==> |Assembled(c, frames, |frames|)| > lim.maxBody)
            && (|r.answer.body| > lim.maxBody ==> !Base64Branch(frames[|frames| - 1]))
  {
    AnyOrderGivesTheAnswer(c, lim, frames, arrivals);
    assert Applicable(c, lim, frames, |frames| - 1);
  }

  /** Two plain chunks suffice, in either order: the first fits the cap, both together do not, and
      the caller gets both. */
  lemma PlainAnswerBreaksCap(c: Codec, lim: Limits, first: Respond, second: Respond, parkFirst: bool)
    requires !Base64Branch(first) && first.chunkSeq == 1 && first.more
    requires !Base64Branch(second) && second.chunkSeq == 2 && !second.more
    requires |first.body| <= lim.maxBody < |first.body + second.body| && c.validJson(first.body + second.body)
    requires parkFirst ==> Room(lim, second, 0, 0)
    ensures var one, two := Delivery(first, 0, 0), Delivery(second, 0, 0);
            DeliverAll(c, lim, Waiting(UNANSWERED), if parkFirst then [two, one] else [one, two])
              == Answered(Answer(first.status, first.body + second.body), 2)
  {
    var frames := [first, second];
    var a := if parkFirst then Arrival(2, 0, 0) else Arrival(1, 0, 0);
    var b := if parkFirst then Arrival(1, 0, 0) else Arrival(2, 0, 0);
    assert Assembled(c, frames, 1) == first.body;
    assert Assembled(c, frames, 2) == first.body + second.body;
    TwoArrivals(c, lim, frames, a, b);
    var x, y := Delivery(frames[a.index - 1], 0, 0), Delivery(frames[b.index - 1], 0, 0);
    TwoDeliveries(c, lim, Waiting(UNANSWERED), x, y);
    var one, two := Delivery(first, 0, 0), Delivery(second, 0, 0);
    assert [x, y] == if parkFirst then [two, one] else [one, two];
  }

  lemma TwoDeliveries(c: Codec, lim: Limits, r: Request, x: Delivery, y: Delivery)
    ensures DeliverAll(c, lim, r, [x, y]) == Deliver(c, lim, Deliver(c, lim, r, x), y)
  {
    var both, last, q := [x, y], [y], Deliver(c, lim, r, x);
    assert both[1..] == last && |last[1..]| == 0;
    assert DeliverAll(c, lim, r, both) == DeliverAll(c, lim, q, last);
    assert DeliverAll(c, lim, q, last) == DeliverAll(c, lim, Deliver(c, lim, q, y), last[1..]);
  }

  lemma TwoArrivals(c: Codec, lim: Limits, frames: seq<Respond>, a: Arrival, b: Arrival)
    requires Answerable(c, lim, frames) && |frames| == 2 && {a.index, b.index} == {1, 2}
    requires a.index == 2 ==> Room(lim, frames[1], a.hostChunks, a.hostBytes)
    ensures Arrive(c, lim, frames, Arrive(c, lim, frames, Waiting(UNANSWERED), a), b)
         == Answered(Answer(frames[0].status, Assembled(c, frames, 2)), 2)
  {
    var none: set<nat> := {};
    var r := Arrive(c, lim, frames, Waiting(UNANSWERED), a);
    OneArrivalReaches(c, lim, frames, none, Waiting(UNANSWERED), a);
    assert none + {a.index} + {b.index} == {1, 2};
    OneArrivalReaches(c, lim, frames, none + {a.index}, r, b);
    BothReached(c, lim, frames, Arrive(c, lim, frames, r, b));
  }

  lemma BothReached(c: Codec, lim: Limits, frames: seq<Respond>, r: Request)
    requires Answerable(c, lim, frames) && |frames| == 2 && Reached(c, lim, frames, {1, 2}, r)
    ensures r == Answered(Answer(frames[0].status, Assembled(c, frames, 2)), 2)
  {}

  // ---- where the code does less ----

  /** A chunk ahead of its turn fails its request exactly when one more does not fit what the whole
      host may park, in number or in bytes. */
  lemma TooMuchParkedExactlyWhen(c: Codec, lim: Limits, p: Pending, f: Respond, hostChunks: int, hostBytes: int)
    requires f.chunkSeq > p.nextChunk + 1
    ensures AcceptChunk(c, lim, p, f, hostChunks, hostBytes) == Failed(TooMuchParked) <==>
              hostChunks >= lim.maxChunks || hostBytes + |f.chunk| + |f.body| > lim.maxBytes
  {}

  /** A re-sent chunk that is already parked is harmless exactly when there would have been room
      for it a second time: at a full budget it fails the request. */
  lemma ResentParkedChunk(c: Codec, lim: Limits, p: Pending, f: Respond, hostChunks: int, hostBytes: int)
    requires f.chunkSeq > p.nextChunk + 1 && f.chunkSeq in p.parked
    ensures AcceptChunk(c, lim, p, f, hostChunks, hostBytes) == Waiting(p) <==> Room(lim, f, hostChunks, hostBytes)
    ensures !Room(lim, f, hostChunks, hostBytes) ==>
      AcceptChunk(c, lim, p, f, hostChunks, hostBytes) == Failed(TooMuchParked)
  {}

  function DeliverAll(c: Codec, lim: Limits, r: Request, frames: seq<Delivery>): Request
    decreases |frames|
  {
    if |frames| == 0 then r else DeliverAll(c, lim, Deliver(c, lim, r, frames[0]), frames[1..])
  }

  lemma {:induction false} DeliverOneMore(c: Codec, lim: Limits, r: Request, frames: seq<Delivery>, d: Delivery)
    ensures DeliverAll(c, lim, r, frames + [d]) == Deliver(c, lim, DeliverAll(c, lim, r, frames), d)
    decreases |frames|
  {
    if |frames| == 0 {
      assert (frames + [d])[1..] == frames;
    } else {
      assert (frames + [d])[1..] == frames[1..] + [d];
      DeliverOneMore(c, lim, Deliver(c, lim, r, frames[0]), frames[1..], d);
    }
  }

  /** Chunks 2, 3, ... of an answer whose first chunk is missing. */
  predicate Early(frames: seq<Respond>) { forall i :: 0 <= i < |frames| ==> frames[i].chunkSeq == i + 2 }

  function WeightOfAll(frames: seq<Respond>, k: nat): int
    requires k <= |frames|
  {
    if k == 0 then 0 else WeightOfAll(frames, k - 1) + WeightOf(frames[k - 1])
  }

  /** The first k of them arriving at a host with no other request pending. */
  function EarlyOnly(frames: seq<Respond>, k: nat): seq<Delivery>
    requires k <= |frames|
  {
    if k == 0 then [] else EarlyOnly(frames, k - 1) + [Delivery(frames[k - 1], k - 1, WeightOfAll(frames, k - 1))]
  }

  lemma {:induction false} EarlyChunksPark(c: Codec, lim: Limits, frames: seq<Respond>, k: nat)
    requires Early(frames) && k <= |frames| <= lim.maxChunks
    requires forall j :: 0 <= j <= k ==> WeightOfAll(frames, j) <= lim.maxBytes
    ensures var r := DeliverAll(c, lim, Waiting(UNANSWERED), EarlyOnly(frames, k));
            && r.Waiting? && r.p.nextChunk == 0
            && |r.p.parked| == k && r.p.parkedBytes == WeightOfAll(frames, k)
            && forall j :: j in r.p.parked <==> 2 <= j <= k + 1
    decreases k
  {
    if k == 0 {
    } else {
      EarlyChunksPark(c, lim, frames, k - 1);
      var r := DeliverAll(c, lim, Waiting(UNANSWERED), EarlyOnly(frames, k - 1));
      DeliverOneMore(c, lim, Waiting(UNANSWERED), EarlyOnly(frames, k - 1),
                     Delivery(frames[k - 1], k - 1, WeightOfAll(frames, k - 1)));
      SizePut(r.p.parked, k + 1, frames[k - 1]);
      var d := Delivery(frames[k - 1], k - 1, WeightOfAll(frames, k - 1));
      assert Room(lim, frames[k - 1], d.hostChunks, d.hostBytes) by {
        assert WeightOfAll(frames, k) == d.hostBytes + WeightOf(frames[k - 1]);
      }
      assert Deliver(c, lim, r, d) == Waiting(ParkedToo(r.p, frames[k - 1]));
    }
  }

  /** And a run reaches that input: a fresh request that parks early chunks up to the limit fails
      when any one of them is sent again. */
  lemma ResentChunkFails(c: Codec, lim: Limits, frames: seq<Respond>, again: nat)
    requires Early(frames) && again < |frames| == lim.maxChunks
    requires forall j :: 0 <= j <= |frames| ==> WeightOfAll(frames, j) <= lim.maxBytes
    ensures var n := |frames|;
            DeliverAll(c, lim, Waiting(UNANSWERED),
              EarlyOnly(frames, n) + [Delivery(frames[again], n, WeightOfAll(frames, n))])
              == Failed(TooMuchParked)
  {
    var n := |frames|;
    EarlyChunksPark(c, lim, frames, n);
    DeliverOneMore(c, lim, Waiting(UNANSWERED), EarlyOnly(frames, n),
                   Delivery(frames[again], n, WeightOfAll(frames, n)));
  }

  function BodySoFar(r: Request): string {
    match r
    case Waiting(p) => p.chunks
    case Answered(a, _) => a.body
    case Failed(_) => ""
  }

  /** A base64 chunk never takes an answer over the body cap. */
  lemma Base64StaysCapped(c: Codec, lim: Limits, p: Pending, f: Respond)
    requires Base64Branch(f) && |p.chunks| <= lim.maxBody
    ensures |BodySoFar(ApplyChunk(c, lim, p, f))| <= lim.maxBody
  {}

  /** The chunk that is next, carrying a plain body, takes the answer over the cap. */
  predicate BreaksCap(c: Codec, lim: Limits, p: Pending, f: Respond) {
    if f.more || p.chunked || p.nextChunk > 0
    then |p.chunks| + |f.body| > lim.maxBody && (f.more || c.validJson(p.chunks + f.body))
    else |f.body| > lim.maxBody
  }

  /** The cap is not checked on plain bodies, step by step: the chunk that is next, arriving or
      drained, breaks it if it continues or ends an answer exactly when the two lengths do, and at
      the end the body is valid; a lone one exactly when its own
      body is longer. */
  lemma PlainChunkBreaksCapExactlyWhen(c: Codec, lim: Limits, p: Pending, f: Respond)
    requires !Base64Branch(f) && f.chunkSeq == p.nextChunk + 1 && |p.chunks| <= lim.maxBody
    ensures |BodySoFar(ApplyChunk(c, lim, p, f))| > lim.maxBody <==> BreaksCap(c, lim, p, f)
  {}

  /** The body is within the cap, and nothing but base64 chunks is parked. */
  predicate Capped(lim: Limits, r: Request) {
    && |BodySoFar(r)| <= lim.maxBody
    && (r.Waiting? ==> forall k :: k in r.p.parked ==> Base64Branch(r.p.parked[k]))
  }

  lemma {:induction false} DrainStaysCapped(c: Codec, lim: Limits, r: Request)
    requires Capped(lim, r) && (r.Waiting? ==> forall k :: k in r.p.parked ==> r.p.parked[k].chunkSeq == k)
    ensures Capped(lim, Drain(c, lim, r))
    decreases if r.Waiting? then |r.p.parked| + 1 else 0
  {
    if r.Waiting? && r.p.nextChunk + 1 in r.p.parked {
      var k := r.p.nextChunk + 1;
      ApplyKeepsParked(c, lim, Unparked(r.p, k), r.p.parked[k]);
      SizeRemove(r.p.parked, k);
      Base64StaysCapped(c, lim, Unparked(r.p, k), r.p.parked[k]);
      DrainStaysCapped(c, lim, ApplyChunk(c, lim, Unparked(r.p, k), r.p.parked[k]));
    }
  }

  /** Whatever base64 chunks arrive, in any order and however malformed, parked or not, an answer
      made of them never exceeds the body cap. */
  lemma {:induction false} Base64AnswersStayCapped(c: Codec, lim: Limits, r: Request, frames: seq<Delivery>)
    requires Capped(lim, r) && (r.Waiting? ==> ParkedExactly(r.p))
    requires forall i :: 0 <= i < |frames| ==> Base64Branch(frames[i].frame)
    ensures |BodySoFar(DeliverAll(c, lim, r, frames))| <= lim.maxBody
    decreases |frames|
  {
    if |frames| == 0 {
    } else {
      var d := frames[0];
      if r.Waiting? {
        AcceptKeepsParked(c, lim, r.p, d.frame, d.hostChunks, d.hostBytes);
        AcceptStaysCapped(c, lim, r.p, d);
      }
      Base64AnswersStayCapped(c, lim, Deliver(c, lim, r, d), frames[1..]);
    }
  }

  lemma AcceptStaysCapped(c: Codec, lim: Limits, p: Pending, d: Delivery)
    requires Capped(lim, Waiting(p)) && ParkedExactly(p) && Base64Branch(d.frame)
    ensures Capped(lim, AcceptChunk(c, lim, p, d.frame, d.hostChunks, d.hostBytes))
  {
    if d.frame.chunkSeq == p.nextChunk + 1 {
      Base64StaysCapped(c, lim, p, d.frame);
      ApplyKeepsParked(c, lim, p, d.frame);
      DrainStaysCapped(c, lim, ApplyChunk(c, lim, p, d.frame));
    }
  }
}
