/** When an answer fails while it is put together (internal/hub/hub.go, acceptRespond and
    applyRespondLocked): at its first chunk that cannot be applied, whatever the order of arrival,
    or for want of room. */
module RelayFailures {
  import opened Wire
  import opened RelayAssembly

  /** n numbered chunks, the last of them marked. */
  predicate Numbered(frames: seq<Respond>) {
    && |frames| > 0
    && forall i :: 0 <= i < |frames| ==> frames[i].chunkSeq == i + 1 && frames[i].more == (i < |frames| - 1)
  }

  /** Chunk i cannot be applied although all before it can: its encoding is unknown, it does not
      decode, it takes the body over the cap, or it ends a body that is not valid. A lone plain
      frame is handed on unlooked at. */
  function Flaw(c: Codec, lim: Limits, frames: seq<Respond>, i: nat): Option<Failure>
    requires i < |frames|
  {
    var f, body := frames[i], Assembled(c, frames, i + 1);
    if Base64Branch(f) && f.encoding != "base64" then Some(BadEncoding)
    else if Base64Branch(f) && c.decode(f.chunk).None? then Some(BadChunk)
    else if Base64Branch(f) && |body| > lim.maxBody then Some(BodyTooLarge)
    else if i == |frames| - 1 && !c.validJson(body) && (i > 0 || Base64Branch(f)) then Some(NotJson)
    else None
  }

  /** Chunk bad is the first that cannot be applied. */
  predicate SpoiltAt(c: Codec, lim: Limits, frames: seq<Respond>, bad: nat) {
    && Numbered(frames) && bad < |frames|
    && Flaw(c, lim, frames, bad).Some? && forall i :: 0 <= i < bad ==> Flaw(c, lim, frames, i).None?
  }

  /** Where such a request stands once exactly the chunks in seen have arrived. */
  ghost predicate Doomed(c: Codec, lim: Limits, frames: seq<Respond>, bad: nat, seen: set<nat>, r: Request)
    requires SpoiltAt(c, lim, frames, bad)
  {
    match r
    case Waiting(p) => p.nextChunk <= bad && Midway(c, frames, seen, p) && p.nextChunk + 1 !in seen
    case Answered(_, _) => false
    case Failed(why) => Some(why) == Flaw(c, lim, frames, bad) && forall i :: 1 <= i <= bad + 1 ==> i in seen
  }

  /** What applying the next chunk comes to. */
  lemma AppliedInDoom(c: Codec, lim: Limits, frames: seq<Respond>, bad: nat, q: Pending)
    requires SpoiltAt(c, lim, frames, bad) && q.nextChunk <= bad
    requires q.chunks == Assembled(c, frames, q.nextChunk)
    requires q.statusSet == q.chunked == (q.nextChunk > 0) && (q.nextChunk > 0 ==> q.status == frames[0].status)
    ensures var k := q.nextChunk + 1;
            ApplyChunk(c, lim, q, frames[k - 1]) ==
              if k <= bad then Waiting(MovedOn(c, frames, q))
              else Failed(Flaw(c, lim, frames, bad).value)
  {
    assert q.nextChunk < bad ==> Flaw(c, lim, frames, q.nextChunk).None?;
  }

  lemma NextInDoom(c: Codec, lim: Limits, frames: seq<Respond>, bad: nat, seen: set<nat>, p: Pending)
    requires SpoiltAt(c, lim, frames, bad) && Midway(c, frames, seen, p) && p.nextChunk <= bad
    requires p.nextChunk + 1 in p.parked
    ensures var k := p.nextChunk + 1;
            var r := ApplyChunk(c, lim, Unparked(p, k), frames[k - 1]);
            if k <= bad then r.Waiting? && r.p.nextChunk == k && Midway(c, frames, seen, r.p)
            else Doomed(c, lim, frames, bad, seen, r)
  {
    AppliedInDoom(c, lim, frames, bad, Unparked(p, p.nextChunk + 1));
    if p.nextChunk < bad {
      MovedOnIsMidway(c, frames, seen, p);
    }
  }

  lemma {:induction false} DrainDooms(c: Codec, lim: Limits, frames: seq<Respond>, bad: nat, seen: set<nat>, p: Pending)
    requires SpoiltAt(c, lim, frames, bad) && Midway(c, frames, seen, p) && p.nextChunk <= bad
    ensures Doomed(c, lim, frames, bad, seen, Drain(c, lim, Waiting(p)))
    decreases |frames| - p.nextChunk
  {
    var k := p.nextChunk + 1;
    if k in p.parked {
      NextInDoom(c, lim, frames, bad, seen, p);
      var r := ApplyChunk(c, lim, Unparked(p, k), frames[k - 1]);
      if k <= bad {
        DrainDooms(c, lim, frames, bad, seen, r.p);
      }
    }
  }

  lemma ArrivalDooms(c: Codec, lim: Limits, frames: seq<Respond>, bad: nat, seen: set<nat>, p: Pending, a: Arrival)
    requires SpoiltAt(c, lim, frames, bad) && Doomed(c, lim, frames, bad, seen, Waiting(p)) && 1 <= a.index <= |frames|
    requires a.index > p.nextChunk + 1 ==> Room(lim, frames[a.index - 1], a.hostChunks, a.hostBytes)
    ensures Doomed(c, lim, frames, bad, seen + {a.index},
                   AcceptChunk(c, lim, p, frames[a.index - 1], a.hostChunks, a.hostBytes))
  {
    var i, f := a.index, frames[a.index - 1];
    if i == p.nextChunk + 1 {
      ArrivingIsUnparking(c, lim, p, f);
      ParkingSeen(c, frames, seen, p, i);
      DrainDooms(c, lim, frames, bad, seen + {i}, ParkedToo(p, f));
    } else if i in seen {
      assert seen + {i} == seen;
    } else {
      ParkingSeen(c, frames, seen, p, i);
    }
  }

  lemma {:induction false} ArrivalsDoom(c: Codec, lim: Limits, frames: seq<Respond>, bad: nat, seen: set<nat>,
                                        r: Request, arrivals: seq<Arrival>)
    requires SpoiltAt(c, lim, frames, bad) && FromAnswer(frames, arrivals)
    requires Doomed(c, lim, frames, bad, seen, r) && InBudget(c, lim, frames, r, arrivals)
    ensures Doomed(c, lim, frames, bad, seen + Seen(arrivals), ArriveAll(c, lim, frames, r, arrivals))
    decreases |arrivals|
  {
    if |arrivals| == 0 {
      assert seen + Seen(arrivals) == seen;
    } else {
      var a := arrivals[0];
      if r.Waiting? {
        ArrivalDooms(c, lim, frames, bad, seen, r.p, a);
      }
      ArrivalsDoom(c, lim, frames, bad, seen + {a.index}, Arrive(c, lim, frames, r, a), arrivals[1..]);
      SeenSplit(arrivals);
      assert seen + {a.index} + Seen(arrivals[1..]) == seen + Seen(arrivals);
    }
  }

  /** An answer with a chunk that cannot be applied is never given to the caller. In any order of
      arrival with any repetition that finds room, its request fails exactly when that chunk and
      all before it have come, and for the reason of the first such chunk. */
  lemma FailsAtFirstFlaw(c: Codec, lim: Limits, frames: seq<Respond>, bad: nat, arrivals: seq<Arrival>)
    requires SpoiltAt(c, lim, frames, bad) && FromAnswer(frames, arrivals)
    requires InBudget(c, lim, frames, Waiting(UNANSWERED), arrivals)
    ensures var r := ArriveAll(c, lim, frames, Waiting(UNANSWERED), arrivals);
            && !r.Answered?
            && (r.Failed? <==> forall i :: 1 <= i <= bad + 1 ==> i in Seen(arrivals))
            && (r.Failed? ==> Some(r.why) == Flaw(c, lim, frames, bad))
  {
    var none: set<nat> := {};
    ArrivalsDoom(c, lim, frames, bad, none, Waiting(UNANSWERED), arrivals);
    assert none + Seen(arrivals) == Seen(arrivals);
    var r := ArriveAll(c, lim, frames, Waiting(UNANSWERED), arrivals);
    assert r.Waiting? ==> r.p.nextChunk + 1 !in Seen(arrivals);
  }

  /** Every numbered answer is one or the other: without a flaw it can be given whole, and with one
      there is a first. */
  lemma FlawlessOrSpoilt(c: Codec, lim: Limits, frames: seq<Respond>)
    requires Numbered(frames)
    ensures Answerable(c, lim, frames) <==> forall i :: 0 <= i < |frames| ==> Flaw(c, lim, frames, i).None?
    ensures Answerable(c, lim, frames) || exists bad :: 0 <= bad < |frames| && SpoiltAt(c, lim, frames, bad)
  {
    var n := |frames|;
    if forall i :: 0 <= i < n ==> Flaw(c, lim, frames, i).None? {
      assert Flaw(c, lim, frames, n - 1).None?;
      forall i | 0 <= i < n ensures Applicable(c, lim, frames, i) {
        assert Flaw(c, lim, frames, i).None?;
      }
    } else {
      var i: nat :| i < n && Flaw(c, lim, frames, i).Some?;
      var bad := FirstFlaw(c, lim, frames, i);
    }
    if Answerable(c, lim, frames) {
      forall i | 0 <= i < n ensures Flaw(c, lim, frames, i).None? {
        assert Applicable(c, lim, frames, i);
      }
    }
  }

  lemma {:induction false} FirstFlaw(c: Codec, lim: Limits, frames: seq<Respond>, i: nat) returns (bad: nat)
    requires Numbered(frames) && i < |frames| && Flaw(c, lim, frames, i).Some?
    ensures bad < |frames| && SpoiltAt(c, lim, frames, bad)
    decreases i
  {
    if j: nat :| j < i && Flaw(c, lim, frames, j).Some? {
      bad := FirstFlaw(c, lim, frames, j);
    } else {
      bad := i;
    }
  }
}
