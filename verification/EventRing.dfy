/** The gap-pull buffer of one host (internal/hub/hub.go: bufferEventLocked, EventsAfter): a
    bounded, sorted tail of the events ingested, from which a browser that missed some pulls. */
module EventRing {

  const EVENT_BUF_CAP := 1500
  const EV_BUF_HIGH_WATER := 2 * EVENT_BUF_CAP

  /** An event's sequence number and the length of its encoded body. */
  datatype Ev = Ev(number: nat, size: nat)

  predicate Sorted(s: seq<Ev>) {
    forall i, j :: 0 <= i < j < |s| ==> s[i].number <= s[j].number
  }

  predicate Increasing(s: seq<Ev>) {
    forall i, j :: 0 <= i < j < |s| ==> s[i].number < s[j].number
  }

  function Bytes(s: seq<Ev>): (n: nat) {
    if |s| == 0 then 0 else s[0].size + Bytes(s[1..])
  }

  // ---- the simple log the buffer refines ----

  /** The events numbered above n, by looking at every one. */
  function After(s: seq<Ev>, n: nat): (r: seq<Ev>) {
    if |s| == 0 then s
    else if s[0].number > n then [s[0]] + After(s[1..], n)
    else After(s[1..], n)
  }

  /** ev goes behind everything numbered at or below it. */
  function Insert(s: seq<Ev>, ev: Ev): (r: seq<Ev>)
    ensures |r| == |s| + 1 && multiset(r) == multiset(s) + multiset{ev}
  {
    if |s| == 0 || s[|s| - 1].number <= ev.number then s + [ev]
    else
      var last := s[|s| - 1];
      assert s == s[..|s| - 1] + [last];
      Insert(s[..|s| - 1], ev) + [last]
  }

  function TrimCount(s: seq<Ev>): seq<Ev> {
    if |s| > EV_BUF_HIGH_WATER then s[|s| - EVENT_BUF_CAP..] else s
  }

  function TrimBytes(s: seq<Ev>, byteCap: nat): (r: seq<Ev>) {
    if Bytes(s) > byteCap then TrimBytes(s[1..], byteCap) else s
  }

  function Ingest(s: seq<Ev>, ev: Ev, byteCap: nat): seq<Ev> {
    TrimBytes(TrimCount(Insert(s, ev)), byteCap)
  }

  /** The buffer after a whole history of events. */
  function Buffered(history: seq<Ev>, byteCap: nat): seq<Ev> {
    if |history| == 0 then history
    else Ingest(Buffered(history[..|history| - 1], byteCap), history[|history| - 1], byteCap)
  }

  /** The events the count compactions of a history copy. */
  function Copied(history: seq<Ev>, byteCap: nat): nat {
    if |history| == 0 then 0
    else
      var past := history[..|history| - 1];
      Copied(past, byteCap) + if |Buffered(past, byteCap)| + 1 > EV_BUF_HIGH_WATER then EVENT_BUF_CAP else 0
  }

  // ---- one event ----

  lemma {:induction false} BytesOneMore(s: seq<Ev>, ev: Ev)
    ensures Bytes(s + [ev]) == Bytes(s) + ev.size
  {
    if |s| > 0 {
      assert (s + [ev])[1..] == s[1..] + [ev];
      BytesOneMore(s[1..], ev);
    } else {
      assert (s + [ev])[1..] == s;
    }
  }

  lemma {:induction false} InsertBytes(s: seq<Ev>, ev: Ev)
    ensures Bytes(Insert(s, ev)) == Bytes(s) + ev.size
  {
    if |s| == 0 || s[|s| - 1].number <= ev.number {
      BytesOneMore(s, ev);
    } else {
      var init, last := s[..|s| - 1], s[|s| - 1];
      InsertBytes(init, ev);
      BytesOneMore(Insert(init, ev), last);
      BytesOneMore(init, last);
      assert s == init + [last];
    }
  }

  lemma {:induction false} InsertBetween(front: seq<Ev>, back: seq<Ev>, ev: Ev)
    requires forall x :: x in front ==> x.number <= ev.number
    requires forall x :: x in back ==> x.number > ev.number
    ensures Insert(front + back, ev) == front + [ev] + back
  {
    if |back| > 0 {
      var init, last := back[..|back| - 1], back[|back| - 1];
      assert (front + back)[..|front + back| - 1] == front + init;
      InsertBetween(front, init, ev);
      assert back == init + [last];
    } else {
      assert front + back == front;
    }
  }

  /** Inserting keeps the buffer sorted, and the new event's place is settled by its neighbours:
      everything at or below it stays in front, everything above it moves behind. */
  lemma InsertAt(s: seq<Ev>, ev: Ev, at: nat)
    requires Sorted(s) && at <= |s|
    requires forall i :: 0 <= i < at ==> s[i].number <= ev.number
    requires forall i :: at <= i < |s| ==> s[i].number > ev.number
    ensures Insert(s, ev) == s[..at] + [ev] + s[at..]
    ensures Sorted(Insert(s, ev)) && Bytes(Insert(s, ev)) == Bytes(s) + ev.size
  {
    assert s == s[..at] + s[at..];
    InsertBetween(s[..at], s[at..], ev);
    SpliceSorted(s, ev, at);
    InsertBytes(s, ev);
  }

  lemma SpliceSorted(s: seq<Ev>, ev: Ev, at: nat)
    requires Sorted(s) && at <= |s|
    requires forall i :: 0 <= i < at ==> s[i].number <= ev.number
    requires forall i :: at <= i < |s| ==> s[i].number > ev.number
    ensures Sorted(s[..at] + [ev] + s[at..])
  {
    var r := s[..at] + [ev] + s[at..];
    forall i, j | 0 <= i < j < |r| ensures r[i].number <= r[j].number {
      assert r[i] == if i < at then s[i] else if i == at then ev else s[i - 1];
      assert r[j] == if j < at then s[j] else if j == at then ev else s[j - 1];
    }
  }

  /** Where ev belongs in a sorted buffer. */
  lemma CutPoint(s: seq<Ev>, n: nat) returns (at: nat)
    requires Sorted(s)
    ensures at <= |s|
    ensures forall i :: 0 <= i < at ==> s[i].number <= n
    ensures forall i :: at <= i < |s| ==> s[i].number > n
  {
    at := |s|;
    while at > 0 && s[at - 1].number > n
      invariant at <= |s|
      invariant forall i :: at <= i < |s| ==> s[i].number > n
    {
      at := at - 1;
    }
  }

  /** Trimming keeps the longest suffix within the byte cap. */
  lemma {:induction false} TrimKeepsLongest(s: seq<Ev>, byteCap: nat)
    ensures var r := TrimBytes(s, byteCap);
            && |r| <= |s| && r == s[|s| - |r|..] && Bytes(r) <= byteCap
            && forall k :: 0 <= k <= |s| && Bytes(s[k..]) <= byteCap ==> |s| - k <= |r|
  {
    var r := TrimBytes(s, byteCap);
    if Bytes(s) > byteCap {
      TrimKeepsLongest(s[1..], byteCap);
      forall k | 0 <= k <= |s| && Bytes(s[k..]) <= byteCap ensures |s| - k <= |r| {
        assert s[0..] == s;
        assert s[1..][k - 1..] == s[k..];
      }
    } else {
      assert s[0..] == s;
    }
  }

  /** The cut point the binary search finds gives what looking at every event gives. */
  lemma {:induction false} AfterIsSuffix(s: seq<Ev>, n: nat, at: nat)
    requires at <= |s|
    requires forall i :: 0 <= i < at ==> s[i].number <= n
    requires forall i :: at <= i < |s| ==> s[i].number > n
    ensures After(s, n) == s[at..]
  {
    if at > 0 {
      AfterIsSuffix(s[1..], n, at - 1);
    } else if |s| > 0 {
      AfterIsSuffix(s[1..], n, 0);
      assert s[0..] == [s[0]] + s[1..][0..];
    }
  }

  /** A sorted buffer stays sorted, and never holds an event it was not given. */
  lemma IngestKeeps(s: seq<Ev>, ev: Ev, byteCap: nat)
    requires Sorted(s) && |s| <= EV_BUF_HIGH_WATER
    ensures var r := Ingest(s, ev, byteCap);
            Sorted(r) && |r| <= EV_BUF_HIGH_WATER && Bytes(r) <= byteCap && multiset(r) <= multiset(s) + multiset{ev}
  {
    var at := CutPoint(s, ev.number);
    InsertAt(s, ev, at);
    var whole := Insert(s, ev);
    TrimIsTail(whole, byteCap);
    TrimKeepsLongest(TrimCount(whole), byteCap);
    TailOfSorted(Ingest(s, ev, byteCap), whole);
  }

  lemma TailOfSorted(tail: seq<Ev>, whole: seq<Ev>)
    requires IsTail(tail, whole) && Sorted(whole)
    ensures Sorted(tail) && multiset(tail) <= multiset(whole)
  {
    assert whole == whole[..|whole| - |tail|] + tail;
  }

  // ---- whole histories ----

  /** For any history, in any order: sorted, bounded twice, and made of ingested events only. */
  lemma {:induction false} BufferedIsBounded(history: seq<Ev>, byteCap: nat)
    ensures var s := Buffered(history, byteCap);
            Sorted(s) && |s| <= EV_BUF_HIGH_WATER && Bytes(s) <= byteCap && multiset(s) <= multiset(history)
  {
    if |history| == 0 {
    } else {
      var past := history[..|history| - 1];
      BufferedIsBounded(past, byteCap);
      IngestKeeps(Buffered(past, byteCap), history[|history| - 1], byteCap);
      LastOne(history);
    }
  }

  lemma LastOne(history: seq<Ev>)
    requires |history| > 0
    ensures multiset(history) == multiset(history[..|history| - 1]) + multiset{history[|history| - 1]}
  {
    assert history == history[..|history| - 1] + [history[|history| - 1]];
  }

  predicate IsTail(s: seq<Ev>, whole: seq<Ev>) {
    |s| <= |whole| && s == whole[|whole| - |s|..]
  }

  lemma TailOfTail(a: seq<Ev>, b: seq<Ev>, c: seq<Ev>)
    requires IsTail(a, b) && IsTail(b, c)
    ensures IsTail(a, c)
  {
    assert c[|c| - |b|..][|b| - |a|..] == c[|c| - |a|..];
  }

  lemma TailGrows(s: seq<Ev>, past: seq<Ev>, ev: Ev)
    requires IsTail(s, past)
    ensures IsTail(s + [ev], past + [ev])
  {}

  lemma TrimIsTail(whole: seq<Ev>, byteCap: nat)
    ensures IsTail(TrimCount(whole), whole) && IsTail(TrimBytes(TrimCount(whole), byteCap), whole)
  {
    var few := TrimCount(whole);
    assert whole[0..] == whole;
    TrimKeepsLongest(few, byteCap);
    TailOfTail(TrimBytes(few, byteCap), few, whole);
  }

  /** Events in order leave a suffix of the history behind. */
  lemma {:induction false} BufferedIsSuffix(history: seq<Ev>, byteCap: nat)
    requires Increasing(history)
    ensures IsTail(Buffered(history, byteCap), history)
  {
    if |history| == 0 {
    } else {
      var past, ev := history[..|history| - 1], history[|history| - 1];
      BufferedIsSuffix(past, byteCap);
      NewestGoesLast(history, Buffered(past, byteCap));
      var whole := Buffered(past, byteCap) + [ev];
      TrimIsTail(whole, byteCap);
      TailOfTail(TrimBytes(TrimCount(whole), byteCap), whole, history);
    }
  }

  lemma NewestGoesLast(history: seq<Ev>, s: seq<Ev>)
    requires |history| > 0 && Increasing(history) && IsTail(s, history[..|history| - 1])
    ensures var ev := history[|history| - 1]; Insert(s, ev) == s + [ev] && IsTail(s + [ev], history)
  {
    if |s| > 0 {
      assert s[|s| - 1] == history[|history| - 2];
    }
    var past, ev := history[..|history| - 1], history[|history| - 1];
    assert history == past + [ev];
    TailGrows(s, past, ev);
  }

  /** What a gap pull may count on: of an in-order history, any recent events that are at most
      EVENT_BUF_CAP in number and within the byte cap are still there. */
  lemma {:induction false} RecentEventsAreHeld(history: seq<Ev>, byteCap: nat, k: nat)
    requires Increasing(history) && k <= |history| && k <= EVENT_BUF_CAP
    requires Bytes(history[|history| - k..]) <= byteCap
    ensures |Buffered(history, byteCap)| >= k
  {
    if k == 0 {
    } else {
      var past, ev := history[..|history| - 1], history[|history| - 1];
      var s := Buffered(past, byteCap);
      ShorterTailFits(history, byteCap, k);
      RecentEventsAreHeld(past, byteCap, k - 1);
      BufferedIsSuffix(past, byteCap);
      NewestGoesLast(history, s);
      FittingTailSurvives(s + [ev], history, byteCap, k);
    }
  }

  lemma ShorterTailFits(history: seq<Ev>, byteCap: nat, k: nat)
    requires 0 < k <= |history| && Bytes(history[|history| - k..]) <= byteCap
    ensures var past := history[..|history| - 1]; Bytes(past[|past| - (k - 1)..]) <= byteCap
  {
    var past := history[..|history| - 1];
    assert history[|history| - k..] == past[|past| - (k - 1)..] + [history[|history| - 1]];
    BytesOneMore(past[|past| - (k - 1)..], history[|history| - 1]);
  }

  lemma FittingTailSurvives(whole: seq<Ev>, history: seq<Ev>, byteCap: nat, k: nat)
    requires IsTail(whole, history) && k <= |whole| && k <= EVENT_BUF_CAP
    requires Bytes(history[|history| - k..]) <= byteCap
    ensures |TrimBytes(TrimCount(whole), byteCap)| >= k
  {
    var few := TrimCount(whole);
    TrimIsTail(whole, byteCap);
    TailOfTail(few, whole, history);
    assert few[|few| - k..] == history[|history| - k..];
    TrimKeepsLongest(few, byteCap);
  }

  lemma {:induction false} AfterAppend(a: seq<Ev>, b: seq<Ev>, n: nat)
    ensures After(a + b, n) == After(a, n) + After(b, n)
  {
    if |a| > 0 {
      assert (a + b)[1..] == a[1..] + b;
      AfterAppend(a[1..], b, n);
    } else {
      assert a + b == b;
    }
  }

  lemma AfterOne(s: seq<Ev>, ev: Ev, n: nat)
    ensures multiset(After(s + [ev], n)) == multiset(After(s, n)) + if ev.number > n then multiset{ev} else multiset{}
  {
    AfterAppend(s, [ev], n);
    assert |[ev][1..]| == 0;
  }

  lemma {:induction false} InsertAfter(s: seq<Ev>, ev: Ev, n: nat)
    ensures multiset(After(Insert(s, ev), n)) == multiset(After(s + [ev], n))
  {
    if |s| > 0 && s[|s| - 1].number > ev.number {
      var init, last := s[..|s| - 1], s[|s| - 1];
      InsertAfter(init, ev, n);
      AfterOne(Insert(init, ev), last, n);
      AfterOne(init, ev, n);
      AfterOne(init, last, n);
      AfterOne(s, ev, n);
      assert s == init + [last];
    }
  }

  /** What is above n survives one event's trimming if it is few enough and light enough. */
  lemma TrimKeepsAfter(whole: seq<Ev>, byteCap: nat, n: nat)
    requires Sorted(whole) && |After(whole, n)| <= EVENT_BUF_CAP && Bytes(After(whole, n)) <= byteCap
    ensures After(TrimBytes(TrimCount(whole), byteCap), n) == After(whole, n)
  {
    var at := CutPoint(whole, n);
    AfterIsSuffix(whole, n, at);
    var few := TrimCount(whole);
    var cut := |whole| - |few|;
    assert few[at - cut..] == whole[at..];
    TrimKeepsLongest(few, byteCap);
    var r := TrimBytes(few, byteCap);
    TrimIsTail(whole, byteCap);
    TailHoldsAfter(whole, r, n, at);
  }

  lemma TailHoldsAfter(whole: seq<Ev>, r: seq<Ev>, n: nat, at: nat)
    requires IsTail(r, whole) && |whole| - |r| <= at <= |whole|
    requires forall i :: 0 <= i < at ==> whole[i].number <= n
    requires forall i :: at <= i < |whole| ==> whole[i].number > n
    ensures After(r, n) == whole[at..]
  {
    var front := |whole| - |r|;
    AfterIsSuffix(r, n, at - front);
    assert r[at - front..] == whole[at..];
  }

  lemma TakeOut(s: seq<Ev>, x: Ev) returns (less: seq<Ev>)
    requires x in multiset(s)
    ensures multiset(less) == multiset(s) - multiset{x} && |less| + 1 == |s| && Bytes(s) == x.size + Bytes(less)
  {
    var i :| 0 <= i < |s| && s[i] == x;
    less := s[..i] + s[i + 1..];
    assert s == s[..i] + [x] + s[i + 1..];
    BytesAround(s, i);
  }

  lemma {:induction false} SameWeight(part: seq<Ev>, whole: seq<Ev>)
    requires multiset(part) == multiset(whole)
    ensures |part| == |whole| && Bytes(part) == Bytes(whole)
    decreases |whole|
  {
    SameSize(part, whole);
    if |whole| > 0 {
      var x := whole[0];
      assert x in multiset(whole);
      var less := TakeOut(part, x);
      assert whole == [x] + whole[1..];
      assert multiset(whole[1..]) == multiset(whole) - multiset{x};
      SameWeight(less, whole[1..]);
    }
  }

  lemma SameSize(a: seq<Ev>, b: seq<Ev>)
    requires multiset(a) == multiset(b)
    ensures |a| == |b|
  {
    assert |a| == |multiset(a)| && |b| == |multiset(b)|;
  }

  lemma {:induction false} BytesAround(s: seq<Ev>, i: nat)
    requires i < |s|
    ensures Bytes(s) == s[i].size + Bytes(s[..i] + s[i + 1..])
  {
    if i == 0 {
      assert s[..0] + s[1..] == s[1..];
    } else {
      BytesAround(s[1..], i - 1);
      assert (s[..i] + s[i + 1..])[1..] == s[1..][..i - 1] + s[1..][i..];
    }
  }

  /** A gap pull misses nothing and doubles nothing, in whatever order the events arrived, as long
      as what it asks for is at most EVENT_BUF_CAP events within the byte cap. */
  lemma {:induction false} GapPullMissesNothing(history: seq<Ev>, byteCap: nat, n: nat)
    requires |After(history, n)| <= EVENT_BUF_CAP && Bytes(After(history, n)) <= byteCap
    ensures multiset(After(Buffered(history, byteCap), n)) == multiset(After(history, n))
  {
    if |history| > 0 {
      var past, ev := history[..|history| - 1], history[|history| - 1];
      var s := Buffered(past, byteCap);
      assert history == past + [ev];
      AfterAppend(past, [ev], n);
      BytesLess(After(past, n), After([ev], n));
      GapPullMissesNothing(past, byteCap, n);
      BufferedIsBounded(past, byteCap);
      var at := CutPoint(s, ev.number);
      InsertAt(s, ev, at);
      InsertAfter(s, ev, n);
      AfterOne(s, ev, n);
      AfterOne(past, ev, n);
      SameWeight(After(Insert(s, ev), n), After(history, n));
      TrimKeepsAfter(Insert(s, ev), byteCap, n);
    }
  }

  lemma {:induction false} BytesLess(a: seq<Ev>, b: seq<Ev>)
    ensures Bytes(a + b) >= Bytes(a)
  {
    if |a| > 0 {
      assert (a + b)[1..] == a[1..] + b;
      BytesLess(a[1..], b);
    }
  }

  /** A gap pull misses nothing of an in-order history as long as what was missed is at most
      EVENT_BUF_CAP events within the byte cap: it answers as if nothing were ever forgotten. */
  lemma GapPullIsComplete(history: seq<Ev>, byteCap: nat, n: nat)
    requires Increasing(history)
    requires |After(history, n)| <= EVENT_BUF_CAP && Bytes(After(history, n)) <= byteCap
    ensures After(Buffered(history, byteCap), n) == After(history, n)
  {
    var s := Buffered(history, byteCap);
    var at := CutPoint(history, n);
    AfterIsSuffix(history, n, at);
    RecentEventsAreHeld(history, byteCap, |history| - at);
    BufferedIsSuffix(history, byteCap);
    AfterIsSuffix(s, n, |s| - (|history| - at));
  }

  /** Count compactions copy at most one event for each event ever ingested. */
  lemma {:induction false} CopiesAreAmortised(history: seq<Ev>, byteCap: nat)
    ensures var n := |Buffered(history, byteCap)|;
            Copied(history, byteCap) + (if n > EVENT_BUF_CAP then n - EVENT_BUF_CAP else 0) <= |history|
  {
    if |history| == 0 {
    } else {
      var past := history[..|history| - 1];
      CopiesAreAmortised(past, byteCap);
      BufferedIsBounded(past, byteCap);
      TrimKeepsLongest(TrimCount(Insert(Buffered(past, byteCap), history[|history| - 1])), byteCap);
    }
  }

  // ---- the buffer ----

  class HostBuffer {
    var evBuf: seq<Ev>
    var evBufBytes: nat
    const byteCap: nat

    ghost predicate Valid() reads this {
      Sorted(evBuf) && |evBuf| <= EV_BUF_HIGH_WATER && evBufBytes == Bytes(evBuf) <= byteCap
    }

    constructor (limit: nat)
      ensures Valid() && byteCap == limit && |evBuf| == 0
    {
      evBuf, evBufBytes, byteCap := [], 0, limit;
    }

    /** attach empties the buffer when the host's epoch changes. */
    method Clear()
      modifies this
      ensures Valid() && |evBuf| == 0
    {
      evBuf, evBufBytes := [], 0;
    }

    /** sort.Search for the first event numbered above n. */
    method Search(n: nat) returns (at: nat)
      requires Sorted(evBuf)
      ensures at <= |evBuf|
      ensures forall i :: 0 <= i < at ==> evBuf[i].number <= n
      ensures forall i :: at <= i < |evBuf| ==> evBuf[i].number > n
    {
      at := 0;
      var hi := |evBuf|;
      while at < hi
        invariant at <= hi <= |evBuf|
        invariant forall i :: 0 <= i < at ==> evBuf[i].number <= n
        invariant forall i :: hi <= i < |evBuf| ==> evBuf[i].number > n
      {
        var mid := (at + hi) / 2;
        if evBuf[mid].number > n { hi := mid; } else { at := mid + 1; }
      }
    }

    method EventsAfter(n: nat) returns (out: seq<Ev>)
      requires Valid()
      ensures out == After(evBuf, n)
    {
      var at := Search(n);
      AfterIsSuffix(evBuf, n, at);
      if at >= |evBuf| {
        out := [];
      } else {
        out := evBuf[at..];
      }
    }

    method BufferEvent(ev: Ev)
      requires Valid()
      modifies this
      ensures Valid() && evBuf == Ingest(old(evBuf), ev, byteCap)
    {
      Splice(ev);
      IngestKeeps(old(evBuf), ev, byteCap);
      if |evBuf| > EV_BUF_HIGH_WATER {
        evBuf := evBuf[|evBuf| - EVENT_BUF_CAP..];
        evBufBytes := CountBytes();
      }
      CutBytes();
    }

    /** Puts ev in its place: at the end as a rule. */
    method Splice(ev: Ev)
      requires Valid()
      modifies this
      ensures evBuf == Insert(old(evBuf), ev) && evBufBytes == Bytes(evBuf)
    {
      evBufBytes := evBufBytes + ev.size;
      var n := |evBuf|;
      if n == 0 || evBuf[n - 1].number < ev.number {
        InsertAt(evBuf, ev, n);
        evBuf := evBuf + [ev];
      } else {
        var at := Search(ev.number);
        InsertAt(evBuf, ev, at);
        evBuf := evBuf[..at] + [ev] + evBuf[at..];
      }
    }

    method CountBytes() returns (n: nat)
      ensures n == Bytes(evBuf)
    {
      n := 0;
      for i := 0 to |evBuf|
        invariant n + Bytes(evBuf[i..]) == Bytes(evBuf)
      {
        assert evBuf[i..][1..] == evBuf[i + 1..];
        n := n + evBuf[i].size;
      }
    }

    /** Over the byte cap, drops the oldest events until the rest fits. */
    method CutBytes()
      requires evBufBytes == Bytes(evBuf)
      modifies this
      ensures evBuf == TrimBytes(old(evBuf), byteCap) && evBufBytes == Bytes(evBuf)
    {
      assert evBuf[0..] == evBuf;
      if evBufBytes > byteCap {
        var cut := 0;
        while cut < |evBuf| && evBufBytes > byteCap
          modifies this`evBufBytes
          invariant cut <= |evBuf|
          invariant evBufBytes == Bytes(evBuf[cut..])
          invariant TrimBytes(evBuf, byteCap) == TrimBytes(evBuf[cut..], byteCap)
        {
          assert evBuf[cut..][1..] == evBuf[cut + 1..];
          evBufBytes := evBufBytes - evBuf[cut].size;
          cut := cut + 1;
        }
        evBuf := evBuf[cut..];
      }
    }
  }
}
