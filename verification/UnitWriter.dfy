/** The session writer (internal/hub/writer.go): reliable frames, and the control frames it slips
    between them and between their fragments, on one stream of units. */
module UnitWriter {
  import opened Wire
  import opened Units
  import opened UnitStream

  const MIN_DEFLATE := 256

  function Wrap(controls: seq<Bytes>): seq<Whole> {
    seq(|controls|, i requires 0 <= i < |controls| => Whole(controls[i], false))
  }

  /** A unit that takes the peer from the first off bytes of a frame to the first end bytes. */
  ghost predicate Advances(unit: Bytes, out: Bytes, compressed: bool, frameID: Word, off: nat, end: nat, maxFrame: int)
    requires off <= end <= |out| <= MAX_WORD
  {
    forall heard: seq<Whole> ::
      Hear(Mid(heard, out, compressed, frameID, off), unit, maxFrame) == Mid(heard, out, compressed, frameID, end)
  }

  /** Where unit j of a frame starts. */
  function Cut(out: Bytes, j: nat): nat { if j * UNIT_SIZE < |out| then j * UNIT_SIZE else |out| }

  /** Unit after unit, the units take the peer from the start of a frame to its end. */
  ghost predicate Carries(units: seq<Bytes>, out: Bytes, compressed: bool, frameID: Word, maxFrame: int)
    requires |out| <= MAX_WORD
  {
    && |units| == UnitsOf(|out|) && Cut(out, |units|) == |out|
    && forall j :: 0 <= j < |units| ==>
         j * UNIT_SIZE < |out| && Advances(units[j], out, compressed, frameID, Cut(out, j), Cut(out, j + 1), maxFrame)
  }

  lemma OneFragment(out: Bytes, compressed: bool, frameID: Word, j: nat, maxFrame: int)
    requires Sendable(out, maxFrame) && j * UNIT_SIZE < |out|
    ensures Advances(EncodeUnit(FragmentUnit(out, compressed, frameID, Cut(out, j), Cut(out, j + 1))),
                     out, compressed, frameID, Cut(out, j), Cut(out, j + 1), maxFrame)
  {
    forall heard: seq<Whole>
      ensures Hear(Mid(heard, out, compressed, frameID, Cut(out, j)),
                   EncodeUnit(FragmentUnit(out, compressed, frameID, Cut(out, j), Cut(out, j + 1))), maxFrame)
           == Mid(heard, out, compressed, frameID, Cut(out, j + 1))
    {
      HearFragment(heard, out, compressed, frameID, Cut(out, j), Cut(out, j + 1), maxFrame);
    }
  }

  lemma {:induction false} FragmentAt(out: Bytes, compressed: bool, frameID: Word, k: nat, j: nat)
    requires |out| <= MAX_WORD && k <= j && j * UNIT_SIZE < |out|
    ensures var units := FragmentsFrom(out, compressed, frameID, UNIT_SIZE, k * UNIT_SIZE);
            && |units| > j - k
            && units[j - k] == EncodeUnit(FragmentUnit(out, compressed, frameID, Cut(out, j), Cut(out, j + 1)))
    decreases j - k
  {
    assert FragmentEnd(out, k * UNIT_SIZE, UNIT_SIZE) == Cut(out, k + 1);
    if k == j {
    } else {
      FragmentAt(out, compressed, frameID, k + 1, j);
    }
  }

  /** The fragments of a long frame carry it. */
  lemma FragmentsCarry(out: Bytes, compressed: bool, frameID: Word, maxFrame: int)
    requires Sendable(out, maxFrame) && |out| > UNIT_SIZE
    ensures Carries(FragmentsFrom(out, compressed, frameID, UNIT_SIZE, 0), out, compressed, frameID, maxFrame)
  {
    var units := FragmentsFrom(out, compressed, frameID, UNIT_SIZE, 0);
    FragmentCount(out, compressed, frameID, 0);
    forall j | 0 <= j < |units|
      ensures Advances(units[j], out, compressed, frameID, Cut(out, j), Cut(out, j + 1), maxFrame)
    {
      FragmentAt(out, compressed, frameID, 0, j);
      OneFragment(out, compressed, frameID, j, maxFrame);
    }
  }

  lemma WrapMoves(heard: seq<Whole>, took: seq<Bytes>, one: seq<Bytes>)
    ensures heard + Wrap(took) + Wrap(one) == heard + Wrap(took + one)
  {}

  /** One reliable frame to write: its encoding, its deflated form if there is one, the control
      frames queued just before it and those queued before each of its units. */
  datatype Outbound = Outbound(payload: Bytes, deflated: Option<Bytes>, before: seq<Bytes>, posted: seq<seq<Bytes>>)

  /** What was written: a control frame, between frames or inside one's run of fragments, or a
      reliable frame. */
  datatype Piece = Control(payload: Bytes, inside: bool) | Reliable(frame: Whole)

  function FramesOf(pieces: seq<Piece>): seq<Whole> {
    seq(|pieces|, i requires 0 <= i < |pieces| =>
      if pieces[i].Control? then Whole(pieces[i].payload, false) else pieces[i].frame)
  }

  function Controls(pieces: seq<Piece>): seq<Bytes> {
    if |pieces| == 0 then []
    else Controls(pieces[..|pieces| - 1])
         + if pieces[|pieces| - 1].Control? then [pieces[|pieces| - 1].payload] else []
  }

  function Reliables(pieces: seq<Piece>): seq<Whole> {
    if |pieces| == 0 then []
    else Reliables(pieces[..|pieces| - 1])
         + if pieces[|pieces| - 1].Reliable? then [pieces[|pieces| - 1].frame] else []
  }

  /** A control frame of several units was slipped inside a run of fragments. */
  predicate Intruded(pieces: seq<Piece>) {
    exists p :: p in pieces && p.Control? && p.inside && |p.payload| > UNIT_SIZE
  }

  predicate Intrudes(inside: seq<Bytes>) { exists c :: c in inside && |c| > UNIT_SIZE }

  function Wrapped(controls: seq<Bytes>, inside: bool): seq<Piece> {
    seq(|controls|, i requires 0 <= i < |controls| => Control(controls[i], inside))
  }

  lemma {:induction false} PiecesAppend(a: seq<Piece>, b: seq<Piece>)
    ensures Controls(a + b) == Controls(a) + Controls(b)
    ensures Reliables(a + b) == Reliables(a) + Reliables(b)
  {
    if |b| == 0 {
      assert a + b == a;
    } else {
      assert (a + b)[..|a + b| - 1] == a + b[..|b| - 1];
      PiecesAppend(a, b[..|b| - 1]);
    }
  }

  lemma {:induction false} WrappedPieces(took: seq<Bytes>, inside: bool)
    ensures Controls(Wrapped(took, inside)) == took && |Reliables(Wrapped(took, inside))| == 0
  {
    if |took| == 0 {
    } else {
      var w, init := Wrapped(took, inside), took[..|took| - 1];
      assert w[..|w| - 1] == Wrapped(init, inside);
      WrappedPieces(init, inside);
      assert took == init + [took[|took| - 1]];
    }
  }

  lemma OnePiece(frame: Whole)
    ensures |Controls([Reliable(frame)])| == 0 && Reliables([Reliable(frame)]) == [frame]
  {
    assert |[Reliable(frame)][..0]| == 0;
  }

  /** What one entry adds to what was written. */
  function EntryPieces(before: seq<Bytes>, inside: seq<Bytes>, frame: Whole): seq<Piece> {
    Wrapped(before, false) + Wrapped(inside, true) + [Reliable(frame)]
  }

  lemma EntryHolds(before: seq<Bytes>, inside: seq<Bytes>, frame: Whole)
    ensures var added := EntryPieces(before, inside, frame);
            Controls(added) == before + inside && Reliables(added) == [frame]
  {
    WrappedPieces(before, false);
    WrappedPieces(inside, true);
    OnePiece(frame);
    var controls, last := Wrapped(before, false) + Wrapped(inside, true), [Reliable(frame)];
    PiecesAppend(Wrapped(before, false), Wrapped(inside, true));
    PiecesAppend(controls, last);
    assert Controls(controls) == before + inside && |Reliables(controls)| == 0;
    assert Controls(controls) + Controls(last) == before + inside;
  }

  lemma EntryFrames(before: seq<Bytes>, inside: seq<Bytes>, frame: Whole)
    ensures FramesOf(EntryPieces(before, inside, frame)) == Wrap(before + inside) + [frame]
  {}

  lemma FramesAppend(heard: seq<Whole>, a: seq<Piece>, b: seq<Piece>)
    ensures heard + FramesOf(a) + FramesOf(b) == heard + FramesOf(a + b)
  {}

  lemma EntryMoves(heard: seq<Whole>, pieces: seq<Piece>, before: seq<Bytes>, inside: seq<Bytes>, frame: Whole)
    ensures var more := pieces + EntryPieces(before, inside, frame);
            && heard + FramesOf(pieces) + Wrap(before + inside) + [frame] == heard + FramesOf(more)
            && Controls(more) == Controls(pieces) + (before + inside)
            && Reliables(more) == Reliables(pieces) + [frame]
  {
    EntryHolds(before, inside, frame);
    EntryFrames(before, inside, frame);
    PiecesAppend(pieces, EntryPieces(before, inside, frame));
    FramesAppend(heard, pieces, EntryPieces(before, inside, frame));
  }

  lemma EntryIntrudes(pieces: seq<Piece>, before: seq<Bytes>, inside: seq<Bytes>, frame: Whole)
    ensures Intruded(pieces + EntryPieces(before, inside, frame)) <==> Intruded(pieces) || Intrudes(inside)
  {
    var added := EntryPieces(before, inside, frame);
    if Intrudes(inside) {
      var i :| 0 <= i < |inside| && |inside[i]| > UNIT_SIZE;
      assert added[|before| + i] == Control(inside[i], true);
    }
    forall p | p in added && p.Control? && p.inside ensures p.payload in inside {
      var i :| 0 <= i < |added| && added[i] == p;
      assert p == Control(inside[i - |before|], true);
    }
  }

  /** A frame goes out deflated when that is allowed, worth trying and shorter. */
  function Outgoing(deflate: bool, payload: Bytes, deflated: Option<Bytes>): Whole {
    if deflate && |payload| >= MIN_DEFLATE && deflated.Some? && |deflated.value| < |payload|
    then Whole(deflated.value, true) else Whole(payload, false)
  }

  /** What goes out is never longer than the frame itself, is the frame itself or its deflated form,
      and is the shorter of the two wherever deflating is allowed and worth trying. */
  lemma ShorterGoesOut(deflate: bool, payload: Bytes, deflated: Option<Bytes>)
    ensures var out := Outgoing(deflate, payload, deflated);
            && (if out.compressed then deflated == Some(out.bytes) else out.bytes == payload)
            && |out.bytes| <= |payload|
            && (out.compressed ==> deflate && |payload| >= 256 && |out.bytes| < |payload|)
            && (deflate && |payload| >= 256 && deflated.Some? ==> |out.bytes| <= |deflated.value|)
  {}

  // ---- what goes where ----

  /** One control frame leaves a queue, if there is one. */
  function Taken(queue: seq<Bytes>): seq<Bytes> { if |queue| == 0 then queue else queue[..1] }

  function Left(queue: seq<Bytes>): seq<Bytes> { if |queue| == 0 then queue else queue[1..] }

  /** The control frames queued just before unit i. */
  function Arriving(posted: seq<seq<Bytes>>, i: nat): seq<Bytes> { if i < |posted| then posted[i] else [] }

  /** The control frames slipped inside a run of fragments, and the queue they leave. */
  datatype Slip = Slip(inside: seq<Bytes>, queue: seq<Bytes>)

  /** What the first k units of a run do to the queue: each but the first is preceded by one
      control frame, if any is queued by then. */
  function Slipped(queue: seq<Bytes>, posted: seq<seq<Bytes>>, k: nat): Slip {
    if k == 0 then Slip(queue[..0], queue)
    else
      var s := Slipped(queue, posted, k - 1);
      var q := s.queue + Arriving(posted, k - 1);
      if k == 1 then Slip(s.inside, q) else Slip(s.inside + Taken(q), Left(q))
  }

  /** Around one frame: the control frames before it, those inside it, and the queue left. */
  datatype Plan = Plan(before: seq<Bytes>, inside: seq<Bytes>, queue: seq<Bytes>)

  /** A frame gets a number of the writer's own when it is deflated or takes several units. */
  predicate Numbered(frame: Whole) { frame.compressed || |frame.bytes| > UNIT_SIZE }

  function FramePlan(frame: Whole, queue: seq<Bytes>, posted: seq<seq<Bytes>>): Plan {
    if !Numbered(frame) then Plan(queue[..0], queue[..0], queue)
    else
      var s := Slipped(Left(queue), posted, UnitsOf(|frame.bytes|));
      Plan(Taken(queue), s.inside, s.queue)
  }

  function EntryPlan(deflate: bool, queue: seq<Bytes>, e: Outbound): Plan {
    var q := queue + e.before;
    var p := FramePlan(Outgoing(deflate, e.payload, e.deflated), Left(q), e.posted);
    Plan(Taken(q) + p.before, p.inside, p.queue)
  }

  /** The queue that writing the first k entries leaves. */
  function QueueAfter(deflate: bool, queue: seq<Bytes>, entries: seq<Outbound>, k: nat): seq<Bytes>
    requires k <= |entries|
  {
    if k == 0 then queue else EntryPlan(deflate, QueueAfter(deflate, queue, entries, k - 1), entries[k - 1]).queue
  }

  /** What writing one entry puts on the stream. */
  function EntryOut(deflate: bool, queue: seq<Bytes>, e: Outbound): seq<Piece> {
    var p := EntryPlan(deflate, queue, e);
    EntryPieces(p.before, p.inside, Outgoing(deflate, e.payload, e.deflated))
  }

  /** What writing each of the entries puts on the stream. */
  function EachOut(deflate: bool, queue: seq<Bytes>, entries: seq<Outbound>): seq<seq<Piece>> {
    seq(|entries|, i requires 0 <= i < |entries| =>
      EntryOut(deflate, QueueAfter(deflate, queue, entries, i), entries[i]))
  }

  /** What writing the first k entries puts on the stream. */
  function WrittenOut(deflate: bool, queue: seq<Bytes>, entries: seq<Outbound>, k: nat): seq<Piece>
    requires k <= |entries|
  {
    Flatten(EachOut(deflate, queue, entries), k)
  }

  /** The condition under which the peer meets an error, from the queue and the entries alone: a
      control frame of several units gets its turn between two units of one entry. */
  predicate Breaks(deflate: bool, queue: seq<Bytes>, entries: seq<Outbound>) {
    exists k :: 0 <= k < |entries| && BreaksAt(deflate, queue, entries, k)
  }

  predicate BreaksAt(deflate: bool, queue: seq<Bytes>, entries: seq<Outbound>, k: nat)
    requires k < |entries|
  {
    Slips(deflate, QueueAfter(deflate, queue, entries, k), entries[k])
  }

  /** A control frame of several units is slipped inside this entry. */
  predicate Slips(deflate: bool, queue: seq<Bytes>, e: Outbound) { Intrudes(EntryPlan(deflate, queue, e).inside) }

  lemma NothingOut(pieces: seq<Piece>)
    requires |pieces| == 0
    ensures !Intruded(pieces) && |Controls(pieces)| == |Reliables(pieces)| == 0
  {}

  lemma IntrudedAppend(a: seq<Piece>, b: seq<Piece>)
    ensures Intruded(a + b) <==> Intruded(a) || Intruded(b)
  {}

  lemma {:induction false} IntrudedSomewhere(outs: seq<seq<Piece>>, k: nat)
    requires k <= |outs|
    ensures Intruded(Flatten(outs, k)) <==> exists i :: 0 <= i < k && Intruded(outs[i])
    decreases k
  {
    if k > 0 {
      IntrudedSomewhere(outs, k - 1);
      IntrudedAppend(Flatten(outs, k - 1), outs[k - 1]);
    }
  }

  lemma SlipsIsIntruded(deflate: bool, queue: seq<Bytes>, e: Outbound)
    ensures Intruded(EntryOut(deflate, queue, e)) <==> Slips(deflate, queue, e)
  {
    var p, none := EntryPlan(deflate, queue, e), Wrapped(queue[..0], false);
    EntryIntrudes(none, p.before, p.inside, Outgoing(deflate, e.payload, e.deflated));
    assert none + EntryOut(deflate, queue, e) == EntryOut(deflate, queue, e);
    NothingOut(none);
  }

  lemma BreaksIsIntruded(deflate: bool, queue: seq<Bytes>, entries: seq<Outbound>)
    ensures Intruded(WrittenOut(deflate, queue, entries, |entries|)) <==> Breaks(deflate, queue, entries)
  {
    var outs := EachOut(deflate, queue, entries);
    IntrudedSomewhere(outs, |outs|);
    forall i | 0 <= i < |entries| ensures Intruded(outs[i]) <==> BreaksAt(deflate, queue, entries, i) {
      SlipsIsIntruded(deflate, QueueAfter(deflate, queue, entries, i), entries[i]);
    }
  }

  // ---- nothing is lost, doubled or reordered ----

  lemma TakeOne(inside: seq<Bytes>, queue: seq<Bytes>, arrived: seq<Bytes>)
    ensures (inside + Taken(queue + arrived)) + Left(queue + arrived) == (inside + queue) + arrived
  {
    assert Taken(queue + arrived) + Left(queue + arrived) == queue + arrived;
  }

  lemma {:induction false} SlippedInOrder(queue: seq<Bytes>, posted: seq<seq<Bytes>>, k: nat)
    ensures var s := Slipped(queue, posted, k); s.inside + s.queue == queue + Arrived(posted, k)
    decreases k
  {
    if k == 0 {
      assert Arrived(posted, k) == [];
    } else {
      var s := Slipped(queue, posted, k - 1);
      SlippedInOrder(queue, posted, k - 1);
      ArrivedOneMore(posted, k - 1, Arriving(posted, k - 1));
      TakeOne(s.inside, s.queue, Arriving(posted, k - 1));
      Regroup(queue, Arrived(posted, k - 1), Arriving(posted, k - 1));
      Regroup(s.inside, s.queue, Arriving(posted, k - 1));
    }
  }

  /** The control frames queued while one entry is written. */
  function PostedWith(deflate: bool, e: Outbound): seq<Bytes> {
    var frame := Outgoing(deflate, e.payload, e.deflated);
    e.before + if Numbered(frame) then Arrived(e.posted, UnitsOf(|frame.bytes|)) else []
  }

  lemma FrameInOrder(frame: Whole, queue: seq<Bytes>, posted: seq<seq<Bytes>>)
    ensures var p := FramePlan(frame, queue, posted);
            p.before + (p.inside + p.queue)
              == queue + if Numbered(frame) then Arrived(posted, UnitsOf(|frame.bytes|)) else []
  {
    if Numbered(frame) {
      var n := UnitsOf(|frame.bytes|);
      SlippedInOrder(Left(queue), posted, n);
      Regroup(Taken(queue), Left(queue), Arrived(posted, n));
      assert Taken(queue) + Left(queue) == queue;
    }
  }

  lemma EntryInOrder(deflate: bool, queue: seq<Bytes>, e: Outbound)
    ensures var p := EntryPlan(deflate, queue, e);
            (p.before + p.inside) + p.queue == queue + PostedWith(deflate, e)
  {
    var q, frame := queue + e.before, Outgoing(deflate, e.payload, e.deflated);
    var f := FramePlan(frame, Left(q), e.posted);
    var late := if Numbered(frame) then Arrived(e.posted, UnitsOf(|frame.bytes|)) else [];
    FrameInOrder(frame, Left(q), e.posted);
    OneThenFrame(Taken(q), f.before, f.inside, f.queue, Left(q), late);
    assert Taken(q) + Left(q) == q;
    Regroup(queue, e.before, late);
  }

  lemma OneThenFrame(one: seq<Bytes>, before: seq<Bytes>, inside: seq<Bytes>, queue: seq<Bytes>, rest: seq<Bytes>,
                     late: seq<Bytes>)
    requires before + (inside + queue) == rest + late
    ensures ((one + before) + inside) + queue == (one + rest) + late
  {
    Regroup(one + before, inside, queue);
    Regroup(one, before, inside + queue);
    Regroup(one, rest, late);
  }

  /** The control frames queued while each of the entries is written. */
  function EachPosted(deflate: bool, entries: seq<Outbound>): seq<seq<Bytes>> {
    seq(|entries|, i requires 0 <= i < |entries| => PostedWith(deflate, entries[i]))
  }

  function Outgoings(deflate: bool, entries: seq<Outbound>): seq<Whole> {
    seq(|entries|, i requires 0 <= i < |entries| => Outgoing(deflate, entries[i].payload, entries[i].deflated))
  }

  lemma EntryOutInOrder(deflate: bool, queue: seq<Bytes>, e: Outbound)
    ensures var out := EntryOut(deflate, queue, e);
            && Controls(out) + EntryPlan(deflate, queue, e).queue == queue + PostedWith(deflate, e)
            && Reliables(out) == [Outgoing(deflate, e.payload, e.deflated)]
  {
    var p := EntryPlan(deflate, queue, e);
    EntryInOrder(deflate, queue, e);
    EntryHolds(p.before, p.inside, Outgoing(deflate, e.payload, e.deflated));
  }

  lemma {:induction false} ControlsJoin(outs: seq<seq<Piece>>, queues: seq<seq<Bytes>>, posted: seq<seq<Bytes>>,
                                        frames: seq<Whole>, k: nat)
    requires k <= |outs| == |posted| == |frames| && |queues| == |outs| + 1
    requires forall i :: 0 <= i < |outs| ==> InOrderAt(outs, queues, posted, frames, i)
    ensures Controls(Flatten(outs, k)) + queues[k] == queues[0] + Flatten(posted, k)
    decreases k
  {
    if k > 0 {
      ControlsJoin(outs, queues, posted, frames, k - 1);
      assert InOrderAt(outs, queues, posted, frames, k - 1);
      var out, before := outs[k - 1], Flatten(outs, k - 1);
      PiecesAppend(before, out);
      Regroup(Controls(before), Controls(out), queues[k]);
      Regroup(Controls(before), queues[k - 1], posted[k - 1]);
      Regroup(queues[0], Flatten(posted, k - 1), posted[k - 1]);
    }
  }

  lemma {:induction false} ReliablesJoin(outs: seq<seq<Piece>>, queues: seq<seq<Bytes>>, posted: seq<seq<Bytes>>,
                                         frames: seq<Whole>, k: nat)
    requires k <= |outs| == |posted| == |frames| && |queues| == |outs| + 1
    requires forall i :: 0 <= i < |outs| ==> InOrderAt(outs, queues, posted, frames, i)
    ensures Reliables(Flatten(outs, k)) == frames[..k]
    decreases k
  {
    if k > 0 {
      ReliablesJoin(outs, queues, posted, frames, k - 1);
      assert InOrderAt(outs, queues, posted, frames, k - 1);
      PiecesAppend(Flatten(outs, k - 1), outs[k - 1]);
      assert frames[..k] == frames[..k - 1] + [frames[k - 1]];
    }
  }

  /** The reliable frames go out in the order given, and the control frames in the order they were
      queued: those not yet out are still queued. */
  lemma WrittenInOrder(deflate: bool, queue: seq<Bytes>, entries: seq<Outbound>)
    ensures var n := |entries|;
            var pieces := WrittenOut(deflate, queue, entries, n);
            && Reliables(pieces) == Outgoings(deflate, entries)
            && Controls(pieces) + QueueAfter(deflate, queue, entries, n)
               == queue + Flatten(EachPosted(deflate, entries), n)
  {
    var n, outs := |entries|, EachOut(deflate, queue, entries);
    var queues, posted := QueuesBetween(deflate, queue, entries), EachPosted(deflate, entries);
    EachInOrder(deflate, queue, entries);
    ControlsJoin(outs, queues, posted, Outgoings(deflate, entries), n);
    ReliablesJoin(outs, queues, posted, Outgoings(deflate, entries), n);
  }

  function QueuesBetween(deflate: bool, queue: seq<Bytes>, entries: seq<Outbound>): seq<seq<Bytes>> {
    seq(|entries| + 1, i requires 0 <= i <= |entries| => QueueAfter(deflate, queue, entries, i))
  }

  /** Entry i of a run goes out in order, between the queue before it and the queue after it. */
  ghost predicate InOrderAt(outs: seq<seq<Piece>>, queues: seq<seq<Bytes>>, posted: seq<seq<Bytes>>, frames: seq<Whole>,
                            i: nat)
    requires i < |outs| == |posted| == |frames| && |queues| == |outs| + 1
  {
    Controls(outs[i]) + queues[i + 1] == queues[i] + posted[i] && Reliables(outs[i]) == [frames[i]]
  }

  lemma QueuesOfRun(deflate: bool, queue: seq<Bytes>, entries: seq<Outbound>, i: nat, q: seq<Bytes>)
    requires i < |entries| && q == QueueAfter(deflate, queue, entries, i)
    ensures QueuesBetween(deflate, queue, entries)[i] == q
    ensures QueuesBetween(deflate, queue, entries)[i + 1] == EntryPlan(deflate, q, entries[i]).queue
  {}

  lemma OutOfRun(deflate: bool, queue: seq<Bytes>, entries: seq<Outbound>, i: nat, q: seq<Bytes>)
    requires i < |entries| && q == QueueAfter(deflate, queue, entries, i)
    ensures EachOut(deflate, queue, entries)[i] == EntryOut(deflate, q, entries[i])
  {}

  lemma AnyInOrder(deflate: bool, queue: seq<Bytes>, entries: seq<Outbound>, i: nat, q: seq<Bytes>)
    requires i < |entries| && q == QueueAfter(deflate, queue, entries, i)
    ensures InOrderAt(EachOut(deflate, queue, entries), QueuesBetween(deflate, queue, entries),
                      EachPosted(deflate, entries), Outgoings(deflate, entries), i)
  {
    QueuesOfRun(deflate, queue, entries, i, q);
    OutOfRun(deflate, queue, entries, i, q);
    EntryOutInOrder(deflate, q, entries[i]);
  }

  lemma EachInOrder(deflate: bool, queue: seq<Bytes>, entries: seq<Outbound>)
    ensures var outs, queues := EachOut(deflate, queue, entries), QueuesBetween(deflate, queue, entries);
            && queues[0] == queue
            && forall i :: 0 <= i < |entries| ==>
                 InOrderAt(outs, queues, EachPosted(deflate, entries), Outgoings(deflate, entries), i)
  {
    forall i | 0 <= i < |entries|
      ensures InOrderAt(EachOut(deflate, queue, entries), QueuesBetween(deflate, queue, entries),
                        EachPosted(deflate, entries), Outgoings(deflate, entries), i)
    {
      AnyInOrder(deflate, queue, entries, i, QueueAfter(deflate, queue, entries, i));
    }
  }

  lemma {:induction false} NoLongSlipped(queue: seq<Bytes>, posted: seq<seq<Bytes>>, k: nat)
    requires !Intrudes(queue) && forall i :: 0 <= i < |posted| ==> !Intrudes(posted[i])
    ensures !Intrudes(Slipped(queue, posted, k).inside) && !Intrudes(Slipped(queue, posted, k).queue)
    decreases k
  {
    if k == 0 {
    } else {
      NoLongSlipped(queue, posted, k - 1);
    }
  }

  lemma {:induction false} NoLongQueued(deflate: bool, queue: seq<Bytes>, entries: seq<Outbound>, k: nat)
    requires k <= |entries| && !Intrudes(queue) && forall i :: 0 <= i < |entries| ==> ShortOnly(entries[i])
    ensures !Intrudes(QueueAfter(deflate, queue, entries, k))
    ensures k < |entries| ==> !BreaksAt(deflate, queue, entries, k)
    decreases k
  {
    if k > 0 {
      NoLongQueued(deflate, queue, entries, k - 1);
      NoLongInEntry(deflate, QueueAfter(deflate, queue, entries, k - 1), entries[k - 1]);
    }
    if k < |entries| {
      NoLongInEntry(deflate, QueueAfter(deflate, queue, entries, k), entries[k]);
    }
  }

  predicate ShortOnly(e: Outbound) {
    !Intrudes(e.before) && forall i :: 0 <= i < |e.posted| ==> !Intrudes(e.posted[i])
  }

  lemma NoLongInEntry(deflate: bool, queue: seq<Bytes>, e: Outbound)
    requires !Intrudes(queue) && ShortOnly(e)
    ensures !Intrudes(EntryPlan(deflate, queue, e).inside) && !Intrudes(EntryPlan(deflate, queue, e).queue)
  {
    IntrudesSplit(queue, e.before);
    var r := Left(queue + e.before);
    assert !Intrudes(r) && !Intrudes(Left(r));
    NoLongSlipped(Left(r), e.posted, UnitsOf(|Outgoing(deflate, e.payload, e.deflated).bytes|));
  }

  /** Control frames of one unit never break the stream. */
  lemma ShortControlsNeverBreak(deflate: bool, queue: seq<Bytes>, entries: seq<Outbound>)
    requires !Intrudes(queue) && forall i :: 0 <= i < |entries| ==> ShortOnly(entries[i])
    ensures !Breaks(deflate, queue, entries)
  {
    forall k | 0 <= k < |entries| ensures !BreaksAt(deflate, queue, entries, k) {
      NoLongQueued(deflate, queue, entries, k);
    }
  }

  lemma IntrudesSplit(a: seq<Bytes>, b: seq<Bytes>)
    ensures Intrudes(a + b) <==> Intrudes(a) || Intrudes(b)
  {}

  lemma Regroup(a: seq<Bytes>, b: seq<Bytes>, c: seq<Bytes>)
    ensures a + (b + c) == (a + b) + c
  {}

  /** The control frames queued by the time unit i is written. */
  function Arrived(posted: seq<seq<Bytes>>, i: nat): seq<Bytes> {
    Flatten(posted, if i < |posted| then i else |posted|)
  }

  lemma ArrivedOneMore(posted: seq<seq<Bytes>>, i: nat, arrivals: seq<Bytes>)
    requires arrivals == if i < |posted| then posted[i] else []
    ensures Arrived(posted, i + 1) == Arrived(posted, i) + arrivals
  {}

  /** The first n batches, in order. */
  function Flatten<T>(posted: seq<seq<T>>, n: nat): seq<T>
    requires n <= |posted|
    decreases n
  {
    if n == 0 then [] else Flatten(posted, n - 1) + posted[n - 1]
  }

  /** How many units a frame takes. */
  function UnitsOf(size: nat): nat { if size <= UNIT_SIZE then 1 else (size + UNIT_SIZE - 1) / UNIT_SIZE }

  lemma {:induction false} FragmentCount(out: Bytes, compressed: bool, frameID: Word, off: nat)
    requires off <= |out| <= MAX_WORD
    ensures |FragmentsFrom(out, compressed, frameID, UNIT_SIZE, off)| == (|out| - off + UNIT_SIZE - 1) / UNIT_SIZE
    decreases |out| - off
  {
    if off == |out| {
    } else {
      FragmentCount(out, compressed, frameID, FragmentEnd(out, off, UNIT_SIZE));
    }
  }

  /** Enough transport ids for the first k entries: one for each unit and one before the frame. */
  function Cost(entries: seq<Outbound>, k: nat): nat
    requires k <= |entries|
  {
    if k == 0 then 0 else Cost(entries, k - 1) + UnitsOf(|entries[k - 1].payload|) + 1
  }

  lemma {:induction false} CostGrows(entries: seq<Outbound>, k: nat, m: nat)
    requires k <= m <= |entries|
    ensures Cost(entries, k) <= Cost(entries, m)
    decreases m
  {
    if k < m {
      CostGrows(entries, k, m - 1);
    }
  }

  /** A frame was added whole after the control frames took. */
  function After(p: Peer, took: seq<Bytes>, frame: Whole): Peer { p.(frames := p.frames + Wrap(took) + [frame]) }

  /** The end of a run of fragments is a whole frame. */
  lemma RunEnds(start: Peer, inside: seq<Bytes>, out: Bytes, compressed: bool, frameID: Word)
    requires 0 < |out| <= MAX_WORD && (start.failed || start.assembly.Closed?)
    ensures !start.failed ==>
      Mid(start.frames + Wrap(inside), out, compressed, frameID, |out|) == After(start, inside, Whole(out, compressed))
  {}

  /** One more unit, as the peer sees it. */
  lemma UnitSeen(p: Peer, failed: bool, was: bool, heard: seq<Whole>, inside: seq<Bytes>, one: seq<Bytes>,
                 out: Bytes, compressed: bool, frameID: Word, end: nat)
    requires end <= |out| <= MAX_WORD && (was <==> failed || Intrudes(inside))
    requires Sees(p, was || Intrudes(one), Mid(heard + Wrap(inside) + Wrap(one), out, compressed, frameID, end))
    ensures Sees(p, failed || Intrudes(inside + one), Mid(heard + Wrap(inside + one), out, compressed, frameID, end))
  {
    WrapMoves(heard, inside, one);
    IntrudesSplit(inside, one);
  }

  // ---- the writer ----

  /** The only user of a transport. */
  class Writer {
    const tr: Transport
    const deflate: bool
    var frameID: nat
    var controlQ: seq<Bytes>

    ghost predicate QueueOk() reads this { AllSendable(controlQ) }

    ghost predicate AllSendable(controls: seq<Bytes>) { forall c :: c in controls ==> Sendable(c, tr.maxFrame) }

    ghost predicate AllPostable(posted: seq<seq<Bytes>>) {
      forall i :: 0 <= i < |posted| ==> AllSendable(posted[i])
    }

    ghost predicate Writable(e: Outbound) {
      Sendable(e.payload, tr.maxFrame) && AllSendable(e.before) && AllPostable(e.posted)
    }

    /** Between two frames: the peer has none open, or met an error before. */
    ghost predicate Valid() reads this, tr {
      QueueOk() && (tr.peer.failed || tr.peer.assembly.Closed?)
    }

    constructor (transport: Transport, mayDeflate: bool)
      requires transport.peer.assembly.Closed?
      ensures Valid() && tr == transport && deflate == mayDeflate && frameID == 0 && |controlQ| == 0
    {
      tr, deflate, frameID, controlQ := transport, mayDeflate, 0, [];
    }

    /** Writes the oldest queued control frame, if any. An open frame is undisturbed, unless the
        control frame takes several units: that is an error at the peer. */
    method InterleaveControl()
      requires QueueOk() && tr.frameID + 1 < CONTROL_ID_BASE
      modifies this`controlQ, tr
      ensures QueueOk() && controlQ == Left(old(controlQ))
      ensures tr.frameID <= old(tr.frameID) + 1
      ensures old(tr.peer).failed ==> tr.peer.failed
      ensures var p, took := old(tr.peer), Taken(old(controlQ));
              !p.failed && (p.assembly.Open? ==> p.assembly.frameID < CONTROL_ID_BASE) ==>
                Sees(tr.peer, p.assembly.Open? && Intrudes(took), p.(frames := p.frames + Wrap(took)))
    {
      if |controlQ| == 0 {
        return;
      }
      ghost var took := Taken(controlQ);
      assert took == [controlQ[0]] && (Intrudes(took) <==> |controlQ[0]| > UNIT_SIZE);
      tr.Send(controlQ[0]);
      controlQ := controlQ[1..];
    }

    /** Writes a run of reliable frames. The peer meets an error exactly if the queue and the
        entries break the stream. Otherwise it completes what was written out: every reliable
        frame, whole, and the control frames around them. */
    method WriteEntries(entries: seq<Outbound>)
      requires Valid() && forall i :: 0 <= i < |entries| ==> Writable(entries[i])
      requires frameID + |entries| < CONTROL_ID_BASE && tr.frameID + Cost(entries, |entries|) < CONTROL_ID_BASE
      modifies this, tr
      ensures Valid()
      ensures tr.peer.failed <==> old(tr.peer).failed || Breaks(deflate, old(controlQ), entries)
      ensures controlQ == QueueAfter(deflate, old(controlQ), entries, |entries|)
      ensures !tr.peer.failed ==>
        tr.peer.frames == old(tr.peer.frames) + FramesOf(WrittenOut(deflate, old(controlQ), entries, |entries|))
    {
      ghost var start, queue := tr.peer, controlQ;
      ghost var firstID, firstControl := frameID, tr.frameID;
      NoneSeen(start, deflate, queue, entries);
      for i := 0 to |entries|
        invariant Valid() && EntriesDone(start, queue, entries, i)
        invariant frameID <= firstID + i && tr.frameID <= firstControl + Cost(entries, i)
      {
        CostGrows(entries, i + 1, |entries|);
        WriteNext(entries, i, start, queue);
      }
      BreaksIsIntruded(deflate, queue, entries);
    }

    /** The first i entries are out, since the given start. */
    ghost predicate EntriesDone(start: Peer, queue: seq<Bytes>, entries: seq<Outbound>, i: nat)
      requires i <= |entries|
      reads this, tr
    {
      && controlQ == QueueAfter(deflate, queue, entries, i)
      && EntriesOut(tr.peer, start, deflate, queue, entries, i)
    }

    method WriteNext(entries: seq<Outbound>, i: nat, ghost start: Peer, ghost queue: seq<Bytes>)
      requires Valid() && i < |entries| && Writable(entries[i]) && EntriesDone(start, queue, entries, i)
      requires frameID + 1 < CONTROL_ID_BASE && tr.frameID + UnitsOf(|entries[i].payload|) + 1 < CONTROL_ID_BASE
      modifies this, tr
      ensures Valid() && EntriesDone(start, queue, entries, i + 1)
      ensures frameID <= old(frameID) + 1 && tr.frameID <= old(tr.frameID) + UnitsOf(|entries[i].payload|) + 1
    {
      ghost var was := tr.peer;
      WriteEntry(entries[i]);
      OneMoreSeen(tr.peer, was, start, deflate, queue, entries, i);
    }

    /** One turn of the entry loop: a queued control frame has its chance before the frame. */
    method WriteEntry(e: Outbound)
      requires Valid() && Writable(e)
      requires frameID + 1 < CONTROL_ID_BASE && tr.frameID + UnitsOf(|e.payload|) + 1 < CONTROL_ID_BASE
      modifies this, tr
      ensures Valid()
      ensures var p := EntryPlan(deflate, old(controlQ), e);
              && controlQ == p.queue
              && Sees(tr.peer, old(tr.peer).failed || Intrudes(p.inside),
                      After(old(tr.peer), p.before + p.inside, Outgoing(deflate, e.payload, e.deflated)))
      ensures frameID <= old(frameID) + 1 && tr.frameID <= old(tr.frameID) + UnitsOf(|e.payload|) + 1
    {
      ghost var heard := tr.peer.frames;
      controlQ := controlQ + e.before;
      ghost var q := controlQ;
      InterleaveControl();
      ghost var p := FramePlan(Outgoing(deflate, e.payload, e.deflated), controlQ, e.posted);
      WriteFrame(e.payload, e.deflated, e.posted);
      WrapMoves(heard, Taken(q), p.before + p.inside);
      Regroup(Taken(q), p.before, p.inside);
    }

    /** Writes one logical frame. posted[i] is what other threads queue just before unit i; a
        deflated form is used when it is allowed and shorter. */
    method WriteFrame(payload: Bytes, deflated: Option<Bytes>, posted: seq<seq<Bytes>>)
      requires Valid() && Sendable(payload, tr.maxFrame) && AllPostable(posted)
      requires frameID + 1 < CONTROL_ID_BASE && tr.frameID + UnitsOf(|payload|) < CONTROL_ID_BASE
      modifies this, tr
      ensures Valid()
      ensures var frame := Outgoing(deflate, payload, deflated);
              var p := FramePlan(frame, old(controlQ), posted);
              && controlQ == p.queue
              && Sees(tr.peer, old(tr.peer).failed || Intrudes(p.inside),
                   After(old(tr.peer), p.before + p.inside, frame))
      ensures frameID <= old(frameID) + 1 && tr.frameID <= old(tr.frameID) + UnitsOf(|payload|)
    {
      var out, compressed := payload, false;
      if deflate && |payload| >= MIN_DEFLATE && deflated.Some? && |deflated.value| < |payload| {
        out, compressed := deflated.value, true;
      }
      if !compressed && |out| <= UNIT_SIZE {
        tr.Send(out);
        return;
      }
      WriteNumbered(out, compressed, posted);
    }

    /** The frame's number is drawn after a control frame had its chance. */
    method WriteNumbered(out: Bytes, compressed: bool, posted: seq<seq<Bytes>>)
      requires Valid() && Sendable(out, tr.maxFrame) && AllPostable(posted)
      requires compressed || |out| > UNIT_SIZE
      requires frameID + 1 < CONTROL_ID_BASE && tr.frameID + UnitsOf(|out|) < CONTROL_ID_BASE
      modifies this, tr
      ensures Valid()
      ensures var p := FramePlan(Whole(out, compressed), old(controlQ), posted);
              && controlQ == p.queue
              && Sees(tr.peer, old(tr.peer).failed || Intrudes(p.inside),
                      After(old(tr.peer), p.before + p.inside, Whole(out, compressed)))
      ensures frameID == old(frameID) + 1 && tr.frameID <= old(tr.frameID) + UnitsOf(|out|)
    {
      ghost var heard, queue := tr.peer.frames, controlQ;
      InterleaveControl();
      frameID := frameID + 1;
      WriteUnits(out, compressed, posted);
      WrapMoves(heard, Taken(queue), Slipped(Left(queue), posted, UnitsOf(|out|)).inside);
    }

    /** The unit loop of one frame, after its number was drawn. */
    method WriteUnits(out: Bytes, compressed: bool, posted: seq<seq<Bytes>>)
      requires Valid() && Sendable(out, tr.maxFrame) && AllPostable(posted)
      requires compressed || |out| > UNIT_SIZE
      requires frameID < CONTROL_ID_BASE && tr.frameID + UnitsOf(|out|) - 1 < CONTROL_ID_BASE
      modifies this`controlQ, tr
      ensures Valid()
      ensures var s := Slipped(old(controlQ), posted, UnitsOf(|out|));
              && controlQ == s.queue
              && Sees(tr.peer, old(tr.peer).failed || Intrudes(s.inside),
                      After(old(tr.peer), s.inside, Whole(out, compressed)))
      ensures tr.frameID <= old(tr.frameID) + UnitsOf(|out|) - 1
    {
      var units := SplitFrame(out, compressed, frameID, UNIT_SIZE);
      if |out| <= UNIT_SIZE {
        if !tr.peer.failed {
          HearSmall(tr.peer, out, compressed, frameID, tr.maxFrame);
        }
        ghost var queue := controlQ;
        controlQ := controlQ + if |posted| > 0 then posted[0] else [];
        OneUnitSlips(queue, posted);
        tr.SendFragment(units.value[0]);
      } else {
        FragmentsCarry(out, compressed, frameID, tr.maxFrame);
        WriteFragments(out, compressed, units.value, posted);
      }
    }

    /** The loop over the fragments of a long frame. */
    method WriteFragments(ghost out: Bytes, ghost compressed: bool, units: seq<Bytes>, posted: seq<seq<Bytes>>)
      requires Valid() && 0 < |out| && Sendable(out, tr.maxFrame) && AllPostable(posted)
      requires frameID < CONTROL_ID_BASE && tr.frameID + |units| - 1 < CONTROL_ID_BASE
      requires Carries(units, out, compressed, frameID, tr.maxFrame)
      modifies this`controlQ, tr
      ensures Valid()
      ensures var s := Slipped(old(controlQ), posted, |units|);
              && controlQ == s.queue
              && Sees(tr.peer, old(tr.peer).failed || Intrudes(s.inside),
                   After(old(tr.peer), s.inside, Whole(out, compressed)))
      ensures tr.frameID <= old(tr.frameID) + |units| - 1
    {
      ghost var start, queue := tr.peer, controlQ;
      ghost var firstControl := tr.frameID;
      var i := 0;
      while i < |units|
        invariant i <= |units| && tr.frameID <= firstControl + (if i > 0 then i - 1 else 0)
        invariant Running(out, compressed, posted, i, start, queue)
      {
        WriteTurn(out, compressed, units[i], posted, i, start, queue);
        i := i + 1;
      }
      RunEnds(start, Slipped(queue, posted, i).inside, out, compressed, frameID);
    }

    /** The first i units of a frame are out, since the given start. */
    ghost predicate Running(out: Bytes, compressed: bool, posted: seq<seq<Bytes>>, i: nat, start: Peer,
                            queue: seq<Bytes>)
      requires |out| <= MAX_WORD && frameID < CONTROL_ID_BASE
      reads this, tr
    {
      var s := Slipped(queue, posted, i);
      && QueueOk() && controlQ == s.queue
      && Sees(tr.peer, start.failed || Intrudes(s.inside),
              Mid(start.frames + Wrap(s.inside), out, compressed, frameID, Cut(out, i)))
    }

    /** One turn of the loop, as the peer and the queue see it against the start. */
    method WriteTurn(ghost out: Bytes, ghost compressed: bool, unit: Bytes, posted: seq<seq<Bytes>>, i: nat,
                     ghost start: Peer, ghost queue: seq<Bytes>)
      requires Sendable(out, tr.maxFrame) && AllPostable(posted) && i * UNIT_SIZE < |out|
      requires frameID < CONTROL_ID_BASE && (i > 0 ==> tr.frameID + 1 < CONTROL_ID_BASE)
      requires Advances(unit, out, compressed, frameID, Cut(out, i), Cut(out, i + 1), tr.maxFrame)
      requires Running(out, compressed, posted, i, start, queue)
      modifies this`controlQ, tr
      ensures tr.frameID <= old(tr.frameID) + (if i > 0 then 1 else 0)
      ensures Running(out, compressed, posted, i + 1, start, queue)
    {
      ghost var inside, was := Slipped(queue, posted, i).inside, tr.peer.failed;
      var arrivals := if i < |posted| then posted[i] else [];
      ghost var one := if i > 0 then Taken(controlQ + arrivals) else controlQ[..0];
      WriteUnit(out, compressed, unit, arrivals, i > 0, Cut(out, i), Cut(out, i + 1), start.frames + Wrap(inside));
      UnitSeen(tr.peer, start.failed, was, start.frames, inside, one, out, compressed, frameID, Cut(out, i + 1));
      assert Slipped(queue, posted, i + 1).inside == inside + one;
    }

    /** One turn of the unit loop: what arrives is queued, one queued control frame goes out
        unless this is the first unit, and then the unit. */
    method WriteUnit(ghost out: Bytes, ghost compressed: bool, unit: Bytes, arrivals: seq<Bytes>, interleave: bool,
                     ghost off: nat, ghost end: nat, ghost heard: seq<Whole>)
      requires off < end <= |out| && Sendable(out, tr.maxFrame) && (interleave ==> off > 0)
      requires frameID < CONTROL_ID_BASE && (interleave ==> tr.frameID + 1 < CONTROL_ID_BASE)
      requires Advances(unit, out, compressed, frameID, off, end, tr.maxFrame)
      requires QueueOk() && AllSendable(arrivals)
      requires tr.peer.failed || tr.peer == Mid(heard, out, compressed, frameID, off)
      modifies this`controlQ, tr
      ensures QueueOk()
      ensures controlQ == if interleave then Left(old(controlQ) + arrivals) else old(controlQ) + arrivals
      ensures tr.frameID <= old(tr.frameID) + (if interleave then 1 else 0)
      ensures var took := if interleave then Taken(old(controlQ) + arrivals) else old(controlQ)[..0];
              Sees(tr.peer, old(tr.peer).failed || Intrudes(took),
                   Mid(heard + Wrap(took), out, compressed, frameID, end))
    {
      ghost var took := if interleave then Taken(controlQ + arrivals) else controlQ[..0];
      controlQ := controlQ + arrivals;
      if interleave {
        InterleaveControl();
      }
      tr.SendFragment(unit);
    }
  }

  lemma OneUnitSlips(queue: seq<Bytes>, posted: seq<seq<Bytes>>)
    ensures var s := Slipped(queue, posted, 1);
            |s.inside| == 0 && s.queue == queue + if |posted| > 0 then posted[0] else []
  {
    assert Slipped(queue, posted, 0) == Slip(queue[..0], queue);
  }

  /** How the peer stands against the start once pieces are out. */
  predicate EntriesSeen(now: Peer, start: Peer, pieces: seq<Piece>) {
    && (now.failed <==> start.failed || Intruded(pieces))
    && (!now.failed ==> now.frames == start.frames + FramesOf(pieces))
  }

  predicate EntriesOut(now: Peer, start: Peer, deflate: bool, queue: seq<Bytes>, entries: seq<Outbound>, i: nat)
    requires i <= |entries|
  {
    EntriesSeen(now, start, WrittenOut(deflate, queue, entries, i))
  }

  lemma NoneSeen(start: Peer, deflate: bool, queue: seq<Bytes>, entries: seq<Outbound>)
    ensures EntriesOut(start, start, deflate, queue, entries, 0)
  {
    var none := WrittenOut(deflate, queue, entries, 0);
    NothingOut(none);
    assert |FramesOf(none)| == 0;
  }

  lemma OneMoreSeen(now: Peer, was: Peer, start: Peer, deflate: bool, queue: seq<Bytes>, entries: seq<Outbound>, i: nat)
    requires i < |entries| && EntriesOut(was, start, deflate, queue, entries, i)
    requires var e, p := entries[i], EntryPlan(deflate, QueueAfter(deflate, queue, entries, i), entries[i]);
             Sees(now, was.failed || Intrudes(p.inside),
               After(was, p.before + p.inside, Outgoing(deflate, e.payload, e.deflated)))
    ensures EntriesOut(now, start, deflate, queue, entries, i + 1)
  {
    var e, pieces := entries[i], WrittenOut(deflate, queue, entries, i);
    var p := EntryPlan(deflate, QueueAfter(deflate, queue, entries, i), e);
    EntryMoves(start.frames, pieces, p.before, p.inside, Outgoing(deflate, e.payload, e.deflated));
    EntryIntrudes(pieces, p.before, p.inside, Outgoing(deflate, e.payload, e.deflated));
  }

  /** Such a stream can be broken: a control frame longer than a unit that is queued while a frame
      of two or more units goes out is slipped behind its first unit. */
  method LongControlBreaks(payload: Bytes, control: Bytes, maxFrame: int) returns (w: Writer)
    requires Sendable(payload, maxFrame) && |payload| > UNIT_SIZE
    requires Sendable(control, maxFrame) && |control| > UNIT_SIZE
    ensures fresh(w) && w.tr.peer.failed
  {
    var tr := new Transport(maxFrame);
    w := new Writer(tr, false);
    var e := Outbound(payload, None, [], [[control]]);
    LongControlIntrudes(w.controlQ, e);
    assert Cost([e], 1) == UnitsOf(|payload|) + 1 by {
      assert Cost([e], 0) == 0;
    }
    w.WriteEntries([e]);
    assert BreaksAt(false, [], [e], 0);
    assert tr.peer.failed;
  }

  lemma LongControlIntrudes(queue: seq<Bytes>, e: Outbound)
    requires |queue| == 0 && |e.before| == 0 && |e.posted| == 1 && |e.posted[0]| == 1 && |e.posted[0][0]| > UNIT_SIZE
    requires |e.payload| > UNIT_SIZE
    ensures Intrudes(EntryPlan(false, queue, e).inside)
  {
    var q := Left(Left(queue + e.before));
    TwoUnitsSlip(q, e.posted);
    SlippedGrows(q, e.posted, 2, UnitsOf(|e.payload|));
  }

  lemma TwoUnitsSlip(queue: seq<Bytes>, posted: seq<seq<Bytes>>)
    requires |queue| == 0 && |posted| == 1 && |posted[0]| == 1
    ensures Slipped(queue, posted, 2).inside == posted[0]
  {
    OneUnitSlips(queue, posted);
  }

  lemma {:induction false} SlippedGrows(queue: seq<Bytes>, posted: seq<seq<Bytes>>, k: nat, n: nat)
    requires k <= n
    ensures Slipped(queue, posted, k).inside <= Slipped(queue, posted, n).inside
    decreases n
  {
    if k == n {
    } else {
      SlippedGrows(queue, posted, k, n - 1);
    }
  }
}
