/** The one stream of units a host reads, and the transport that writes it and numbers whole
    frames for itself (cmd/capri-hub/main.go). */
module UnitStream {
  import opened Wire
  import opened Units

  const CONTROL_ID_BASE := 0x8000_0000

  /** One frame as the peer gets it; a compressed one is still to be inflated. */
  datatype Whole = Whole(bytes: Bytes, compressed: bool)

  /** The peer's view of a stream: its reassembler, the frames it completed, and whether any
      unit was an error. */
  datatype Peer = Peer(assembly: Assembly, frames: seq<Whole>, failed: bool)

  function Hear(p: Peer, unit: Bytes, maxFrame: int): Peer {
    var fed := Feed(p.assembly, unit, maxFrame);
    match fed.result
    case Failed(_) => Peer(fed.after, p.frames, true)
    case Pending(_) => Peer(fed.after, p.frames, p.failed)
    case Complete(frame, compressed) => Peer(fed.after, p.frames + [Whole(frame, compressed)], p.failed)
  }

  /** Hearing the rest of a run of units. */
  function HearRest(p: Peer, units: seq<Bytes>, maxFrame: int): Peer
    decreases |units|
  {
    if |units| == 0 then p else HearRest(Hear(p, units[0], maxFrame), units[1..], maxFrame)
  }

  /** An error is never forgotten. */
  lemma {:induction false} FailedStays(p: Peer, units: seq<Bytes>, maxFrame: int)
    requires p.failed
    ensures HearRest(p, units, maxFrame).failed
    decreases |units|
  {
    if |units| == 0 {
    } else {
      FailedStays(Hear(p, units[0], maxFrame), units[1..], maxFrame);
    }
  }

  /** A peer that has heard frames and then the first off bytes of one fragmented frame. */
  function Mid(frames: seq<Whole>, out: Bytes, compressed: bool, frameID: Word, off: nat): Peer
    requires off <= |out| <= MAX_WORD
  {
    if off < |out| then Peer(Midway(out, compressed, frameID, off), frames, false)
    else Peer(Closed, frames + [Whole(out, compressed)], false)
  }

  /** A frame the peer can take. */
  predicate Sendable(payload: Bytes, maxFrame: int) { |payload| <= MAX_WORD && Fits(payload, maxFrame) }

  /** Hearing one whole frame of a single unit adds it and leaves an open frame alone. */
  lemma HearSmall(p: Peer, payload: Bytes, compressed: bool, frameID: Word, maxFrame: int)
    requires |payload| <= UNIT_SIZE && Fits(payload, maxFrame) && (p.assembly.Open? ==> p.assembly.frameID != frameID)
    ensures Hear(p, EncodeUnit(CompleteUnit(payload, compressed, frameID)), maxFrame)
         == p.(frames := p.frames + [Whole(payload, compressed)])
  {
    CompletePassesThrough(p.assembly, payload, compressed, frameID, maxFrame);
  }

  /** One fragment takes the peer on. */
  lemma HearFragment(frames: seq<Whole>, out: Bytes, compressed: bool, frameID: Word, off: nat, end: nat, maxFrame: int)
    requires off < end <= |out| <= MAX_WORD && Fits(out, maxFrame)
    ensures Hear(Mid(frames, out, compressed, frameID, off),
                 EncodeUnit(FragmentUnit(out, compressed, frameID, off, end)), maxFrame)
         == Mid(frames, out, compressed, frameID, end)
  {
    FragmentAdvances(out, compressed, frameID, off, end, maxFrame);
  }

  /** All the fragments of a frame from off on take the peer to its end. */
  lemma {:induction false} HearFragments(frames: seq<Whole>, out: Bytes, compressed: bool, frameID: Word, size: nat,
                                         off: nat, maxFrame: int)
    requires size > 0 && off <= |out| <= MAX_WORD && Fits(out, maxFrame)
    ensures HearRest(Mid(frames, out, compressed, frameID, off),
                     FragmentsFrom(out, compressed, frameID, size, off), maxFrame)
         == Mid(frames, out, compressed, frameID, |out|)
    decreases |out| - off
  {
    if off == |out| {
    } else {
      var end := FragmentEnd(out, off, size);
      HearFragment(frames, out, compressed, frameID, off, end, maxFrame);
      HearFragments(frames, out, compressed, frameID, size, end, maxFrame);
      var units := FragmentsFrom(out, compressed, frameID, size, off);
      assert units[0] == EncodeUnit(FragmentUnit(out, compressed, frameID, off, end));
      assert units[1..] == FragmentsFrom(out, compressed, frameID, size, end);
    }
  }

  /** A frame of several units cannot be slipped inside another one's run: its first fragment is
      an error. */
  lemma HearIntruder(p: Peer, out: Bytes, frameID: Word, maxFrame: int)
    requires UNIT_SIZE < |out| <= MAX_WORD && p.assembly.Open? && p.assembly.frameID != frameID
    ensures HearRest(p, FragmentsFrom(out, false, frameID, UNIT_SIZE, 0), maxFrame).failed
  {
    var units := FragmentsFrom(out, false, frameID, UNIT_SIZE, 0);
    var end := FragmentEnd(out, 0, UNIT_SIZE);
    DecodeEncode(FragmentUnit(out, false, frameID, 0, end));
    FailedStays(Hear(p, units[0], maxFrame), units[1..], maxFrame);
  }

  /** The peer met an error exactly if broken, and otherwise is where it should be. */
  predicate Sees(p: Peer, broken: bool, ideal: Peer) {
    if broken then p.failed else p == ideal
  }

  function With(p: Peer, frame: Whole): Peer { p.(frames := p.frames + [frame]) }

  /** What becomes of one whole frame sent under an id of the transport's own. */
  lemma HearWhole(p: Peer, payload: Bytes, frameID: Word, maxFrame: int)
    requires Sendable(payload, maxFrame) && !p.failed && (p.assembly.Open? ==> p.assembly.frameID != frameID)
    ensures var units := Split(payload, false, frameID, UNIT_SIZE);
            && units.Some?
            && Sees(HearRest(p, units.value, maxFrame), p.assembly.Open? && |payload| > UNIT_SIZE,
                    With(p, Whole(payload, false)))
  {
    if |payload| <= UNIT_SIZE {
      HearSmall(p, payload, false, frameID, maxFrame);
      assert |[EncodeUnit(CompleteUnit(payload, false, frameID))][1..]| == 0;
    } else if p.assembly.Open? {
      HearIntruder(p, payload, frameID, maxFrame);
    } else {
      HearFragments(p.frames, payload, false, frameID, UNIT_SIZE, 0, maxFrame);
    }
  }

  class Transport {
    var frameID: nat
    const maxFrame: int
    /** The other end, which hears every unit as it is written. */
    ghost var peer: Peer

    constructor (peerMaxFrame: int)
      ensures frameID == 0 && maxFrame == peerMaxFrame && !peer.failed && peer.assembly.Closed?
    {
      frameID, maxFrame := 0, peerMaxFrame;
      peer := Peer(Closed, [], false);
    }

    /** One already encoded unit. */
    method SendFragment(unit: Bytes)
      modifies this`peer
      ensures peer == Hear(old(peer), unit, maxFrame)
    {
      peer := Hear(peer, unit, maxFrame);
    }

    /** One whole frame, under an id in the transport's own half of the id space. The peer completes
        it, unless it takes several units and another frame is open: that is an error. */
    method Send(payload: Bytes)
      requires Sendable(payload, maxFrame) && frameID + 1 < CONTROL_ID_BASE
      modifies this
      ensures frameID == old(frameID) + 1
      ensures old(peer).failed ==> peer.failed
      ensures var p := old(peer);
              !p.failed && (p.assembly.Open? ==> p.assembly.frameID < CONTROL_ID_BASE) ==>
                Sees(peer, p.assembly.Open? && |payload| > UNIT_SIZE, With(p, Whole(payload, false)))
    {
      ghost var p := peer;
      frameID := frameID + 1;
      var units := SplitFrame(payload, false, CONTROL_ID_BASE + frameID, UNIT_SIZE);
      SendAll(units.value);
      if p.failed {
        FailedStays(p, units.value, maxFrame);
      } else if p.assembly.Open? ==> p.assembly.frameID < CONTROL_ID_BASE {
        HearWhole(p, payload, CONTROL_ID_BASE + frameID, maxFrame);
      }
    }

    method SendAll(units: seq<Bytes>)
      modifies this`peer
      ensures peer == HearRest(old(peer), units, maxFrame)
    {
      var i := 0;
      assert units[0..] == units;
      while i < |units|
        invariant i <= |units| && HearRest(peer, units[i..], maxFrame) == HearRest(old(peer), units, maxFrame)
      {
        assert units[i..][1..] == units[i + 1..];
        SendFragment(units[i]);
        i := i + 1;
      }
    }
  }
}
