/** Transport units (wire/unit.go): the 13-byte header codec, splitting a frame into units and
    putting it back together. */
module Units {
  import opened Wire

  type Byte = x: int | 0 <= x < 256
  type Word = x: int | 0 <= x < 0x1_0000_0000

  type Bytes = seq<Byte>

  const UNIT_SIZE := 32768
  const HEADER := 13
  const MAX_WORD := 0xFFFF_FFFF

  datatype Unit = Unit(flags: Byte, frameID: Word, total: Word, offset: Word, data: Bytes)

  datatype UnitError =
    | TooShort | UnknownFlags | PastTotal | EmptyFragment | NotComplete
    | FrameTooLarge | CompletesWhileOpen | OpensInside | OtherFrameOpen | FlagChanged | WrongOffset | Overrun

  datatype Decoded = Good(u: Unit) | Bad(why: UnitError)

  function Put32(w: Word): (b: Bytes)
    ensures |b| == 4
  {
    [w / 0x100_0000, (w / 0x1_0000) % 0x100, (w / 0x100) % 0x100, w % 0x100]
  }

  function Get32(b: Bytes): Word
    requires |b| == 4
  {
    var b0: int, b1: int, b2: int, b3: int := b[0], b[1], b[2], b[3];
    ((b0 * 0x100 + b1) * 0x100 + b2) * 0x100 + b3
  }

  predicate Compressed(flags: Byte) { flags % 2 == 1 }

  predicate Fragment(flags: Byte) { (flags / 2) % 2 == 1 }

  function EncodeUnit(u: Unit): (b: Bytes)
    ensures |b| == HEADER + |u.data|
  {
    [u.flags] + Put32(u.frameID) + Put32(u.total) + Put32(u.offset) + u.data
  }

  function DecodeUnit(b: Bytes): Decoded {
    if |b| < HEADER then Bad(TooShort)
    else
      var u := Unit(b[0], Get32(b[1..5]), Get32(b[5..9]), Get32(b[9..13]), b[HEADER..]);
      if u.flags >= 4 then Bad(UnknownFlags)
      else if u.offset + |u.data| > u.total then Bad(PastTotal)
      else if Fragment(u.flags) then
        if u.total == 0 then Bad(EmptyFragment) else Good(u)
      else if u.offset != 0 || |u.data| != u.total then Bad(NotComplete)
      else Good(u)
  }

  /** The units a peer may send. */
  predicate WellFormed(u: Unit) {
    && u.flags < 4
    && u.offset + |u.data| <= u.total
    && (if Fragment(u.flags) then u.total > 0 else u.offset == 0 && |u.data| == u.total)
  }

  lemma GetPut(w: Word)
    ensures Get32(Put32(w)) == w
  {
    var mid, high, top := w / 0x100, w / 0x1_0000, w / 0x100_0000;
    assert mid / 0x100 == high && high / 0x100 == top;
    assert w == mid * 0x100 + w % 0x100;
    assert mid == high * 0x100 + mid % 0x100;
    assert high == top * 0x100 + high % 0x100;
  }

  lemma PutGet(b: Bytes)
    requires |b| == 4
    ensures Put32(Get32(b)) == b
  {
    var b0: int, b1: int, b2: int, b3: int := b[0], b[1], b[2], b[3];
    var high := b0 * 0x100 + b1;
    var mid := high * 0x100 + b2;
    var w := mid * 0x100 + b3;
    assert w == high * 0x1_0000 + (b2 * 0x100 + b3) == b0 * 0x100_0000 + (b1 * 0x1_0000 + b2 * 0x100 + b3);
    assert w / 0x100 == mid && w % 0x100 == b3;
    assert w / 0x1_0000 == high;
    assert w / 0x100_0000 == b0;
  }

  /** Encoding loses nothing, and decoding gives a unit back exactly when it is well formed. */
  lemma DecodeEncode(u: Unit)
    ensures DecodeUnit(EncodeUnit(u)) == Good(u) <==> WellFormed(u)
    ensures DecodeUnit(EncodeUnit(u)).Good? <==> WellFormed(u)
  {
    var b := EncodeUnit(u);
    GetPut(u.frameID);
    GetPut(u.total);
    GetPut(u.offset);
    assert b[1..5] == Put32(u.frameID);
    assert b[5..9] == Put32(u.total);
    assert b[9..13] == Put32(u.offset);
    assert b[HEADER..] == u.data;
  }

  /** Accepted bytes are the encoding of what they decode to: no two byte strings share a unit. */
  lemma EncodeDecode(b: Bytes)
    requires DecodeUnit(b).Good?
    ensures EncodeUnit(DecodeUnit(b).u) == b && WellFormed(DecodeUnit(b).u)
  {
    PutGet(b[1..5]);
    PutGet(b[5..9]);
    PutGet(b[9..13]);
    assert b == [b[0]] + b[1..5] + b[5..9] + b[9..13] + b[HEADER..];
  }

  /** The bytes of a unit: the flags, three big-endian words of 32 bits, and the data. */
  lemma HeaderLayout(u: Unit)
    ensures var b := EncodeUnit(u);
            && b[0] == u.flags && b[HEADER..] == u.data
            && u.frameID == Word32(b, 1) && u.total == Word32(b, 5) && u.offset == Word32(b, 9)
  {
    var b := EncodeUnit(u);
    GetPut(u.frameID);
    GetPut(u.total);
    GetPut(u.offset);
    assert b[1..5] == Put32(u.frameID);
    assert b[5..9] == Put32(u.total);
    assert b[9..13] == Put32(u.offset);
  }

  function Word32(b: Bytes, at: nat): int
    requires at + 4 <= |b|
  {
    var b0: int, b1: int, b2: int, b3: int := b[at], b[at + 1], b[at + 2], b[at + 3];
    b0 * 16777216 + b1 * 65536 + b2 * 256 + b3
  }

  // ---- splitting ----

  function CompleteUnit(payload: Bytes, compressed: bool, frameID: Word): Unit
    requires |payload| <= MAX_WORD
  {
    Unit(if compressed then 1 else 0, frameID, |payload|, 0, payload)
  }

  function FragmentUnit(payload: Bytes, compressed: bool, frameID: Word, off: nat, end: nat): Unit
    requires off <= end <= |payload| <= MAX_WORD
  {
    Unit(if compressed then 3 else 2, frameID, |payload|, off, payload[off..end])
  }

  function FragmentEnd(payload: Bytes, off: nat, size: nat): nat {
    if off + size < |payload| then off + size else |payload|
  }

  /** The first flag says compressed, the second one of several units. */
  lemma FlagBits(payload: Bytes, compressed: bool, frameID: Word, off: nat, end: nat)
    requires off <= end <= |payload| <= MAX_WORD
    ensures EncodeUnit(CompleteUnit(payload, compressed, frameID))[0] == if compressed then 1 else 0
    ensures EncodeUnit(FragmentUnit(payload, compressed, frameID, off, end))[0] == if compressed then 3 else 2
  {}

  /** The fragments that carry payload from off on. */
  function FragmentsFrom(payload: Bytes, compressed: bool, frameID: Word, size: nat, off: nat): seq<Bytes>
    requires size > 0 && off <= |payload| <= MAX_WORD
    decreases |payload| - off
  {
    if off == |payload| then []
    else
      var end := FragmentEnd(payload, off, size);
      [EncodeUnit(FragmentUnit(payload, compressed, frameID, off, end))]
      + FragmentsFrom(payload, compressed, frameID, size, end)
  }

  function EffectiveSize(unitSize: int): (size: nat)
    ensures size > 0
  {
    if unitSize <= 0 then UNIT_SIZE else unitSize
  }

  /** None when the payload does not fit a 32-bit total. */
  function Split(payload: Bytes, compressed: bool, frameID: Word, unitSize: int): Option<seq<Bytes>> {
    if |payload| > MAX_WORD then None
    else if |payload| <= EffectiveSize(unitSize) then Some([EncodeUnit(CompleteUnit(payload, compressed, frameID))])
    else Some(FragmentsFrom(payload, compressed, frameID, EffectiveSize(unitSize), 0))
  }

  lemma OneMoreFragment(out: seq<Bytes>, payload: Bytes, compressed: bool, frameID: Word, size: int, off: nat)
    requires size > 0 && off < |payload| <= MAX_WORD
    ensures var end := FragmentEnd(payload, off, size);
            var u := EncodeUnit(FragmentUnit(payload, compressed, frameID, off, end));
            out + FragmentsFrom(payload, compressed, frameID, size, off)
              == (out + [u]) + FragmentsFrom(payload, compressed, frameID, size, end)
  {}

  method SplitFrame(payload: Bytes, compressed: bool, frameID: Word, unitSize: int) returns (units: Option<seq<Bytes>>)
    ensures units == Split(payload, compressed, frameID, unitSize)
  {
    if |payload| > MAX_WORD {
      return None;
    }
    var size := EffectiveSize(unitSize);
    if |payload| <= size {
      return Some([EncodeUnit(CompleteUnit(payload, compressed, frameID))]);
    }
    var out: seq<Bytes> := [];
    var off := 0;
    while off < |payload|
      invariant 0 <= off <= |payload|
      invariant out + FragmentsFrom(payload, compressed, frameID, size, off)
             == FragmentsFrom(payload, compressed, frameID, size, 0)
    {
      var end := |payload|;
      if size < |payload| - off {
        end := off + size;
      }
      var u := EncodeUnit(FragmentUnit(payload, compressed, frameID, off, end));
      OneMoreFragment(out, payload, compressed, frameID, size, off);
      out := out + [u];
      off := end;
    }
    assert out + FragmentsFrom(payload, compressed, frameID, size, off) == out;
    units := Some(out);
  }

  // ---- reassembly ----

  /** The one fragmented frame that may be open. */
  datatype Assembly = Closed | Open(frameID: Word, total: Word, compressed: bool, buf: Bytes)

  datatype Result = Failed(why: UnitError) | Pending(compressed: bool) | Complete(frame: Bytes, compressed: bool)

  datatype Fed = Fed(after: Assembly, result: Result)

  /** A frame whose bytes were collected so far: still open, whole, or too long. The total is
      the one its first fragment announced; later fragments' totals are not compared. */
  function Collect(a: Assembly): Fed
    requires a.Open?
  {
    if |a.buf| < a.total then Fed(a, Pending(a.compressed))
    else if |a.buf| > a.total then Fed(a, Failed(Overrun))
    else Fed(Closed, Complete(a.buf, a.compressed))
  }

  function Feed(a: Assembly, raw: Bytes, maxFrame: int): Fed {
    var d := DecodeUnit(raw);
    if d.Bad? then Fed(a, Failed(d.why)) else FeedUnit(a, d.u, maxFrame)
  }

  function FeedUnit(a: Assembly, u: Unit, maxFrame: int): Fed {
    if maxFrame > 0 && u.total > maxFrame then Fed(a, Failed(FrameTooLarge))
    else if !Fragment(u.flags) then
      if a.Open? && u.frameID == a.frameID then Fed(a, Failed(CompletesWhileOpen))
      else Fed(a, Complete(u.data, Compressed(u.flags)))
    else if a.Closed? then
      if u.offset != 0 then Fed(a, Failed(OpensInside))
      else Collect(Open(u.frameID, u.total, Compressed(u.flags), u.data))
    else if u.frameID != a.frameID then Fed(a, Failed(OtherFrameOpen))
    else if Compressed(u.flags) != a.compressed then Fed(a, Failed(FlagChanged))
    else if u.offset != |a.buf| then Fed(a, Failed(WrongOffset))
    else Collect(a.(buf := a.buf + u.data))
  }

  class Reassembler {
    var open: bool
    var frameID: Word
    var total: Word
    var compressed: bool
    var buf: Bytes

    ghost function State(): Assembly reads this {
      if open then Open(frameID, total, compressed, buf) else Closed
    }

    constructor ()
      ensures State() == Closed
    {
      open, frameID, total, compressed, buf := false, 0, 0, false, [];
    }

    method Reset()
      modifies this
      ensures State() == Closed
    {
      open, frameID, total, compressed, buf := false, 0, 0, false, [];
    }

    method Accept(raw: Bytes, maxFrame: int) returns (r: Result)
      modifies this
      ensures Fed(State(), r) == Feed(old(State()), raw, maxFrame)
    {
      var d := DecodeUnit(raw);
      if d.Bad? {
        return Failed(d.why);
      }
      var u := d.u;
      if maxFrame > 0 && u.total > maxFrame {
        return Failed(FrameTooLarge);
      }
      var fragCompressed := Compressed(u.flags);
      if !Fragment(u.flags) {
        if open && u.frameID == frameID {
          return Failed(CompletesWhileOpen);
        }
        return Complete(u.data, fragCompressed);
      }
      if !open {
        if u.offset != 0 {
          return Failed(OpensInside);
        }
        open, frameID, total, compressed, buf := true, u.frameID, u.total, fragCompressed, u.data;
      } else {
        if u.frameID != frameID {
          return Failed(OtherFrameOpen);
        } else if fragCompressed != compressed {
          return Failed(FlagChanged);
        } else if u.offset != |buf| {
          return Failed(WrongOffset);
        }
        buf := buf + u.data;
      }
      if |buf| < total {
        return Pending(compressed);
      }
      if |buf| > total {
        return Failed(Overrun);
      }
      r := Complete(buf, compressed);
      Reset();
    }
  }

  // ---- split, then reassemble ----

  predicate Fits(payload: Bytes, maxFrame: int) { maxFrame <= 0 || |payload| <= maxFrame }

  /** A complete unit passes through and leaves an open frame alone, unless it reuses that
      frame's number. */
  lemma CompletePassesThrough(a: Assembly, payload: Bytes, compressed: bool, frameID: Word, maxFrame: int)
    requires |payload| <= MAX_WORD && Fits(payload, maxFrame)
    ensures Feed(a, EncodeUnit(CompleteUnit(payload, compressed, frameID)), maxFrame)
         == Fed(a, if a.Open? && a.frameID == frameID then Failed(CompletesWhileOpen)
           else Complete(payload, compressed))
  {
    DecodeEncode(CompleteUnit(payload, compressed, frameID));
  }

  /** The reassembler after the first off bytes of a fragmented payload. */
  function Midway(payload: Bytes, compressed: bool, frameID: Word, off: nat): Assembly
    requires off <= |payload| <= MAX_WORD
  {
    if off == 0 then Closed else Open(frameID, |payload|, compressed, payload[..off])
  }

  /** One fragment moves the reassembler on; only the one that reaches the end completes. */
  lemma FragmentAdvances(payload: Bytes, compressed: bool, frameID: Word, off: nat, end: nat, maxFrame: int)
    requires off < end <= |payload| <= MAX_WORD && Fits(payload, maxFrame)
    ensures Feed(Midway(payload, compressed, frameID, off),
                 EncodeUnit(FragmentUnit(payload, compressed, frameID, off, end)), maxFrame)
         == if end < |payload| then Fed(Midway(payload, compressed, frameID, end), Pending(compressed))
            else Fed(Closed, Complete(payload, compressed))
  {
    DecodeEncode(FragmentUnit(payload, compressed, frameID, off, end));
    assert payload[..off] + payload[off..end] == payload[..end];
    assert payload[0..end] == payload[..end];
    if end == |payload| {
      assert payload[..end] == payload;
    }
  }

  /** The results of feeding a run of units, and the state it ends in. */
  datatype FedAll = FedAll(after: Assembly, results: seq<Result>)

  function FeedAll(a: Assembly, units: seq<Bytes>, maxFrame: int): FedAll
    decreases |units|
  {
    if |units| == 0 then FedAll(a, [])
    else
      var one := Feed(a, units[0], maxFrame);
      var rest := FeedAll(one.after, units[1..], maxFrame);
      FedAll(rest.after, [one.result] + rest.results)
  }

  lemma {:induction false} FragmentsReassemble(payload: Bytes, compressed: bool, frameID: Word, size: nat, off: nat,
                                               maxFrame: int)
    requires size > 0 && off < |payload| <= MAX_WORD && Fits(payload, maxFrame)
    ensures var units := FragmentsFrom(payload, compressed, frameID, size, off);
            var fed := FeedAll(Midway(payload, compressed, frameID, off), units, maxFrame);
            && fed.after == Closed && |fed.results| == |units| > 0
            && fed.results[|units| - 1] == Complete(payload, compressed)
            && (forall i :: 0 <= i < |units| - 1 ==> fed.results[i] == Pending(compressed))
    decreases |payload| - off
  {
    var end := FragmentEnd(payload, off, size);
    FragmentAdvances(payload, compressed, frameID, off, end, maxFrame);
    var units := FragmentsFrom(payload, compressed, frameID, size, off);
    var rest := FragmentsFrom(payload, compressed, frameID, size, end);
    assert units[0] == EncodeUnit(FragmentUnit(payload, compressed, frameID, off, end)) && units[1..] == rest;
    if end < |payload| {
      FragmentsReassemble(payload, compressed, frameID, size, end, maxFrame);
    } else {
      assert |rest| == 0;
    }
  }

  /** Round trip: for every payload that fits a 32-bit total and every unit size, feeding the
      units in order completes on the last one only, with the same bytes and flag, and leaves
      the reassembler closed. */
  lemma SplitThenReassemble(payload: Bytes, compressed: bool, frameID: Word, unitSize: int, maxFrame: int)
    requires |payload| <= MAX_WORD && Fits(payload, maxFrame)
    ensures var split := Split(payload, compressed, frameID, unitSize);
            && split.Some?
            && var units := split.value;
               var fed := FeedAll(Closed, units, maxFrame);
               && fed.after == Closed && |fed.results| == |units| > 0
               && fed.results[|units| - 1] == Complete(payload, compressed)
               && (forall i :: 0 <= i < |units| - 1 ==> fed.results[i] == Pending(compressed))
  {
    var size := EffectiveSize(unitSize);
    if |payload| <= size {
      CompletePassesThrough(Closed, payload, compressed, frameID, maxFrame);
      var units := [EncodeUnit(CompleteUnit(payload, compressed, frameID))];
      assert |units[1..]| == 0;
    } else {
      FragmentsReassemble(payload, compressed, frameID, size, 0, maxFrame);
    }
  }

  /** No unit carries more than the unit size. */
  lemma {:induction false} FragmentsAreSmall(payload: Bytes, compressed: bool, frameID: Word, size: nat, off: nat)
    requires size > 0 && off <= |payload| <= MAX_WORD
    ensures forall u :: u in FragmentsFrom(payload, compressed, frameID, size, off) ==> |u| <= HEADER + size
    decreases |payload| - off
  {
    if off < |payload| {
      FragmentsAreSmall(payload, compressed, frameID, size, FragmentEnd(payload, off, size));
    }
  }

  /** And every unit but the last is full. */
  lemma {:induction false} FragmentsAreFull(payload: Bytes, compressed: bool, frameID: Word, size: nat, off: nat)
    requires size > 0 && off < |payload| <= MAX_WORD
    ensures var units := FragmentsFrom(payload, compressed, frameID, size, off);
            && |units| > 0 && (forall i :: 0 <= i < |units| - 1 ==> |units[i]| == HEADER + size)
            && |units[|units| - 1]| > HEADER
    decreases |payload| - off
  {
    var end := FragmentEnd(payload, off, size);
    if end < |payload| {
      FragmentsAreFull(payload, compressed, frameID, size, end);
    } else {
      assert |FragmentsFrom(payload, compressed, frameID, size, end)| == 0;
    }
  }

  /** n units of at most the given size, all but the last of them full, and no idle one. */
  predicate Filled(units: seq<Bytes>, size: nat) {
    && |units| > 0
    && (forall i :: 0 <= i < |units| ==> |units[i]| <= 13 + size)
    && (forall i :: 0 <= i < |units| - 1 ==> |units[i]| == 13 + size)
    && (|units| > 1 ==> |units[|units| - 1]| > 13)
  }

  lemma FragmentsAreFilled(payload: Bytes, compressed: bool, frameID: Word, size: nat)
    requires 0 < size < |payload| <= MAX_WORD
    ensures Filled(FragmentsFrom(payload, compressed, frameID, size, 0), size)
  {
    FragmentsAreFull(payload, compressed, frameID, size, 0);
    FragmentsAreSmall(payload, compressed, frameID, size, 0);
  }

  /** A frame is split into as few units of the given size as will hold it; a size that is not
      positive means 32768 bytes. */
  lemma SplitIsShortest(payload: Bytes, compressed: bool, frameID: Word, unitSize: int)
    requires |payload| <= MAX_WORD
    ensures var units := Split(payload, compressed, frameID, unitSize);
            units.Some? && Filled(units.value, if unitSize <= 0 then 32768 else unitSize)
  {
    var size := EffectiveSize(unitSize);
    if |payload| > size {
      FragmentsAreFilled(payload, compressed, frameID, size);
    }
  }

  /** What is held of an open frame is within the limit, and while no unit was an error it is less
      than its first fragment announced. */
  predicate Bounded(a: Assembly, maxFrame: int, failed: bool) {
    a.Open? ==> Fits(a.buf, maxFrame) && (!failed ==> |a.buf| < a.total)
  }

  lemma FeedIsBounded(a: Assembly, raw: Bytes, maxFrame: int, failed: bool)
    requires Bounded(a, maxFrame, failed)
    ensures var fed := Feed(a, raw, maxFrame);
            && Bounded(fed.after, maxFrame, failed || fed.result == Failed(Overrun))
            && (fed.result.Complete? ==> Fits(fed.result.frame, maxFrame))
  {}

  /** Whatever bytes arrive, valid or not, the reassembler never holds or hands out more than the
      limit; only an overrun leaves it holding as much as was announced or more. */
  lemma {:induction false} AssemblyIsBounded(a: Assembly, units: seq<Bytes>, maxFrame: int, failed: bool)
    requires Bounded(a, maxFrame, failed)
    ensures var fed := FeedAll(a, units, maxFrame);
            && Bounded(fed.after, maxFrame, failed || Failed(Overrun) in fed.results)
            && forall r :: r in fed.results && r.Complete? ==> Fits(r.frame, maxFrame)
    decreases |units|
  {
    if |units| == 0 {
    } else {
      var one := Feed(a, units[0], maxFrame);
      FeedIsBounded(a, units[0], maxFrame, failed);
      AssemblyIsBounded(one.after, units[1..], maxFrame, failed || one.result == Failed(Overrun));
      var rest := FeedAll(one.after, units[1..], maxFrame);
      assert FeedAll(a, units, maxFrame).results == [one.result] + rest.results;
    }
  }

  // ---- what is taken, and what is handed out ----

  /** A unit the reassembler has a place for: a whole frame that does not reuse the open number, the
      start of a frame, or the very next part of the open one that is no longer than announced. */
  predicate Takes(a: Assembly, u: Unit, maxFrame: int) {
    && (maxFrame <= 0 || u.total <= maxFrame)
    && if !Fragment(u.flags) then a.Open? ==> u.frameID != a.frameID
       else if a.Closed? then u.offset == 0
       else
         && u.frameID == a.frameID && Compressed(u.flags) == a.compressed
         && u.offset == |a.buf| && |a.buf| + |u.data| <= a.total
  }

  /** Bytes are refused exactly when they encode no well-formed unit that has a place, and then
      nothing changes, unless the part was the next one and only too long. */
  lemma RefusedExactlyWhen(a: Assembly, raw: Bytes, maxFrame: int)
    ensures var fed := Feed(a, raw, maxFrame);
            && (fed.result.Failed? <==> forall u :: WellFormed(u) && raw == EncodeUnit(u) ==> !Takes(a, u, maxFrame))
            && (fed.result.Failed? && fed.result.why != Overrun ==> fed.after == a)
  {
    if DecodeUnit(raw).Good? {
      EncodeDecode(raw);
    }
    forall u | WellFormed(u) && raw == EncodeUnit(u) ensures DecodeUnit(raw) == Good(u) {
      DecodeEncode(u);
    }
  }

  /** The data of several units, put together. */
  function Join(parts: seq<Unit>): Bytes {
    if |parts| == 0 then [] else Join(parts[..|parts| - 1]) + parts[|parts| - 1].data
  }

  /** Parts of one frame, from its first byte on, without hole or overlap. */
  predicate Consecutive(parts: seq<Unit>, frameID: Word, compressed: bool) {
    |parts| == 0 ||
      var before, last := parts[..|parts| - 1], parts[|parts| - 1];
      && Consecutive(before, frameID, compressed)
      && Fragment(last.flags) && Compressed(last.flags) == compressed && last.frameID == frameID
      && last.offset == |Join(before)|
  }

  /** What the reassembler holds is what these parts carry. */
  predicate HeldFrom(a: Assembly, parts: seq<Unit>) {
    if a.Closed? then |parts| == 0 else Carried(a, parts)
  }

  predicate Carried(a: Assembly, parts: seq<Unit>)
    requires a.Open?
  {
    && |parts| > 0 && Fragment(parts[0].flags) && parts[0].frameID == a.frameID && parts[0].total == a.total
    && Consecutive(parts, a.frameID, a.compressed) && a.buf == Join(parts)
  }

  lemma OnePartMore(parts: seq<Unit>, u: Unit, frameID: Word, compressed: bool)
    requires Consecutive(parts, frameID, compressed) && u.offset == |Join(parts)|
    requires Fragment(u.flags) && Compressed(u.flags) == compressed && u.frameID == frameID
    ensures Consecutive(parts + [u], frameID, compressed) && Join(parts + [u]) == Join(parts) + u.data
  {
    assert (parts + [u])[..|parts|] == parts;
  }

  /** The frame is one whole unit, or all the parts of one frame in order, to its announced end. */
  predicate MadeOf(frame: Bytes, compressed: bool, parts: seq<Unit>) {
    && |parts| > 0
    && if !Fragment(parts[0].flags) then
         |parts| == 1 && frame == parts[0].data && compressed == Compressed(parts[0].flags)
       else
         && Consecutive(parts, parts[0].frameID, compressed) && frame == Join(parts)
         && |frame| == parts[0].total
  }

  /** One part more, put in its place: the frame is still open or is handed out. */
  lemma PartKeeps(a: Assembly, parts: seq<Unit>, u: Unit)
    requires HeldFrom(a, parts) && Fragment(u.flags)
    requires if a.Closed? then u.offset == 0
             else u.frameID == a.frameID && Compressed(u.flags) == a.compressed && u.offset == |a.buf|
    ensures var open := if a.Closed? then Open(u.frameID, u.total, Compressed(u.flags), u.data)
                        else a.(buf := a.buf + u.data);
            Carried(open, parts + [u]) && KeptBy(Collect(open), parts, parts + [u])
  {
    assert Join([]) == [];
    OnePartMore(parts, u, u.frameID, Compressed(u.flags));
  }

  lemma UnitKeepsParts(a: Assembly, parts: seq<Unit>, u: Unit, maxFrame: int) returns (more: seq<Unit>)
    requires HeldFrom(a, parts)
    ensures KeptBy(FeedUnit(a, u, maxFrame), parts, more) && forall x :: x in more ==> x in parts || x == u
  {
    more := parts;
    if !Fragment(u.flags) {
      if FeedUnit(a, u, maxFrame).result.Complete? {
        more := [u];
      }
    } else if !FeedUnit(a, u, maxFrame).result.Failed? || FeedUnit(a, u, maxFrame).result.why == Overrun {
      PartKeeps(a, parts, u);
      more := parts + [u];
    }
  }

  /** A frame was handed out, made of more; or more is what is held now. */
  predicate KeptBy(fed: Fed, parts: seq<Unit>, more: seq<Unit>) {
    if fed.result.Complete? then
      && MadeOf(fed.result.frame, fed.result.compressed, more)
      && HeldFrom(fed.after, if fed.after.Closed? then [] else parts)
    else HeldFrom(fed.after, more)
  }

  lemma FeedKeepsParts(a: Assembly, parts: seq<Unit>, raw: Bytes, maxFrame: int) returns (more: seq<Unit>)
    requires HeldFrom(a, parts)
    ensures KeptBy(Feed(a, raw, maxFrame), parts, more)
    ensures forall u :: u in more ==> u in parts || (WellFormed(u) && EncodeUnit(u) == raw)
  {
    more := parts;
    if DecodeUnit(raw).Good? {
      EncodeDecode(raw);
      more := UnitKeepsParts(a, parts, DecodeUnit(raw).u, maxFrame);
    }
  }

  lemma ResultAt(a: Assembly, units: seq<Bytes>, maxFrame: int, n: nat)
    requires n < |FeedAll(a, units, maxFrame).results|
    ensures |units| > 0
    ensures var one := Feed(a, units[0], maxFrame);
            var rest := FeedAll(one.after, units[1..], maxFrame).results;
            n <= |rest| && FeedAll(a, units, maxFrame).results[n] == if n == 0 then one.result else rest[n - 1]
  {}

  /** Whatever bytes arrive, a frame is handed out only if it was sent: as one whole unit, or as all
      the parts of one frame, each among the bytes that arrived, together as long as announced. */
  lemma {:induction false} HandedOutWasSent(a: Assembly, parts: seq<Unit>, units: seq<Bytes>, maxFrame: int, n: nat)
    returns (from: seq<Unit>)
    requires HeldFrom(a, parts) && |FeedAll(a, units, maxFrame).results| > n
    requires FeedAll(a, units, maxFrame).results[n].Complete?
    ensures var r := FeedAll(a, units, maxFrame).results[n]; MadeOf(r.frame, r.compressed, from)
    ensures forall u :: u in from ==> u in parts || (WellFormed(u) && EncodeUnit(u) in units)
    decreases |units|
  {
    ResultAt(a, units, maxFrame, n);
    var fed := Feed(a, units[0], maxFrame);
    var more := FeedKeepsParts(a, parts, units[0], maxFrame);
    if n == 0 {
      from := more;
    } else {
      var held := if !fed.result.Complete? then more else if fed.after.Closed? then [] else parts;
      from := HandedOutWasSent(fed.after, held, units[1..], maxFrame, n - 1);
    }
  }

  /** The total of a later fragment plays no part: two that differ in nothing else are the same. */
  lemma LaterTotalsAreIgnored(a: Assembly, u: Unit, total: Word, maxFrame: int)
    requires a.Open? && Fragment(u.flags) && WellFormed(u) && WellFormed(u.(total := total))
    requires maxFrame <= 0 || (u.total <= maxFrame && total <= maxFrame)
    ensures Feed(a, EncodeUnit(u), maxFrame) == Feed(a, EncodeUnit(u.(total := total)), maxFrame)
  {
    DecodeEncode(u);
    DecodeEncode(u.(total := total));
  }
}
