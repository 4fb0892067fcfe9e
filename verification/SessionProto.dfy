/** The protocol state of one (host, epoch), shared by every session of that epoch
    (internal/hub/session.go, sessionProto). */
module SessionProtocol {
  import opened Wire
  import opened Validation
  import opened Sending
  import Receiving
  import Replay

  /** A dispatched request whose frame is not acked yet. deadline is None until the frame has
      been written in full. */
  datatype ReqAck = ReqAck(reqID: string, window: int, deadline: Option<nat>)

  datatype ProtoState = ProtoState(
    down: SenderState,
    reqAcks: map<nat, ReqAck>,
    audSeq: nat, audGen: nat, audSentGen: nat,
    latest: Option<Audience>, resend: Option<Audience>)

  /** latest is None until a first snapshot was pushed, which the hub writes as generation 0. */
  function LatestGen(latest: Option<Audience>): nat {
    if latest.None? then 0 else latest.value.gen
  }

  datatype SessionError = DownOverflow | BadFrame(why: ProtocolError)

  predicate IsFresh(s: ProtoState) {
    && s.down.next == s.down.acked == s.down.bytes == 0
    && s.reqAcks == map[]
    && s.audSeq == s.audGen == s.audSentGen == 0
    && s.latest == None && s.resend == None
  }

  // ---- what each operation does to the state ----

  /** Requests still waiting for an ack above n. */
  function Outstanding(reqAcks: map<nat, ReqAck>, n: nat): map<nat, ReqAck> {
    map k | k in reqAcks && k > n :: reqAcks[k]
  }

  /** An ack applies to the down log, forgets the requests it covers and, when it covers the
      audience frame but not its newest payload, queues the newest snapshot again. */
  function AckedDown(s: ProtoState, n: nat): ProtoState {
    var down := Acknowledged(s.down, n);
    var t := s.(down := down, reqAcks := Outstanding(s.reqAcks, down.acked));
    if s.audSeq == 0 || s.audSeq > down.acked then t
    else t.(audSeq := 0, audGen := 0, audSentGen := 0,
            resend := if s.audSentGen < s.audGen then s.latest else s.resend)
  }

  function AudiencePayload(a: Audience, ack: nat, size: nat): Payload {
    Payload(AudienceFrame(a), ack, size)
  }

  datatype Pushed = Pushed(after: ProtoState, seqNo: nat, replaced: bool, err: Option<SessionError>)

  /** The state after an audience was appended under a fresh number. */
  function WithAudienceAppended(s: ProtoState, a: Audience, p: Payload): ProtoState {
    s.(down := Appended(s.down, p), audSeq := s.down.next + 1, audGen := a.gen, audSentGen := 0)
  }

  /** cap bounds the unacked log; ack and size are the stamp and the length of the encoding. */
  function PushedAudience(s: ProtoState, a: Audience, ack: nat, size: nat, cap: nat): Pushed {
    if a.gen < LatestGen(s.latest) then Pushed(s, 0, false, None)
    else
      var t := s.(latest := Some(a), resend := None);
      var u := if s.audSeq != 0 && s.audSeq <= s.down.acked then t.(audSeq := 0, audGen := 0, audSentGen := 0) else t;
      var p := AudiencePayload(a, ack, size);
      if u.audSeq != 0 && a.gen <= u.audGen then Pushed(u, u.audSeq, false, None)
      else if EncodeError(p.frame).Some? then Pushed(u, 0, false, Some(BadFrame(EncodeError(p.frame).value)))
      else
        var at := if u.audSeq != 0 then Find(u.down.log, 0, u.audSeq) else None;
        if at.Some? then
          var v := u.(down := ElidedAt(u.down, at.value, p), audGen := a.gen);
          if v.down.bytes > cap then Pushed(v, u.audSeq, false, Some(DownOverflow))
          else Pushed(v, u.audSeq, true, None)
        else
          var v := WithAudienceAppended(u, a, p);
          Pushed(v, v.audSeq, false, if v.down.bytes > cap then Some(DownOverflow) else None)
  }

  datatype Dispatched = Dispatched(after: ProtoState, seqNo: nat, err: Option<SessionError>)

  function DispatchedRequest(s: ProtoState, f: Frame, ack: nat, size: nat, window: int, cap: nat): Dispatched
    requires f.RequestFrame?
  {
    if EncodeError(f).Some? then Dispatched(s, 0, Some(BadFrame(EncodeError(f).value)))
    else
      var seqNo := s.down.next + 1;
      var t := s.(down := Appended(s.down, Payload(f, ack, size)),
                  reqAcks := s.reqAcks[seqNo := ReqAck(f.reqID, window, None)]);
      Dispatched(t, seqNo, if t.down.bytes > cap then Some(DownOverflow) else None)
  }

  function Window(ra: ReqAck, default: nat): nat { if ra.window <= 0 then default else ra.window }

  /** A completed write records the audience generation it carried and arms the request's
      deadline, unless one is still running. */
  function NotedWritten(s: ProtoState, e: Entry, now: nat, default: nat): ProtoState {
    var t := if e.seqNo != 0 && e.seqNo == s.audSeq && e.payload.frame.AudienceFrame?
                && e.payload.frame.state.gen > s.audSentGen
             then s.(audSentGen := e.payload.frame.state.gen) else s;
    if e.seqNo !in s.reqAcks then t
    else
      var ra := s.reqAcks[e.seqNo];
      if ra.deadline.None? || now >= ra.deadline.value
      then t.(reqAcks := s.reqAcks[e.seqNo := ra.(deadline := Some(now + Window(ra, default)))])
      else t
  }

  predicate IsExpired(ra: ReqAck, now: nat) { ra.deadline.Some? && ra.deadline.value <= now }

  function ExpiredKeys(reqAcks: map<nat, ReqAck>, now: nat): set<nat> {
    set k | k in reqAcks && IsExpired(reqAcks[k], now)
  }

  function WithoutExpired(s: ProtoState, now: nat): ProtoState {
    s.(reqAcks := s.reqAcks - ExpiredKeys(s.reqAcks, now))
  }

  /** The keys of a set, each once, in some order. */
  predicate Enumerates(order: seq<nat>, keys: set<nat>) {
    && (forall i :: 0 <= i < |order| ==> order[i] in keys)
    && (forall k :: k in keys ==> k in order)
    && (forall i, j :: 0 <= i < j < |order| ==> order[i] != order[j])
  }

  // ---- the object ----

  class SessionProto {
    const up: Receiving.Receiver
    const down: Sender
    const inflightCap: nat
    const reqAckDeadline: nat
    var reqAcks: map<nat, ReqAck>
    var audienceSeq: nat
    var audienceGen: nat
    var audienceSentGen: nat
    var audienceLatest: Option<Audience>
    var audienceResend: Option<Audience>

    ghost function State(): ProtoState reads this, down {
      ProtoState(down.State(), reqAcks, audienceSeq, audienceGen, audienceSentGen, audienceLatest, audienceResend)
    }

    /** What the object itself relies on; the audience and request invariants are proved of the
        state over whole runs. */
    ghost predicate Valid() reads this, up, down {
      down.Valid() && up.Valid() && down.base == 0
    }

    constructor (upAcked: nat, window: int, cap: nat, ackDeadline: nat)
      ensures Valid() && fresh(up) && fresh(down) && IsFresh(State())
      ensures up.acked == upAcked && inflightCap == cap && reqAckDeadline == ackDeadline
    {
      var receiver := new Receiving.Receiver(upAcked, window);
      var sender := new Sender(0);
      up, down := receiver, sender;
      inflightCap, reqAckDeadline := cap, ackDeadline;
      reqAcks := map[];
      audienceSeq, audienceGen, audienceSentGen := 0, 0, 0;
      audienceLatest, audienceResend := None, None;
    }

    /** Returns the watermark in force, which is below n when n was never sent. */
    method AckDown(n: nat) returns (applied: nat)
      requires Valid()
      modifies this, down
      ensures Valid() && State() == AckedDown(old(State()), n)
      ensures applied == down.acked == Max(old(down.acked), Min(n, down.next))
    {
      AckKeeps(down.State(), 0, n);
      down.Ack(n);
      applied := down.acked;
      var todo := reqAcks.Keys;
      while todo != {}
        invariant todo <= reqAcks.Keys <= old(reqAcks).Keys
        invariant forall k :: k in old(reqAcks) && (k > applied || k in todo) ==> k in reqAcks
        invariant forall k :: k in reqAcks ==> reqAcks[k] == old(reqAcks)[k] && (k > applied || k in todo)
        modifies `reqAcks
        decreases todo
      {
        var k :| k in todo;
        todo := todo - {k};
        if k <= applied {
          reqAcks := reqAcks - {k};
        }
      }
      assert reqAcks == Outstanding(old(reqAcks), applied);
      if audienceSeq != 0 && audienceSeq <= applied {
        if audienceSentGen < audienceGen {
          audienceResend := audienceLatest;
        }
        audienceSeq, audienceGen, audienceSentGen := 0, 0, 0;
      }
    }

    /** Hands over a queued resend and clears it. */
    method TakeAudienceResend() returns (a: Option<Audience>)
      requires Valid()
      modifies this
      ensures Valid() && a == old(audienceResend) && State() == old(State()).(resend := None)
    {
      a := audienceResend;
      audienceResend := None;
    }

    method PushAudience(a: Audience, size: nat) returns (seqNo: nat, replaced: bool, err: Option<SessionError>)
      requires Valid()
      modifies this, down
      ensures Valid()
      ensures Pushed(State(), seqNo, replaced, err) == PushedAudience(old(State()), a, up.acked, size, inflightCap)
    {
      if a.gen < LatestGen(audienceLatest) {
        return 0, false, None;
      }
      audienceLatest := Some(a);
      audienceResend := None;
      if audienceSeq != 0 && audienceSeq <= down.acked {
        audienceSeq, audienceGen, audienceSentGen := 0, 0, 0;
      }
      var payload := AudiencePayload(a, up.acked, size);
      if audienceSeq != 0 {
        if a.gen <= audienceGen {
          return audienceSeq, false, None;
        }
        seqNo := audienceSeq;
        var bad := EncodeError(payload.frame);
        if bad.Some? {
          return 0, false, Some(BadFrame(bad.value));
        }
        var found := RewriteAudience(a, payload);
        if found {
          if down.bytes > inflightCap {
            return seqNo, false, Some(DownOverflow);
          }
          return seqNo, true, None;
        }
        audienceSeq, audienceGen, audienceSentGen := 0, 0, 0;
      }
      seqNo, err := AppendAudience(a, payload);
      replaced := false;
    }

    /** Puts a newer snapshot in the place of the one still unacked, under the same number. */
    method RewriteAudience(a: Audience, payload: Payload) returns (found: bool)
      requires Valid()
      modifies this`audienceGen, down
      ensures Valid()
      ensures var was, at := old(State()), Find(old(down.log), 0, audienceSeq);
              && found == at.Some?
              && State() == if at.Some?
                 then was.(down := ElidedAt(was.down, at.value, payload), audGen := a.gen) else was
    {
      var at := down.ElideFrom(0, audienceSeq, payload);
      found := at.Some?;
      if found {
        audienceGen := a.gen;
      }
    }

    /** Logs a snapshot under a fresh number. */
    method AppendAudience(a: Audience, payload: Payload) returns (seqNo: nat, err: Option<SessionError>)
      requires Valid() && payload.frame == AudienceFrame(a)
      modifies this, down
      ensures Valid()
      ensures EncodeError(payload.frame).Some? ==>
        State() == old(State()) && seqNo == 0 && err == Some(BadFrame(EncodeError(payload.frame).value))
      ensures EncodeError(payload.frame).None? ==>
        && State() == WithAudienceAppended(old(State()), a, payload) && seqNo == audienceSeq
        && err == if down.bytes > inflightCap then Some(DownOverflow) else None
    {
      var bad := EncodeError(payload.frame);
      if bad.Some? {
        return 0, Some(BadFrame(bad.value));
      }
      seqNo := down.Append(payload);
      audienceSeq, audienceGen, audienceSentGen := seqNo, a.gen, 0;
      err := if down.bytes > inflightCap then Some(DownOverflow) else None;
    }

    /** Appends a request frame and records it in the same step, so an ack can never find the
        one without the other. */
    method DispatchRequest(f: Frame, size: nat, window: int) returns (seqNo: nat, err: Option<SessionError>)
      requires Valid() && f.RequestFrame?
      modifies this, down
      ensures Valid()
      ensures Dispatched(State(), seqNo, err) == DispatchedRequest(old(State()), f, up.acked, size, window, inflightCap)
    {
      var bad := EncodeError(f);
      if bad.Some? {
        return 0, Some(BadFrame(bad.value));
      }
      seqNo := down.Append(Payload(f, up.acked, size));
      reqAcks := reqAcks[seqNo := ReqAck(f.reqID, window, None)];
      err := if down.bytes > inflightCap then Some(DownOverflow) else None;
    }

    method NoteWritten(e: Entry, now: nat)
      requires Valid()
      modifies this
      ensures Valid() && State() == NotedWritten(old(State()), e, now, reqAckDeadline)
    {
      if e.seqNo != 0 && e.seqNo == audienceSeq {
        if e.payload.frame.AudienceFrame? && e.payload.frame.state.gen > audienceSentGen {
          audienceSentGen := e.payload.frame.state.gen;
        }
      }
      if e.seqNo !in reqAcks {
        return;
      }
      var ra := reqAcks[e.seqNo];
      if ra.deadline.None? || now >= ra.deadline.value {
        reqAcks := reqAcks[e.seqNo := ra.(deadline := Some(now + Window(ra, reqAckDeadline)))];
      }
    }

    /** Drops the expired requests and reports each of them once; order says which. */
    method ExpireRequests(now: nat) returns (out: seq<string>, ghost order: seq<nat>)
      requires Valid()
      modifies this
      ensures Valid() && State() == WithoutExpired(old(State()), now)
      ensures Enumerates(order, ExpiredKeys(old(reqAcks), now)) && |out| == |order|
      ensures forall i :: 0 <= i < |out| ==> out[i] == old(reqAcks)[order[i]].reqID
    {
      out, order := [], [];
      var todo := reqAcks.Keys;
      ghost var expired := ExpiredKeys(reqAcks, now);
      while todo != {}
        invariant todo <= old(reqAcks).Keys
        invariant reqAcks == old(reqAcks) - (expired - todo)
        invariant forall k :: k in order <==> k in expired - todo
        invariant forall i, j :: 0 <= i < j < |order| ==> order[i] != order[j]
        invariant |out| == |order|
        invariant forall i :: 0 <= i < |out| ==> order[i] in old(reqAcks) && out[i] == old(reqAcks)[order[i]].reqID
        modifies `reqAcks
        decreases todo
      {
        var k :| k in todo;
        todo := todo - {k};
        assert reqAcks[k] == old(reqAcks)[k];
        if reqAcks[k].deadline.None? || now < reqAcks[k].deadline.value {
          assert expired - todo == expired - (todo + {k});
          continue;
        }
        assert expired - todo == expired - (todo + {k}) + {k};
        out, order := out + [reqAcks[k].reqID], order + [k];
        reqAcks := reqAcks - {k};
      }
      assert expired - todo == expired;
    }

    /** The earliest running deadline, which is what the session's timer waits for. */
    method NextRequestDeadline() returns (d: Option<nat>)
      requires Valid()
      ensures d.None? <==> forall k :: k in reqAcks ==> reqAcks[k].deadline.None?
      ensures d.Some? ==> (exists k :: k in reqAcks && reqAcks[k].deadline == d)
      ensures d.Some? ==> forall k :: k in reqAcks && reqAcks[k].deadline.Some? ==> d.value <= reqAcks[k].deadline.value
    {
      d := None;
      var todo := reqAcks.Keys;
      while todo != {}
        invariant todo <= reqAcks.Keys
        invariant d.None? ==> forall k :: k in reqAcks && k !in todo ==> reqAcks[k].deadline.None?
        invariant d.Some? ==> exists k :: k in reqAcks && reqAcks[k].deadline == d
        invariant d.Some? ==> forall k :: k in reqAcks && k !in todo && reqAcks[k].deadline.Some?
                                  ==> d.value <= reqAcks[k].deadline.value
        decreases todo
      {
        var k :| k in todo;
        todo := todo - {k};
        var ra := reqAcks[k];
        if ra.deadline.Some? && (d.None? || ra.deadline.value < d.value) {
          d := ra.deadline;
        }
      }
    }

    /** The unacked entries above seqNo: what this transport has not carried yet. */
    method EntriesAfter(seqNo: nat) returns (out: seq<Entry>)
      requires Valid()
      ensures out == Above(down.log, seqNo)
    {
      out := [];
      var i := 0;
      while i < |down.log|
        invariant 0 <= i <= |down.log|
        invariant out + Above(down.log[i..], seqNo) == Above(down.log, seqNo)
      {
        assert down.log[i..][1..] == down.log[i + 1..];
        if down.log[i].seqNo > seqNo {
          out := out + [down.log[i]];
        }
        i := i + 1;
      }
    }

    /** The batch one retransmission replays. */
    method OldestUnacked(max: nat, maxBytes: nat) returns (out: seq<Entry>)
      requires Valid()
      ensures out == Replay.Batch(down.log, max, maxBytes)
    {
      out := [];
      var bytes, i := 0, 0;
      while i < |down.log|
        invariant 0 <= i <= |down.log| && i <= max
        invariant out == down.log[..i] && bytes == Weight(out)
        invariant i > 1 ==> bytes <= maxBytes
        invariant Replay.BatchEnd(down.log, max, maxBytes, i) == Replay.BatchEnd(down.log, max, maxBytes, 0)
      {
        var e := down.log[i];
        if e.seqNo <= down.acked {
          assert false;
        }
        if |out| >= max || (|out| > 0 && bytes + e.payload.size > maxBytes) {
          break;
        }
        assert down.log[..i + 1][..i] == down.log[..i];
        out := out + [e];
        bytes := bytes + e.payload.size;
        i := i + 1;
      }
    }
  }
}
