/** The structural checks a frame must pass before it is encoded or after it is decoded
    (wire/frame.go). */
module Validation {
  import opened Wire
  import opened Text

  datatype ProtocolError = GenZero | WatchersNegative | AllWithSessions | EmptySession | NotSorted | RequestIncomplete

  /** Audience.Validate: the first invariant an audience breaks. */
  function ValidateAudience(a: Audience): Option<ProtocolError> {
    if a.gen == 0 then Some(GenZero)
    else if a.watchers < 0 then Some(WatchersNegative)
    else if a.all && |a.sessions| > 0 then Some(AllWithSessions)
    else ValidateSessions(a.sessions, 0)
  }

  function ValidateSessions(sessions: seq<string>, i: nat): Option<ProtocolError>
    requires i <= |sessions|
    decreases |sessions| - i
  {
    if i == |sessions| then None
    else if sessions[i] == "" then Some(EmptySession)
    else if i > 0 && !Less(sessions[i - 1], sessions[i]) then Some(NotSorted)
    else ValidateSessions(sessions, i + 1)
  }

  /** The checks a frame must pass to be encoded. */
  function EncodeError(f: Frame): Option<ProtocolError> {
    match f
    case AudienceFrame(state) => ValidateAudience(state)
    case RequestFrame(reqID, verb, path) =>
      if reqID == "" || verb == "" || path == "" then Some(RequestIncomplete) else None
    case EventFrame(_) => None
  }

  /** Validate accepts exactly the well-formed snapshots: a pairwise neighbour check of the
      sessions is enough for them to be sorted without repetition. */
  lemma ValidateAudienceIsExact(a: Audience)
    ensures ValidateAudience(a).None? <==>
      && a.gen > 0 && a.watchers >= 0 && (a.all ==> a.sessions == [])
      && (forall i :: 0 <= i < |a.sessions| ==> a.sessions[i] != "")
      && StrictlySorted(a.sessions)
  {
    ValidateSessionsIsExact(a.sessions, 0);
  }

  lemma {:induction false} ValidateSessionsIsExact(s: seq<string>, i: nat)
    requires i <= |s|
    requires StrictlySorted(s[..i]) && forall k :: 0 <= k < i ==> s[k] != ""
    ensures ValidateSessions(s, i).None? <==> StrictlySorted(s) && forall k :: 0 <= k < |s| ==> s[k] != ""
    decreases |s| - i
  {
    if i == |s| {
      assert s[..i] == s;
    } else if s[i] != "" && (i == 0 || Less(s[i - 1], s[i])) {
      var next := s[..i + 1];
      forall j, k | 0 <= j < k < |next| ensures Less(next[j], next[k]) {
        if k < i {
          assert s[..i][j] == s[j] && s[..i][k] == s[k];
        } else if j < i - 1 {
          assert s[..i][j] == s[j] && s[..i][i - 1] == s[i - 1];
          LessTransitive(s[j], s[i - 1], s[i]);
        }
      }
      ValidateSessionsIsExact(s, i + 1);
    }
  }

  /** One entry of the hub's per-request acknowledgement table. */
  datatype RelayAck = RelayAck(reqID: string, chunk: nat, done: bool, abort: bool)

  datatype RelayAckError = NoReqID(at: nat) | DoneAndAborted(at: nat)

  /** The first entry of a table that names no request or is both done and aborted. */
  function ValidateRelayAcks(acks: seq<RelayAck>, i: nat): Option<RelayAckError>
    requires i <= |acks|
    decreases |acks| - i
  {
    if i == |acks| then None
    else if acks[i].reqID == "" then Some(NoReqID(i))
    else if acks[i].done && acks[i].abort then Some(DoneAndAborted(i))
    else ValidateRelayAcks(acks, i + 1)
  }

  lemma {:induction false} ValidateRelayAcksIsExact(acks: seq<RelayAck>, i: nat)
    requires i <= |acks|
    ensures ValidateRelayAcks(acks, i).None? <==>
      forall k :: i <= k < |acks| ==> acks[k].reqID != "" && !(acks[k].done && acks[k].abort)
    decreases |acks| - i
  {
    if i < |acks| {
      ValidateRelayAcksIsExact(acks, i + 1);
    }
  }
}
