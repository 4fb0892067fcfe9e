/** The part of the v2 frame envelope the session state machines inspect (wire/frame.go).

    A frame is a value and its JSON form is not modelled: a Payload pairs the frame it
    encodes with the length of the encoding, so decoding a payload is reading its frame. */
module Wire {

  datatype Option<+T> = None | Some(value: T)

  /** The absolute viewer state for one host. */
  datatype Audience = Audience(gen: nat, watchers: int, all: bool, sessions: seq<string>)

  datatype Frame =
    | AudienceFrame(state: Audience)
    | RequestFrame(reqID: string, verb: string, path: string)
    | EventFrame(body: seq<char>)

  /** An encoded frame: ack is the watermark of the opposite direction stamped into it. */
  datatype Payload = Payload(frame: Frame, ack: nat, size: nat)

  datatype Entry = Entry(seqNo: nat, payload: Payload)

  /** Total payload size of a run of entries. */
  function Weight(log: seq<Entry>): (w: nat) {
    if |log| == 0 then 0 else Weight(log[..|log| - 1]) + log[|log| - 1].payload.size
  }

  lemma {:induction false} WeightAppend(a: seq<Entry>, b: seq<Entry>)
    ensures Weight(a + b) == Weight(a) + Weight(b)
  {
    if |b| == 0 {
      assert a + b == a;
    } else {
      var init := b[..|b| - 1];
      assert (a + b)[..|a + b| - 1] == a + init;
      WeightAppend(a, init);
    }
  }

  lemma WeightSplit(log: seq<Entry>, k: nat)
    requires k <= |log|
    ensures Weight(log) == Weight(log[..k]) + Weight(log[k..])
  {
    assert log == log[..k] + log[k..];
    WeightAppend(log[..k], log[k..]);
  }

  lemma WeightDropFirst(log: seq<Entry>, i: nat)
    requires i < |log|
    ensures Weight(log[i..]) == log[i].payload.size + Weight(log[i + 1..])
  {
    assert log[i..] == [log[i]] + log[i + 1..];
    WeightAppend([log[i]], log[i + 1..]);
    assert [log[i]][..0] == [];
  }

  lemma WeightUpdate(log: seq<Entry>, i: nat, e: Entry)
    requires i < |log|
    ensures Weight(log[i := e]) == Weight(log) - log[i].payload.size + e.payload.size
  {
    var edited := log[i := e];
    WeightSplit(log, i);
    WeightSplit(edited, i);
    WeightDropFirst(log, i);
    WeightDropFirst(edited, i);
    assert edited[..i] == log[..i];
    assert edited[i + 1..] == log[i + 1..];
  }
}
