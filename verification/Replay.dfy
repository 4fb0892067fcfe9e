/** What one retransmission sends again (internal/hub/session.go, oldestUnacked). */
module Replay {
  import opened Wire

  /** The replay batch: the longest prefix of the log within both limits, but never empty. */
  function Batch(log: seq<Entry>, max: nat, maxBytes: nat): (out: seq<Entry>)
    ensures out <= log && |out| <= max
    ensures |log| > 0 && max > 0 ==> |out| > 0
    ensures |out| > 1 ==> Weight(out) <= maxBytes
    ensures |out| < |log| && |out| < max ==> |out| > 0 && Weight(log[..|out| + 1]) > maxBytes
  {
    var k := BatchEnd(log, max, maxBytes, 0);
    assert k < |log| ==> log[..k + 1][..k] == log[..k];
    log[..k]
  }

  function BatchEnd(log: seq<Entry>, max: nat, maxBytes: nat, k: nat): (end: nat)
    requires k <= |log| && k <= max
    requires k > 1 ==> Weight(log[..k]) <= maxBytes
    ensures k <= end <= |log| && end <= max
    ensures k == 0 && |log| > 0 && max > 0 ==> end > 0
    ensures end > 1 ==> Weight(log[..end]) <= maxBytes
    ensures end < |log| && end < max ==> end > 0 && Weight(log[..end]) + log[end].payload.size > maxBytes
    decreases |log| - k
  {
    if k >= |log| || k >= max || (k > 0 && Weight(log[..k]) + log[k].payload.size > maxBytes) then k
    else
      assert log[..k + 1][..k] == log[..k];
      BatchEnd(log, max, maxBytes, k + 1)
  }
}
