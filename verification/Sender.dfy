/** The reliable sender (wire/sender.go): one direction's sequence space and its unacked log. */
module Sending {
  import opened Wire

  datatype SenderState = SenderState(next: nat, acked: nat, log: seq<Entry>, bytes: int)

  function Max(a: int, b: int): int { if a < b then b else a }

  function Min(a: int, b: int): int { if a < b then a else b }

  /** The log holds the sequence numbers first+1, first+2, ... without a hole. */
  predicate Contiguous(log: seq<Entry>, first: nat) {
    forall i :: 0 <= i < |log| ==> log[i].seqNo == first + 1 + i
  }

  /** What every operation keeps: the log is exactly the run (max(acked, base), next] and
      bytes is its exact size. base is where the stream was started: AppendAt may start it
      above acked. */
  predicate Consistent(s: SenderState, base: nat) {
    && s.acked <= s.next
    && base <= s.next
    && |s.log| == s.next - Max(s.acked, base)
    && Contiguous(s.log, Max(s.acked, base))
    && s.bytes == Weight(s.log)
  }

  /** The entries of a log numbered above n, in order: what an ack of n leaves behind. */
  function Above(log: seq<Entry>, n: nat): seq<Entry> {
    if |log| == 0 then []
    else if log[0].seqNo > n then [log[0]] + Above(log[1..], n)
    else Above(log[1..], n)
  }

  function Appended(s: SenderState, p: Payload): SenderState {
    SenderState(s.next + 1, s.acked, s.log + [Entry(s.next + 1, p)], s.bytes + p.size)
  }

  /** An ack never moves backwards and never above what was sent. */
  function Acknowledged(s: SenderState, n: nat): SenderState {
    var m := Min(n, s.next);
    if m <= s.acked then s
    else SenderState(s.next, m, Above(s.log, m), Weight(Above(s.log, m)))
  }

  /** The index of an entry from start on, if it is still unacked. */
  function Find(log: seq<Entry>, start: nat, seqNo: nat): (r: Option<nat>)
    ensures r.None? ==> forall i :: start <= i < |log| ==> log[i].seqNo != seqNo
    ensures r.Some? ==> start <= r.value < |log| && log[r.value].seqNo == seqNo
    ensures r.Some? ==> forall i :: start <= i < r.value ==> log[i].seqNo != seqNo
    decreases |log| - start
  {
    if start >= |log| then None
    else if log[start].seqNo == seqNo then Some(start)
    else Find(log, start + 1, seqNo)
  }

  function ElidedAt(s: SenderState, i: nat, p: Payload): SenderState
    requires i < |s.log|
  {
    s.(log := s.log[i := Entry(s.log[i].seqNo, p)], bytes := s.bytes + p.size - s.log[i].payload.size)
  }

  lemma {:induction false} AboveIsSuffix(log: seq<Entry>, first: nat, n: nat)
    requires Contiguous(log, first)
    ensures Above(log, n) == log[Min(|log|, Max(0, n - first))..]
  {
    if |log| == 0 {
    } else {
      var rest := log[1..];
      AboveIsSuffix(rest, first + 1, n);
      if log[0].seqNo > n {
        assert Above(log, n) == [log[0]] + rest;
      } else {
        var k := Min(|log|, n - first);
        assert rest[k - 1..] == log[k..];
      }
    }
  }

  /** In a hole-free log an entry sits at the index its number says. */
  lemma FindInRun(log: seq<Entry>, first: nat, seqNo: nat)
    requires Contiguous(log, first)
    ensures Find(log, 0, seqNo) == (if first < seqNo <= first + |log| then Some(seqNo - first - 1) else None)
  {
    if first < seqNo <= first + |log| {
      assert log[seqNo - first - 1].seqNo == seqNo;
    }
  }

  /** Appending, acknowledging and eliding all keep the log exact, and the watermark monotone. */
  lemma AppendKeeps(s: SenderState, base: nat, p: Payload)
    requires Consistent(s, base)
    ensures Consistent(Appended(s, p), base)
  {
    assert (s.log + [Entry(s.next + 1, p)])[..|s.log|] == s.log;
  }

  lemma AckKeeps(s: SenderState, base: nat, n: nat)
    requires Consistent(s, base)
    ensures Consistent(Acknowledged(s, n), base)
    ensures Acknowledged(s, n).acked == Max(s.acked, Min(n, s.next))
    ensures Acknowledged(s, n).next == s.next
  {
    AckCuts(s, base, n);
  }

  /** In terms of the run, an ack cuts a prefix: as many entries as it newly covers. */
  lemma AckCuts(s: SenderState, base: nat, n: nat)
    requires Consistent(s, base)
    ensures Covered(s, base, n) <= |s.log|
    ensures Acknowledged(s, n) == Cut(s, base, n)
  {
    AboveIsSuffix(s.log, Max(s.acked, base), Min(n, s.next));
  }

  function Covered(s: SenderState, base: nat, n: nat): nat {
    Max(0, Min(n, s.next) - Max(s.acked, base))
  }

  lemma CoveredComeFirst(s: SenderState, base: nat, n: nat)
    requires Consistent(s, base)
    ensures forall i :: 0 <= i < |s.log| ==> (s.log[i].seqNo <= Min(n, s.next) <==> i < Covered(s, base, n))
  {}

  function Cut(s: SenderState, base: nat, n: nat): SenderState
    requires Covered(s, base, n) <= |s.log|
  {
    var log := s.log[Covered(s, base, n)..];
    SenderState(s.next, Max(s.acked, Min(n, s.next)), log, Weight(log))
  }

  /** An entry above the ack stays, at the index its number now says. */
  lemma EntrySurvives(s: SenderState, n: nat, k: nat)
    requires Consistent(s, 0) && Acknowledged(s, n).acked < k <= s.next
    ensures var t := Acknowledged(s, n);
            && s.acked <= t.acked && t.next == s.next
            && |t.log| == t.next - t.acked && |s.log| == s.next - s.acked
            && t.log[k - t.acked - 1] == s.log[k - s.acked - 1]
  {
    AckKeeps(s, 0, n);
    AckCuts(s, 0, n);
  }

  /** Exactly the entries above the ack survive it. */
  lemma AckKeepsExactlyAbove(s: SenderState, base: nat, n: nat, e: Entry)
    requires Consistent(s, base)
    ensures e in Acknowledged(s, n).log <==> e in s.log && e.seqNo > n
  {
    AckCuts(s, base, n);
    CoveredComeFirst(s, base, n);
    InTail(s.log, Covered(s, base, n), Min(n, s.next), e);
  }

  lemma InTail(log: seq<Entry>, k: nat, n: nat, e: Entry)
    requires k <= |log| && forall i :: 0 <= i < |log| ==> (log[i].seqNo <= n <==> i < k)
    ensures e in log[k..] <==> e in log && e.seqNo > n
  {
    if e in log && e.seqNo > n {
      var i :| 0 <= i < |log| && log[i] == e;
      assert log[k..][i - k] == e;
    }
  }

  lemma ElideKeeps(s: SenderState, base: nat, i: nat, p: Payload)
    requires Consistent(s, base) && i < |s.log|
    ensures Consistent(ElidedAt(s, i, p), base)
    ensures forall j :: 0 <= j < |s.log| && j != i ==> ElidedAt(s, i, p).log[j] == s.log[j]
  {
    WeightUpdate(s.log, i, Entry(s.log[i].seqNo, p));
  }

  /** Cumulative acks commute and repeat harmlessly: any stream of acks has the effect of its largest. */
  lemma AcksCommute(s: SenderState, base: nat, m: nat, n: nat)
    requires Consistent(s, base)
    ensures Acknowledged(Acknowledged(s, m), n) == Acknowledged(s, Max(m, n))
  {
    AckKeeps(s, base, m);
    AckCuts(s, base, m);
    AckCuts(Acknowledged(s, m), base, n);
    AckCuts(s, base, Max(m, n));
    CutTwice(s, base, m, n);
  }

  lemma CutTwice(s: SenderState, base: nat, m: nat, n: nat)
    requires s.acked <= s.next && base <= s.next && |s.log| == s.next - Max(s.acked, base)
    ensures Covered(Cut(s, base, m), base, n) <= |Cut(s, base, m).log|
    ensures Cut(Cut(s, base, m), base, n) == Cut(s, base, Max(m, n))
  {
    var i, j := Covered(s, base, m), Covered(Cut(s, base, m), base, n);
    assert s.log[i..][j..] == s.log[i + j..];
  }

  datatype AppendError = SeqZero | SeqGap(got: nat, want: nat)

  class Sender {
    var next: nat
    var acked: nat
    var log: seq<Entry>
    var bytes: int
    ghost var base: nat

    ghost function State(): SenderState reads this { SenderState(next, acked, log, bytes) }

    ghost predicate Valid() reads this { Consistent(State(), base) }

    constructor (watermark: nat)
      ensures Valid() && next == acked == base == watermark
      ensures bytes == 0
    {
      next, acked, log, bytes, base := watermark, watermark, [], 0, watermark;
    }

    method Append(p: Payload) returns (seqNo: nat)
      requires Valid()
      modifies this
      ensures Valid() && base == old(base)
      ensures State() == Appended(old(State()), p) && seqNo == next
    {
      AppendKeeps(State(), base, p);
      seqNo := next + 1;
      next := seqNo;
      log := log + [Entry(seqNo, p)];
      bytes := bytes + p.size;
    }

    /** Logs a payload numbered elsewhere. A sender that never assigned a number takes its
        baseline from the first one without moving the watermark. */
    method AppendAt(seqNo: nat, p: Payload) returns (err: Option<AppendError>)
      requires Valid()
      modifies this
      ensures Valid()
      ensures err == (if seqNo == 0 then Some(SeqZero)
                      else if old(next) != 0 && seqNo != old(next) + 1 then Some(SeqGap(seqNo, old(next) + 1))
                      else None)
      ensures err.Some? ==> State() == old(State()) && base == old(base)
      ensures err.None? ==> State() == Appended(old(State()).(next := seqNo - 1), p)
      ensures err.None? ==> base == (if old(next) == 0 then seqNo - 1 else old(base))
    {
      if seqNo == 0 {
        return Some(SeqZero);
      }
      if next == 0 {
        next := seqNo - 1;
        base := seqNo - 1;
      }
      if seqNo != next + 1 {
        return Some(SeqGap(seqNo, next + 1));
      }
      var _ := Append(p);
      err := None;
    }

    /** Advances the watermark and cuts the covered entries off the front of the log. */
    method Ack(n: nat)
      requires Valid()
      modifies this
      ensures Valid() && base == old(base)
      ensures State() == Acknowledged(old(State()), n)
    {
      var m := n;
      if m > next {
        m := next;
      }
      if m <= acked {
        return;
      }
      AckKeeps(State(), base, n);
      AckCuts(State(), base, n);
      CoveredComeFirst(State(), base, n);
      ghost var k := Covered(State(), base, n);
      acked := m;
      DropCovered(m, k);
    }

    /** The loop of Ack: the first k entries are the ones it covers. */
    method DropCovered(m: nat, ghost k: nat)
      requires bytes == Weight(log) && k <= |log|
      requires forall i :: 0 <= i < |log| ==> (log[i].seqNo <= m <==> i < k)
      modifies this`bytes, this`log
      ensures log == old(log)[k..] && bytes == Weight(log)
    {
      var i := 0;
      assert log[0..] == log;
      while i < |log| && log[i].seqNo <= m
        invariant 0 <= i <= k <= |log|
        invariant bytes == Weight(log[i..])
        modifies this`bytes
      {
        WeightDropFirst(log, i);
        bytes := bytes - log[i].payload.size;
        i := i + 1;
      }
      if i > 0 {
        log := log[i..];
      }
    }

    /** Replaces the payload of one unacked entry, looking for it from start on, and returns
        its index. The number stays: an elision never opens a hole. */
    method ElideFrom(start: int, seqNo: nat, replacement: Payload) returns (at: Option<nat>)
      requires Valid()
      modifies this
      ensures Valid() && base == old(base)
      ensures at == Find(old(log), Max(start, 0), seqNo)
      ensures State() == (if at.Some? then ElidedAt(old(State()), at.value, replacement) else old(State()))
    {
      var i: nat := if start < 0 then 0 else start;
      while i < |log|
        invariant State() == old(State()) && base == old(base)
        invariant Find(log, Max(start, 0), seqNo) == Find(log, i, seqNo)
      {
        if log[i].seqNo == seqNo {
          ElideKeeps(State(), base, i, replacement);
          bytes := bytes + (replacement.size - log[i].payload.size);
          log := log[i := Entry(seqNo, replacement)];
          return Some(i);
        }
        i := i + 1;
      }
      at := None;
    }

    method EntryFor(seqNo: nat) returns (e: Option<Entry>)
      requires Valid()
      ensures e.Some? <==> Max(acked, base) < seqNo <= next
      ensures e.Some? ==> e.value in log && e.value.seqNo == seqNo
    {
      FindInRun(log, Max(acked, base), seqNo);
      var i := 0;
      while i < |log|
        invariant 0 <= i <= |log|
        invariant forall j :: 0 <= j < i ==> log[j].seqNo != seqNo
      {
        if log[i].seqNo == seqNo {
          return Some(log[i]);
        }
        i := i + 1;
      }
      e := None;
    }
  }
}
