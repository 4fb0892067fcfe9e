/** What is made known of a request (internal/hub/hub.go). Its caller hears how it ended. The host
    reads it in the acknowledgement table: a completed request with the number of its chunks, one
    that ended otherwise as to be dropped, and a pending one with the chunks heard so far. */
module RelayRecords {
  import opened Wire
  import opened Sums
  import opened Validation
  import opened RelayAssembly
  import opened RelayPlane
  import opened RelayRuns

  /** The table names the request once, and so. */
  predicate Lists(acks: seq<RelayAck>, ack: RelayAck) {
    ack in acks && forall i :: 0 <= i < |acks| && acks[i].reqID == ack.reqID ==> acks[i] == ack
  }

  /** The step takes the request out of the pending table. */
  predicate EndsAt(t: Table, u: Table, id: string) { id in t.pending && id !in u.pending }

  /** Where the request's own chunk takes it. */
  ghost function OutcomeOf(cfg: Config, t: Table, step: Step): Request
    requires step.Chunk? && step.id in t.pending
  {
    Deliver(cfg.codec, cfg.lim, Waiting(t.pending[step.id]), AsDelivered(t, step))
  }

  ghost predicate Completes(cfg: Config, t: Table, step: Step, id: string) {
    step.Chunk? && step.id == id && id in t.pending && OutcomeOf(cfg, t, step).Answered?
  }

  /** How the host is to be told that the request ended: done with all its chunks, or dropped. */
  ghost function EndAck(cfg: Config, t: Table, step: Step, id: string): RelayAck {
    if Completes(cfg, t, step, id) then RelayAck(id, OutcomeOf(cfg, t, step).final, true, false)
    else RelayAck(id, 0, false, true)
  }

  function TimeOf(step: Step): nat
    requires step.Chunk? || step.Expire? || step.Cancel? || step.DetachAll?
  {
    step.now
  }

  /** The record is there, or there was no room and it was itself an oldest one. */
  ghost predicate Recorded(cfg: Config, t: Table, u: Table, ack: RelayAck, now: nat) {
    if ack.reqID in u.tombs then u.tombs[ack.reqID] == Tombstone(ack, now)
    else |t.tombs| + |t.pending| > cfg.maxTombs && forall j :: j in u.tombs ==> u.tombs[j].at >= now
  }

  lemma TombstoneIsRecorded(cfg: Config, t: Table, u: Table, ack: RelayAck, now: nat)
    requires Tombstoned(t.tombs, u.tombs, ack, now, cfg.maxTombs) && ack.reqID in t.pending && ack.reqID != ""
    ensures Recorded(cfg, t, u, ack, now)
  {
    SizePut(t.tombs, ack.reqID, Tombstone(ack, now));
  }

  lemma DetachIsRecorded(cfg: Config, t: Table, u: Table, id: string, now: nat)
    requires TableOk(cfg, t) && Next(cfg, t, DetachAll(now), u) && id in t.pending
    ensures Recorded(cfg, t, u, RelayAck(id, 0, false, true), now)
  {
    assert |t.pending.Keys| == |t.pending|;
    assert !IsDone(t.tombs, id) && id != "";
  }

  lemma AbortIsRecorded(cfg: Config, t: Table, u: Table, id: string, now: nat)
    requires TableOk(cfg, t) && id in t.pending && Aborted(t.tombs, u.tombs, id, now, cfg.maxTombs)
    ensures Recorded(cfg, t, u, RelayAck(id, 0, false, true), now)
  {
    assert !IsDone(t.tombs, id) && id != "";
    TombstoneIsRecorded(cfg, t, u, RelayAck(id, 0, false, true), now);
  }

  lemma ChunkIsRecorded(cfg: Config, t: Table, u: Table, id: string, f: Respond, now: nat)
    requires TableOk(cfg, t) && Next(cfg, t, Chunk(id, f, now), u) && EndsAt(t, u, id)
    ensures Recorded(cfg, t, u, EndAck(cfg, t, Chunk(id, f, now), id), now)
  {
    assert !IsDone(t.tombs, id) && id != "";
    TombstoneIsRecorded(cfg, t, u, EndAck(cfg, t, Chunk(id, f, now), id), now);
  }

  lemma OnlyOwnStepEnds(cfg: Config, t: Table, step: Step, u: Table, id: string)
    requires Next(cfg, t, step, u) && EndsAt(t, u, id)
    ensures step.DetachAll? || ((step.Chunk? || step.Expire? || step.Cancel?) && step.id == id)
  {}

  lemma AbortEnds(cfg: Config, t: Table, step: Step, u: Table, id: string)
    requires TableOk(cfg, t) && Next(cfg, t, step, u) && EndsAt(t, u, id)
    requires step.DetachAll? || ((step.Expire? || step.Cancel?) && step.id == id)
    ensures Recorded(cfg, t, u, RelayAck(id, 0, false, true), step.now)
  {
    if step.DetachAll? {
      DetachIsRecorded(cfg, t, u, id, step.now);
    } else {
      AbortIsRecorded(cfg, t, u, id, step.now);
    }
  }

  /** Every way a request ends leaves its record: done with the number of its chunks exactly when
      it was completed, and otherwise an abort. */
  lemma EndIsRecorded(cfg: Config, t: Table, step: Step, u: Table, id: string)
    requires TableOk(cfg, t) && Next(cfg, t, step, u) && EndsAt(t, u, id)
    ensures step.Chunk? || step.Expire? || step.Cancel? || step.DetachAll?
    ensures Recorded(cfg, t, u, EndAck(cfg, t, step, id), TimeOf(step))
  {
    OnlyOwnStepEnds(cfg, t, step, u, id);
    if step.Chunk? {
      ChunkIsRecorded(cfg, t, u, id, step.f, step.now);
    } else {
      AbortEnds(cfg, t, step, u, id);
    }
  }

  /** The record of id, if it is held both before and after, says the same. */
  predicate SameRecord(m: map<string, Tombstone>, n: map<string, Tombstone>, id: string) {
    id in m && id in n ==> n[id].ack == m[id].ack
  }

  lemma AbortLeavesRecords(m: map<string, Tombstone>, n: map<string, Tombstone>, other: string, now: nat, maxTombs: nat,
                           id: string)
    requires TombsOk(m, maxTombs) && Aborted(m, n, other, now, maxTombs)
    ensures SameRecord(m, n, id)
  {}

  lemma ChunkLeavesRecord(cfg: Config, t: Table, other: string, f: Respond, now: nat, u: Table, id: string)
    requires TableOk(cfg, t) && Next(cfg, t, Chunk(other, f, now), u) && id !in t.pending
    ensures id !in u.pending && SameRecord(t.tombs, u.tombs, id)
  {
    if other !in t.pending || OutcomeOf(cfg, t, Chunk(other, f, now)).Failed? {
      AbortLeavesRecords(t.tombs, u.tombs, other, now, cfg.maxTombs, id);
    }
  }

  /** What is recorded of an ended request does not change while the record is held, whatever
      arrives late. */
  lemma RecordStays(cfg: Config, t: Table, step: Step, u: Table, id: string)
    requires TableOk(cfg, t) && Next(cfg, t, step, u) && id in t.issued && id !in t.pending
    ensures id in u.issued && id !in u.pending && SameRecord(t.tombs, u.tombs, id)
  {
    match step
    case Chunk(other, f, now) => ChunkLeavesRecord(cfg, t, other, f, now, u, id);
    case Expire(other, _, now) =>
      if other in t.pending { AbortLeavesRecords(t.tombs, u.tombs, other, now, cfg.maxTombs, id); }
    case Cancel(other, now) =>
      if other in t.pending { AbortLeavesRecords(t.tombs, u.tombs, other, now, cfg.maxTombs, id); }
    case _ =>
  }

  /** The record was an oldest one of more than there is room for. */
  ghost predicate Outlived(cfg: Config, t: Table, u: Table, id: string)
    requires id in t.tombs
  {
    |t.tombs| + |t.pending| + 1 > cfg.maxTombs && forall j :: j in u.tombs ==> u.tombs[j].at >= t.tombs[id].at
  }

  lemma TombstoneOutlives(cfg: Config, t: Table, u: Table, ack: RelayAck, now: nat, id: string)
    requires Tombstoned(t.tombs, u.tombs, ack, now, cfg.maxTombs)
    requires id in t.tombs && id !in u.tombs && id != ack.reqID
    ensures Outlived(cfg, t, u, id)
  {
    SizePut(t.tombs, ack.reqID, Tombstone(ack, now));
  }

  lemma DetachOutlives(cfg: Config, t: Table, u: Table, now: nat, id: string)
    requires Next(cfg, t, DetachAll(now), u) && id in t.tombs && id !in u.tombs && id !in t.pending
    ensures Outlived(cfg, t, u, id)
  {
    assert |t.pending.Keys| == |t.pending|;
  }

  lemma ChunkOutlives(cfg: Config, t: Table, u: Table, other: string, f: Respond, now: nat, id: string)
    requires Next(cfg, t, Chunk(other, f, now), u) && id in t.tombs && id !in u.tombs && id !in t.pending
    requires other == id ==> IsDone(t.tombs, id)
    ensures Outlived(cfg, t, u, id)
  {
    if other !in t.pending {
      TombstoneOutlives(cfg, t, u, RelayAck(other, 0, false, true), now, id);
    } else {
      var r := OutcomeOf(cfg, t, Chunk(other, f, now));
      var ack := RelayAck(other, if r.Answered? then r.final else 0, r.Answered?, !r.Answered?);
      TombstoneOutlives(cfg, t, u, ack, now, id);
    }
  }

  /** A record is lost only to the bound on records, to its age, or to a new epoch. */
  lemma RecordGoesOnlyWhen(cfg: Config, t: Table, step: Step, u: Table, id: string)
    requires Next(cfg, t, step, u) && id in t.tombs && id !in u.tombs && id !in t.pending
    requires step.Chunk? && step.id == id ==> IsDone(t.tombs, id)
    ensures step.ForgetTombs? || (step.Prune? && step.now - t.tombs[id].at > cfg.ttl) || Outlived(cfg, t, u, id)
  {
    match step
    case Chunk(other, f, now) => ChunkOutlives(cfg, t, u, other, f, now, id);
    case Expire(other, _, now) => TombstoneOutlives(cfg, t, u, RelayAck(other, 0, false, true), now, id);
    case Cancel(other, now) => TombstoneOutlives(cfg, t, u, RelayAck(other, 0, false, true), now, id);
    case DetachAll(now) => DetachOutlives(cfg, t, u, now, id);
    case _ =>
  }

  // ---- over a run ----

  /** The record is held in every table after the i-th step, up to the j-th. */
  predicate HeldThrough(tables: seq<Table>, id: string, i: nat, j: nat)
    requires j < |tables|
  {
    forall k :: i < k <= j ==> id in tables[k].tombs
  }

  lemma {:induction false} RecordStaysInTrace(cfg: Config, tables: seq<Table>, steps: seq<Step>, i: nat, j: nat,
                                              id: string)
    requires Trace(cfg, tables, steps) && TableOk(cfg, tables[0]) && i < j <= |steps|
    requires id in tables[i + 1].issued && id !in tables[i + 1].pending && HeldThrough(tables, id, i, j)
    ensures id in tables[j].issued && id !in tables[j].pending
    ensures tables[j].tombs[id].ack == tables[i + 1].tombs[id].ack
    decreases j
  {
    if j == i + 1 {
    } else {
      RecordStaysInTrace(cfg, tables, steps, i, j - 1, id);
      StayedOneMore(cfg, tables, steps, j - 1, tables[j - 1], tables[j], id);
    }
  }

  lemma StayedOneMore(cfg: Config, tables: seq<Table>, steps: seq<Step>, j: nat, t: Table, u: Table, id: string)
    requires Trace(cfg, tables, steps) && TableOk(cfg, tables[0]) && j < |steps| && t == tables[j] && u == tables[j + 1]
    requires id in t.issued && id !in t.pending && id in t.tombs && id in u.tombs
    ensures id in u.issued && id !in u.pending && u.tombs[id].ack == t.tombs[id].ack
  {
    TraceKeepsOk(cfg, tables, steps, j);
    assert StepAt(cfg, tables, steps, j);
    RecordStays(cfg, t, steps[j], u, id);
  }

  /** A request that ended at step i is listed as it ended, in every table sent while its record is
      held; and right after the step the record is there, unless it was itself one to evict. */
  lemma EndedIsListed(cfg: Config, tables: seq<Table>, steps: seq<Step>, i: nat, j: nat, id: string,
                      acks: seq<RelayAck>)
    requires Trace(cfg, tables, steps) && TableOk(cfg, tables[0]) && i < j <= |steps|
    requires EndsAt(tables[i], tables[i + 1], id)
    ensures steps[i].Chunk? || steps[i].Expire? || steps[i].Cancel? || steps[i].DetachAll?
    ensures Recorded(cfg, tables[i], tables[i + 1], EndAck(cfg, tables[i], steps[i], id), TimeOf(steps[i]))
    ensures HeldThrough(tables, id, i, j) && IsAckTable(tables[j], acks) ==>
              Lists(acks, EndAck(cfg, tables[i], steps[i], id))
  {
    EndInTrace(cfg, tables, steps, i, tables[i], tables[i + 1], id);
    if HeldThrough(tables, id, i, j) && IsAckTable(tables[j], acks) {
      RecordStaysInTrace(cfg, tables, steps, i, j, id);
    }
  }

  lemma EndInTrace(cfg: Config, tables: seq<Table>, steps: seq<Step>, i: nat, t: Table, u: Table, id: string)
    requires Trace(cfg, tables, steps) && TableOk(cfg, tables[0]) && i < |steps| && t == tables[i] && u == tables[i + 1]
    requires EndsAt(t, u, id)
    ensures steps[i].Chunk? || steps[i].Expire? || steps[i].Cancel? || steps[i].DetachAll?
    ensures Recorded(cfg, t, u, EndAck(cfg, t, steps[i], id), TimeOf(steps[i])) && id in u.issued
  {
    TraceKeepsOk(cfg, tables, steps, i);
    assert StepAt(cfg, tables, steps, i);
    EndIsRecorded(cfg, t, steps[i], u, id);
  }

  // ---- one answer, as the host is told of it ----

  /** The chunks heard are gap-free up to k and no further. */
  predicate HeardUpTo(seen: set<nat>, k: nat) { (forall i :: 1 <= i <= k ==> i in seen) && k + 1 !in seen }

  /** While it waits, a request is listed with the number of consecutive chunks that have come. */
  lemma PendingIsListed(cfg: Config, tables: seq<Table>, steps: seq<Step>, id: string, frames: seq<Respond>,
                        n: nat, acks: seq<RelayAck>) returns (k: nat)
    requires Trace(cfg, tables, steps) && TableOk(cfg, tables[0]) && n <= |steps|
    requires id in tables[0].pending && tables[0].pending[id] == UNANSWERED
    requires Answerable(cfg.codec, cfg.lim, frames) && AllFair(cfg, tables, steps, id, frames)
    requires id in tables[n].pending && IsAckTable(tables[n], acks)
    ensures k < |frames| && HeardUpTo(Heard(steps, id, n), k) && Lists(acks, RelayAck(id, k, false, false))
  {
    var r := AssemblyTracks(cfg, tables, steps, id, frames, n);
    k := tables[n].pending[id].nextChunk;
    assert AckFor(tables[n], id) in acks;
  }

  /** Its last chunk completes it, and the record says so, with the number of its chunks. */
  lemma LastChunkCompletes(cfg: Config, tables: seq<Table>, steps: seq<Step>, id: string, frames: seq<Respond>, i: nat)
    requires Trace(cfg, tables, steps) && TableOk(cfg, tables[0]) && i < |steps|
    requires id in tables[0].pending && tables[0].pending[id] == UNANSWERED
    requires Answerable(cfg.codec, cfg.lim, frames) && AllFair(cfg, tables, steps, id, frames)
    requires EndsAt(tables[i], tables[i + 1], id)
    ensures EndAck(cfg, tables[i], steps[i], id) == RelayAck(id, |frames|, true, false)
  {
    var r := AssemblyTracks(cfg, tables, steps, id, frames, i);
    FairEndCompletes(cfg, tables, steps, i, tables[i], tables[i + 1], id, frames, r);
  }

  lemma FairEndCompletes(cfg: Config, tables: seq<Table>, steps: seq<Step>, i: nat, t: Table, u: Table, id: string,
                         frames: seq<Respond>, r: Request)
    requires Trace(cfg, tables, steps) && TableOk(cfg, tables[0]) && AllFair(cfg, tables, steps, id, frames)
    requires i < |steps| && t == tables[i] && u == tables[i + 1] && EndsAt(t, u, id)
    requires Answerable(cfg.codec, cfg.lim, frames) && Tracks(t, id, r)
    requires Reached(cfg.codec, cfg.lim, frames, Heard(steps, id, i), r)
    ensures EndAck(cfg, t, steps[i], id) == RelayAck(id, |frames|, true, false)
  {
    TraceKeepsOk(cfg, tables, steps, i);
    assert StepAt(cfg, tables, steps, i) && FairAt(cfg, tables, steps, id, frames, i);
    if IsChunkOf(steps[i], id) {
      OwnChunkReaches(cfg, t, steps[i], id, frames, Heard(steps, id, i), r);
    } else {
      OtherStepTracks(cfg, t, steps[i], u, id, r);
    }
  }

  lemma {:induction false} WhenItEnded(tables: seq<Table>, id: string, n: nat) returns (i: nat)
    requires n < |tables| && id in tables[0].pending && id !in tables[n].pending
    ensures i < n && EndsAt(tables[i], tables[i + 1], id)
    decreases n
  {
    if id in tables[n - 1].pending {
      i := n - 1;
    } else {
      i := WhenItEnded(tables, id, n - 1);
    }
  }

  /** The acknowledgement table over every run, whatever else the host does: while the answer is
      incomplete it names the consecutive chunks heard; the step that completes it records the
      request as done with all its chunks, unless that record is itself one to evict, and every
      table from then on says so as long as the record is held. */
  lemma HostIsTold(cfg: Config, tables: seq<Table>, steps: seq<Step>, id: string, frames: seq<Respond>, n: nat,
                   acks: seq<RelayAck>)
    requires Trace(cfg, tables, steps) && TableOk(cfg, tables[0]) && n <= |steps| && IsAckTable(tables[n], acks)
    requires id in tables[0].pending && tables[0].pending[id] == UNANSWERED
    requires Answerable(cfg.codec, cfg.lim, frames) && AllFair(cfg, tables, steps, id, frames)
    ensures id in tables[n].pending ==>
      exists k: nat :: k < |frames| && HeardUpTo(Heard(steps, id, n), k) && Lists(acks, RelayAck(id, k, false, false))
    ensures var done := RelayAck(id, |frames|, true, false);
            id !in tables[n].pending ==>
              exists i: nat :: i < n && EndsAt(tables[i], tables[i + 1], id)
                && IsChunkOf(steps[i], id) && Recorded(cfg, tables[i], tables[i + 1], done, steps[i].now)
                && (HeldThrough(tables, id, i, n) ==> Lists(acks, done))
  {
    if id in tables[n].pending {
      var k := PendingIsListed(cfg, tables, steps, id, frames, n, acks);
    } else {
      var i := WhenItEnded(tables, id, n);
      LastChunkCompletes(cfg, tables, steps, id, frames, i);
      EndedIsListed(cfg, tables, steps, i, n, id, acks);
    }
  }

  // ---- what the caller hears ----

  /** The answer a caller gets when its request ends by this step: its own, or the failure's. */
  ghost function AnswerAt(cfg: Config, t: Table, step: Step): Answer
    requires step.Expire? || (step.Chunk? && step.id in t.pending && !OutcomeOf(cfg, t, step).Waiting?)
  {
    if step.Expire? then step.answer
    else if OutcomeOf(cfg, t, step).Answered? then OutcomeOf(cfg, t, step).answer
    else Answer(502, "")
  }

  /** Every end but a cancel, which is the caller's own doing, reaches the caller: the whole answer
      or a failure in one value, or else its channel is closed. */
  lemma EndIsHeard(cfg: Config, t: Table, step: Step, u: Table, id: string)
    requires Next(cfg, t, step, u) && EndsAt(t, u, id)
    ensures step.DetachAll? || ((step.Chunk? || step.Expire? || step.Cancel?) && step.id == id)
    ensures step.Chunk? ==> !OutcomeOf(cfg, t, step).Waiting?
    ensures step.Chunk? || step.Expire? ==> u.events == t.events + [Sent(id, AnswerAt(cfg, t, step))]
    ensures step.DetachAll? ==> exists i :: |t.events| <= i < |u.events| && u.events[i] == Closed(id)
    ensures step.Cancel? ==> u.events == t.events
  {
    OnlyOwnStepEnds(cfg, t, step, u, id);
  }

  predicate HeardOf(t: Table, id: string) { exists i :: 0 <= i < |t.events| && t.events[i].id == id }

  lemma {:induction false} HeardStays(cfg: Config, tables: seq<Table>, steps: seq<Step>, i: nat, n: nat, id: string)
    requires Trace(cfg, tables, steps) && TableOk(cfg, tables[0]) && i <= n <= |steps| && HeardOf(tables[i], id)
    ensures HeardOf(tables[n], id)
    decreases n
  {
    if i == n {
    } else {
      HeardStays(cfg, tables, steps, i, n - 1, id);
      HeardAfterStep(cfg, tables, steps, n - 1, tables[n - 1], tables[n], id);
    }
  }

  lemma HeardAfterStep(cfg: Config, tables: seq<Table>, steps: seq<Step>, i: nat, t: Table, u: Table, id: string)
    requires Trace(cfg, tables, steps) && TableOk(cfg, tables[0]) && i < |steps| && t == tables[i] && u == tables[i + 1]
    requires HeardOf(t, id)
    ensures HeardOf(u, id)
  {
    TraceKeepsOk(cfg, tables, steps, i);
    StepInTrace(cfg, tables, steps, i, t, u);
    var k :| 0 <= k < |t.events| && t.events[k].id == id;
    assert u.events[..|t.events|][k] == u.events[k];
  }

  lemma EndHeardInTrace(cfg: Config, tables: seq<Table>, steps: seq<Step>, i: nat, t: Table, u: Table, id: string)
    requires Trace(cfg, tables, steps) && i < |steps| && t == tables[i] && u == tables[i + 1] && EndsAt(t, u, id)
    ensures (steps[i].Cancel? && steps[i].id == id) || HeardOf(u, id)
  {
    assert StepAt(cfg, tables, steps, i);
    EndIsHeard(cfg, t, steps[i], u, id);
    if steps[i].Chunk? || steps[i].Expire? {
      assert u.events[|t.events|].id == id;
    }
  }

  /** Every request ends in its caller's hands: over every run it is still pending, or its caller
      cancelled it, or the caller has had exactly one outcome. */
  lemma RequestsAreAnswered(cfg: Config, tables: seq<Table>, steps: seq<Step>, n: nat, id: string)
    requires Trace(cfg, tables, steps) && TableOk(cfg, tables[0]) && n <= |steps| && id in tables[0].pending
    ensures id in tables[n].pending || (exists i :: 0 <= i < n && steps[i].Cancel? && steps[i].id == id)
            || HeardOf(tables[n], id)
    ensures forall i, j :: 0 <= i < j < |tables[n].events| ==> tables[n].events[i].id != tables[n].events[j].id
  {
    RequestsEndOnce(cfg, tables, steps, n);
    if id !in tables[n].pending {
      var i := WhenItEnded(tables, id, n);
      EndHeardInTrace(cfg, tables, steps, i, tables[i], tables[i + 1], id);
      if HeardOf(tables[i + 1], id) {
        HeardStays(cfg, tables, steps, i + 1, n, id);
      }
    }
  }
}
