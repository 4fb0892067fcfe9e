/** One relayed answer among everything else a host's relay plane does: other requests, their
    chunks and failures, registrations and pruning, interleaved in any order. */
module RelayRuns {
  import opened Wire
  import opened Sums
  import opened RelayAssembly
  import opened RelayPlane

  /** A step that ends the request other than by one of its chunks. */
  predicate Ends(step: Step, id: string) {
    step.DetachAll? || (step.Expire? && step.id == id) || (step.Cancel? && step.id == id)
  }

  predicate IsChunkOf(step: Step, id: string) { step.Chunk? && step.id == id }

  /** A chunk of the request is one of the answer's frames, and if it has to be parked there is
      room for it beside what the whole host has parked. */
  ghost predicate ChunkFits(cfg: Config, t: Table, step: Step, id: string, frames: seq<Respond>)
    requires IsChunkOf(step, id)
  {
    && 1 <= step.f.chunkSeq <= |frames| && step.f == frames[step.f.chunkSeq - 1]
    && (id in t.pending && step.f.chunkSeq > t.pending[id].nextChunk + 1 ==>
          Room(cfg.lim, step.f, Total(t.pending, CountOf), Total(t.pending, BytesOf)))
  }

  /** The step leaves the request alone or is a chunk of it that fits. */
  ghost predicate Fair(cfg: Config, t: Table, step: Step, id: string, frames: seq<Respond>) {
    !Ends(step, id) && (IsChunkOf(step, id) ==> ChunkFits(cfg, t, step, id, frames))
  }

  ghost predicate AllFair(cfg: Config, tables: seq<Table>, steps: seq<Step>, id: string, frames: seq<Respond>)
    requires |tables| == |steps| + 1
  {
    forall i :: 0 <= i < |steps| ==> FairAt(cfg, tables, steps, id, frames, i)
  }

  ghost predicate FairAt(cfg: Config, tables: seq<Table>, steps: seq<Step>, id: string, frames: seq<Respond>, i: nat)
    requires i < |steps| && |tables| == |steps| + 1
  {
    Fair(cfg, tables[i], steps[i], id, frames)
  }

  /** The chunks of the request among the first n steps. */
  function Heard(steps: seq<Step>, id: string, n: nat): set<nat>
    requires n <= |steps|
  {
    if n == 0 then {}
    else Heard(steps, id, n - 1) + if IsChunkOf(steps[n - 1], id) then {steps[n - 1].f.chunkSeq} else {}
  }

  /** The table holds the request where the assembly has got to, or its caller has the answer. */
  predicate Tracks(t: Table, id: string, r: Request) {
    && id in t.issued
    && match r
       case Waiting(p) => id in t.pending && t.pending[id] == p
       case Answered(a, _) => id !in t.pending && Sent(id, a) in t.events
       case Failed(_) => false
  }

  lemma OtherStepTracks(cfg: Config, t: Table, step: Step, u: Table, id: string, r: Request)
    requires TableOk(cfg, t) && Next(cfg, t, step, u) && Tracks(t, id, r)
    requires !Ends(step, id) && !IsChunkOf(step, id)
    ensures Tracks(u, id, r)
  {
    StepKeepsOk(cfg, t, step, u);
    if r.Answered? {
      var i :| 0 <= i < |t.events| && t.events[i] == Sent(id, r.answer);
      assert u.events[..|t.events|][i] == u.events[i];
    }
    if step.Chunk? && r.Waiting? {
      OtherRequestsUntouched(cfg, t, u, step.id, step.f, step.now, id);
    }
  }

  /** A chunk with what the whole host has parked when it arrives. */
  ghost function AsDelivered(t: Table, step: Step): RelayAssembly.Delivery
    requires step.Chunk?
  {
    RelayAssembly.Delivery(step.f, Total(t.pending, CountOf), Total(t.pending, BytesOf))
  }

  /** What the table makes of the request's own chunk. */
  lemma ChunkInTable(cfg: Config, t: Table, step: Step, u: Table, id: string, r: Request, q: Request)
    requires Next(cfg, t, step, u) && IsChunkOf(step, id) && Tracks(t, id, r) && !q.Failed?
    requires q == Deliver(cfg.codec, cfg.lim, r, AsDelivered(t, step))
    ensures Tracks(u, id, q)
  {}

  lemma OwnChunkReaches(cfg: Config, t: Table, step: Step, id: string, frames: seq<Respond>, seen: set<nat>, r: Request)
    requires Tracks(t, id, r) && IsChunkOf(step, id) && ChunkFits(cfg, t, step, id, frames)
    requires Answerable(cfg.codec, cfg.lim, frames) && Reached(cfg.codec, cfg.lim, frames, seen, r)
    ensures var q := Deliver(cfg.codec, cfg.lim, r, AsDelivered(t, step));
            Reached(cfg.codec, cfg.lim, frames, seen + {step.f.chunkSeq}, q)
  {
    OneArrivalReaches(cfg.codec, cfg.lim, frames, seen, r,
                      Arrival(step.f.chunkSeq, Total(t.pending, CountOf), Total(t.pending, BytesOf)));
  }

  lemma OwnChunkTracks(cfg: Config, t: Table, step: Step, u: Table, id: string, frames: seq<Respond>, seen: set<nat>,
                       r: Request)
    returns (q: Request)
    requires TableOk(cfg, t) && Next(cfg, t, step, u) && Tracks(t, id, r) && IsChunkOf(step, id)
    requires Answerable(cfg.codec, cfg.lim, frames) && Reached(cfg.codec, cfg.lim, frames, seen, r)
    requires ChunkFits(cfg, t, step, id, frames)
    ensures Tracks(u, id, q) && Reached(cfg.codec, cfg.lim, frames, seen + {step.f.chunkSeq}, q)
  {
    q := Deliver(cfg.codec, cfg.lim, r, AsDelivered(t, step));
    OwnChunkReaches(cfg, t, step, id, frames, seen, r);
    ChunkInTable(cfg, t, step, u, id, r, q);
  }

  lemma StepTracks(cfg: Config, t: Table, step: Step, u: Table, id: string, frames: seq<Respond>, seen: set<nat>,
                   r: Request)
    returns (q: Request)
    requires TableOk(cfg, t) && Next(cfg, t, step, u) && Tracks(t, id, r) && Fair(cfg, t, step, id, frames)
    requires Answerable(cfg.codec, cfg.lim, frames) && Reached(cfg.codec, cfg.lim, frames, seen, r)
    ensures Tracks(u, id, q)
    ensures Reached(cfg.codec, cfg.lim, frames, if IsChunkOf(step, id) then seen + {step.f.chunkSeq} else seen, q)
  {
    if IsChunkOf(step, id) {
      q := OwnChunkTracks(cfg, t, step, u, id, frames, seen, r);
    } else {
      OtherStepTracks(cfg, t, step, u, id, r);
      q := r;
    }
  }

  lemma {:induction false} AssemblyTracks(cfg: Config, tables: seq<Table>, steps: seq<Step>, id: string,
                                          frames: seq<Respond>, n: nat) returns (r: Request)
    requires Trace(cfg, tables, steps) && TableOk(cfg, tables[0]) && n <= |steps|
    requires id in tables[0].pending && tables[0].pending[id] == UNANSWERED
    requires Answerable(cfg.codec, cfg.lim, frames) && AllFair(cfg, tables, steps, id, frames)
    ensures Tracks(tables[n], id, r) && Reached(cfg.codec, cfg.lim, frames, Heard(steps, id, n), r)
    decreases n
  {
    if n == 0 {
      r := Waiting(UNANSWERED);
      NothingHeard(cfg, steps, id, frames);
    } else {
      var before := AssemblyTracks(cfg, tables, steps, id, frames, n - 1);
      r := StepInTraceTracks(cfg, tables, steps, n - 1, tables[n - 1], tables[n], id, frames, before);
    }
  }

  lemma NothingHeard(cfg: Config, steps: seq<Step>, id: string, frames: seq<Respond>)
    requires Answerable(cfg.codec, cfg.lim, frames)
    ensures Reached(cfg.codec, cfg.lim, frames, Heard(steps, id, 0), Waiting(UNANSWERED))
  {}

  lemma StepInTraceTracks(cfg: Config, tables: seq<Table>, steps: seq<Step>, i: nat, t: Table, u: Table, id: string,
                          frames: seq<Respond>, r: Request)
    returns (q: Request)
    requires Trace(cfg, tables, steps) && TableOk(cfg, tables[0]) && AllFair(cfg, tables, steps, id, frames)
    requires i < |steps| && t == tables[i] && u == tables[i + 1] && Tracks(t, id, r)
    requires Answerable(cfg.codec, cfg.lim, frames)
    requires Reached(cfg.codec, cfg.lim, frames, Heard(steps, id, i), r)
    ensures Tracks(u, id, q) && Reached(cfg.codec, cfg.lim, frames, Heard(steps, id, i + 1), q)
  {
    TraceKeepsOk(cfg, tables, steps, i);
    assert StepAt(cfg, tables, steps, i) && FairAt(cfg, tables, steps, id, frames, i);
    q := StepTracks(cfg, t, steps[i], u, id, frames, Heard(steps, id, i), r);
    HeardOneMore(steps, id, i + 1);
  }

  lemma HeardOneMore(steps: seq<Step>, id: string, n: nat)
    requires 0 < n <= |steps|
    ensures var step, seen := steps[n - 1], Heard(steps, id, n - 1);
            Heard(steps, id, n) == if IsChunkOf(step, id) then seen + {step.f.chunkSeq} else seen
  {}

  /** Assembly is independent of the order of arrival in the midst of everything else: whatever
      other requests do meanwhile, a request whose chunks found room waits until the last of its
      chunks has come, in whatever order and however often, and then its caller has exactly one
      outcome, the whole answer. */
  lemma AnswerReachesCaller(cfg: Config, tables: seq<Table>, steps: seq<Step>, id: string, frames: seq<Respond>)
    requires Trace(cfg, tables, steps) && TableOk(cfg, tables[0])
    requires id in tables[0].pending && tables[0].pending[id] == UNANSWERED
    requires Answerable(cfg.codec, cfg.lim, frames)
    requires AllFair(cfg, tables, steps, id, frames)
    ensures var n := |steps|;
            var last := tables[n];
            var answer := Sent(id, Answer(frames[0].status, Assembled(cfg.codec, frames, |frames|)));
            && (id in last.pending <==> exists k :: 1 <= k <= |frames| && k !in Heard(steps, id, n))
            && (id !in last.pending ==> answer in last.events)
            && (forall e :: e in last.events && e.id == id ==> id !in last.pending && e == answer)
  {
    var n := |steps|;
    var r := AssemblyTracks(cfg, tables, steps, id, frames, n);
    RequestsEndOnce(cfg, tables, steps, n);
    var last := tables[n];
    if r.Answered? {
      forall e | e in last.events && e.id == id ensures e == Sent(id, r.answer) {
        var i :| 0 <= i < |last.events| && last.events[i] == e;
        var j :| 0 <= j < |last.events| && last.events[j] == Sent(id, r.answer);
      }
    } else {
      assert r.p.nextChunk + 1 !in Heard(steps, id, n);
    }
  }

  // ---- the parked budgets ----

  /** All that a host has parked, over all its pending requests, is within both limits. */
  ghost predicate WithinBudget(cfg: Config, t: Table) {
    Total(t.pending, CountOf) <= cfg.lim.maxChunks && Total(t.pending, BytesOf) <= cfg.lim.maxBytes
  }

  lemma {:induction false} DrainShrinks(c: Codec, lim: Limits, r: Request)
    requires r.Waiting? ==> ParkedAhead(r.p)
    ensures var d := Drain(c, lim, r);
            d.Waiting? ==> r.Waiting? && CountOf(d.p) <= CountOf(r.p) && BytesOf(d.p) <= BytesOf(r.p)
    decreases if r.Waiting? then |r.p.parked| + 1 else 0
  {
    if r.Waiting? && r.p.nextChunk + 1 in r.p.parked {
      var k := r.p.nextChunk + 1;
      DrainStepKeepsParked(c, lim, r.p);
      ApplyKeepsParked(c, lim, Unparked(r.p, k), r.p.parked[k]);
      DrainShrinks(c, lim, ApplyChunk(c, lim, Unparked(r.p, k), r.p.parked[k]));
    }
  }

  /** A chunk parks itself where there is room, and otherwise only ever frees. */
  lemma AcceptParksInRoom(c: Codec, lim: Limits, p: Pending, f: Respond, hostChunks: int, hostBytes: int)
    requires ParkedExactly(p)
    ensures var r := AcceptChunk(c, lim, p, f, hostChunks, hostBytes);
            r.Waiting? ==>
              || (CountOf(r.p) <= CountOf(p) && BytesOf(r.p) <= BytesOf(p))
              || (Room(lim, f, hostChunks, hostBytes)
                  && CountOf(r.p) == CountOf(p) + 1 && BytesOf(r.p) == BytesOf(p) + WeightOf(f))
  {
    if f.chunkSeq == p.nextChunk + 1 {
      ApplyKeepsParked(c, lim, p, f);
      DrainShrinks(c, lim, ApplyChunk(c, lim, p, f));
    } else if f.chunkSeq > p.nextChunk + 1 && f.chunkSeq !in p.parked {
      SizePut(p.parked, f.chunkSeq, f);
    }
  }

  lemma LeavingKeepsBudget(cfg: Config, t: Table, u: Table, id: string)
    requires AllParkedExactly(t) && WithinBudget(cfg, t) && id in t.pending && u.pending == t.pending - {id}
    ensures WithinBudget(cfg, u)
  {
    assert ParkedExactly(t.pending[id]);
    TotalWithout(t.pending, CountOf, id);
    TotalWithout(t.pending, BytesOf, id);
    TotalIsNonNegative(t.pending[id].parked, WeightOf);
  }

  lemma ChunkKeepsBudget(cfg: Config, t: Table, u: Table, id: string, f: Respond, now: nat)
    requires AllParkedExactly(t) && WithinBudget(cfg, t) && Next(cfg, t, Chunk(id, f, now), u)
    ensures WithinBudget(cfg, u)
  {
    if id in t.pending {
      var p, chunks, bytes := t.pending[id], Total(t.pending, CountOf), Total(t.pending, BytesOf);
      var r := AcceptChunk(cfg.codec, cfg.lim, p, f, chunks, bytes);
      if r.Waiting? {
        AcceptParksInRoom(cfg.codec, cfg.lim, p, f, chunks, bytes);
        TotalPut(t.pending, CountOf, id, r.p);
        TotalPut(t.pending, BytesOf, id, r.p);
      } else {
        LeavingKeepsBudget(cfg, t, u, id);
      }
    }
  }

  lemma StepKeepsBudget(cfg: Config, t: Table, step: Step, u: Table)
    requires TableOk(cfg, t) && WithinBudget(cfg, t) && Next(cfg, t, step, u)
    ensures WithinBudget(cfg, u)
  {
    match step
    case Register(id) =>
      TotalPut(t.pending, CountOf, id, UNANSWERED);
      TotalPut(t.pending, BytesOf, id, UNANSWERED);
    case Chunk(id, f, now) => ChunkKeepsBudget(cfg, t, u, id, f, now);
    case Expire(id, answer, now) => if id in t.pending { LeavingKeepsBudget(cfg, t, u, id); }
    case Cancel(id, now) => if id in t.pending { LeavingKeepsBudget(cfg, t, u, id); }
    case _ =>
  }

  lemma BudgetInTrace(cfg: Config, tables: seq<Table>, steps: seq<Step>, i: nat, t: Table, u: Table)
    requires Trace(cfg, tables, steps) && TableOk(cfg, tables[0]) && i < |steps|
    requires t == tables[i] && u == tables[i + 1] && WithinBudget(cfg, t)
    ensures WithinBudget(cfg, u)
  {
    TraceKeepsOk(cfg, tables, steps, i);
    assert StepAt(cfg, tables, steps, i);
    StepKeepsBudget(cfg, t, steps[i], u);
  }

  /** What a host may park is bounded over every run: across all its pending requests together
      the out-of-order chunks and their weight stay within the two limits. */
  lemma {:induction false} ParkedStaysInBudget(cfg: Config, tables: seq<Table>, steps: seq<Step>, n: nat)
    requires Trace(cfg, tables, steps) && TableOk(cfg, tables[0]) && WithinBudget(cfg, tables[0]) && n <= |steps|
    ensures WithinBudget(cfg, tables[n])
    decreases n
  {
    if n > 0 {
      ParkedStaysInBudget(cfg, tables, steps, n - 1);
      BudgetInTrace(cfg, tables, steps, n - 1, tables[n - 1], tables[n]);
    }
  }
}
