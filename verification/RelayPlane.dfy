/** The relay plane of one host: the pending table, the tombstones of ended requests and the
    acknowledgement table sent to the host (internal/hub/hub.go). */
module RelayPlane {
  import opened Wire
  import opened Sums
  import opened Text
  import opened Validation
  import opened RelayAssembly

  datatype Tombstone = Tombstone(ack: RelayAck, at: nat)

  /** What a waiting caller can see of its request: a value on resp, or done closed. */
  datatype Event = Sent(id: string, answer: Answer) | Closed(id: string)

  /** events records, in order, everything callers saw; issued every id ever dispatched. */
  datatype Table = Table(
    pending: map<string, Pending>, tombs: map<string, Tombstone>,
    issued: set<string>, events: seq<Event>)

  datatype Config = Config(codec: Codec, lim: Limits, maxPending: nat, maxTombs: nat, ttl: nat)

  function FailureStatus(): int { 502 }

  /** The message of a failed assembly is not modelled; its status is. */
  function FailureAnswer(why: Failure): Answer { Answer(FailureStatus(), "") }

  // ---- sums over the pending table ----

  function CountOf(p: Pending): int { |p.parked| }

  function BytesOf(p: Pending): int { p.parkedBytes }

  // ---- tombstones ----

  predicate Oldest(m: map<string, Tombstone>, id: string) {
    id in m && forall j :: j in m ==> m[id].at <= m[j].at
  }

  /** Recording how a request ended; over the bound some oldest record goes. */
  ghost predicate Tombstoned(m: map<string, Tombstone>, n: map<string, Tombstone>, ack: RelayAck, now: nat,
                             maxTombs: nat) {
    if ack.reqID == "" then n == m
    else
      var all := m[ack.reqID := Tombstone(ack, now)];
      if |all| <= maxTombs then n == all
      else exists gone :: Oldest(all, gone) && n == all - {gone}
  }

  predicate IsDone(m: map<string, Tombstone>, id: string) { id in m && m[id].ack.done }

  /** A completed request keeps its done record. */
  ghost predicate Aborted(m: map<string, Tombstone>, n: map<string, Tombstone>, id: string, now: nat, maxTombs: nat) {
    if IsDone(m, id) then n == m else Tombstoned(m, n, RelayAck(id, 0, false, true), now, maxTombs)
  }

  /** Aborting several requests: a record is old or a fresh abort of one of them, and while there
      is room nothing is evicted and none is missing. */
  ghost predicate AbortedAll(m: map<string, Tombstone>, n: map<string, Tombstone>, ids: set<string>, now: nat,
                             maxTombs: nat) {
    && (forall id :: id in n ==>
          || (id in m && n[id] == m[id])
          || (id in ids && !IsDone(m, id) && n[id] == Tombstone(RelayAck(id, 0, false, true), now)))
    && (|m| + |ids| <= maxTombs ==> forall id :: id in ids && id != "" ==> id in n)
    && (|m| + |ids| <= maxTombs ==> forall id :: id in m ==> id in n)
    && EvictedOldest(m, n, ids, now)
  }

  /** What was evicted on the way is no younger than anything kept: neither an old record nor one
      of the fresh aborts; the aborts kept are of this moment. */
  ghost predicate EvictedOldest(m: map<string, Tombstone>, n: map<string, Tombstone>, ids: set<string>, now: nat) {
    && (forall id :: id in m && id !in n && id !in ids ==> m[id].at <= now)
    && (forall id, j :: id in m && id !in n && id !in ids && j in n ==> m[id].at <= n[j].at)
    && (forall id, j :: id in ids && id != "" && !IsDone(m, id) && id !in n && j in n ==> now <= n[j].at)
    && (forall id :: id in ids && id != "" && !IsDone(m, id) && id in n ==> n[id].at == now)
  }

  /** The record of a request that ended: completed with so many chunks, or to be dropped. */
  predicate RecordsEnd(ack: RelayAck, id: string) {
    ack == RelayAck(id, ack.chunk, true, false) || ack == RelayAck(id, 0, false, true)
  }

  ghost predicate TombsOk(m: map<string, Tombstone>, maxTombs: nat) {
    |m| <= maxTombs && forall id :: id in m ==> id != "" && RecordsEnd(m[id].ack, id)
  }

  /** Nothing done has become aborted. */
  ghost predicate DoneStaysDone(m: map<string, Tombstone>, n: map<string, Tombstone>) {
    forall id :: IsDone(m, id) && id in n ==> IsDone(n, id)
  }

  lemma TombstonedOk(m: map<string, Tombstone>, n: map<string, Tombstone>, ack: RelayAck, now: nat, maxTombs: nat)
    requires TombsOk(m, maxTombs) && Tombstoned(m, n, ack, now, maxTombs)
    requires RecordsEnd(ack, ack.reqID) && (IsDone(m, ack.reqID) ==> ack.done)
    ensures TombsOk(n, maxTombs) && DoneStaysDone(m, n)
    ensures forall id :: IsDone(n, id) ==> IsDone(m, id) || (id == ack.reqID && ack.done)
  {
    if ack.reqID != "" {
      var all := m[ack.reqID := Tombstone(ack, now)];
      SizePut(m, ack.reqID, Tombstone(ack, now));
      if |all| > maxTombs {
        var gone :| Oldest(all, gone) && n == all - {gone};
        SizeRemove(all, gone);
      }
    }
  }

  lemma AbortedOk(m: map<string, Tombstone>, n: map<string, Tombstone>, id: string, now: nat, maxTombs: nat)
    requires TombsOk(m, maxTombs) && Aborted(m, n, id, now, maxTombs)
    ensures TombsOk(n, maxTombs) && DoneStaysDone(m, n)
    ensures forall j :: IsDone(n, j) ==> IsDone(m, j)
  {
    if !IsDone(m, id) {
      TombstonedOk(m, n, RelayAck(id, 0, false, true), now, maxTombs);
    }
  }

  // ---- steps ----

  datatype Step =
    | Register(id: string)
    | Chunk(id: string, f: Respond, now: nat)
    | Expire(id: string, answer: Answer, now: nat)
    | Cancel(id: string, now: nat)
    | DetachAll(now: nat)
    | ForgetTombs
    | Prune(now: nat)

  predicate Finished(t: Table, u: Table, id: string, e: Event) {
    u.pending == t.pending - {id} && u.events == t.events + [e]
  }

  /** What a chunk's outcome r means for the table. */
  ghost predicate Chunked(cfg: Config, t: Table, u: Table, id: string, r: Request, now: nat) {
    match r
    case Waiting(p) => u == t.(pending := t.pending[id := p])
    case Answered(a, final) =>
      && Finished(t, u, id, Sent(id, a))
      && Tombstoned(t.tombs, u.tombs, RelayAck(id, final, true, false), now, cfg.maxTombs)
    case Failed(why) =>
      Finished(t, u, id, Sent(id, FailureAnswer(why))) && Aborted(t.tombs, u.tombs, id, now, cfg.maxTombs)
  }

  /** One atomic change of the table, under the hub's lock. */
  ghost predicate Next(cfg: Config, t: Table, step: Step, u: Table) {
    match step
    case Register(id) =>
      && id !in t.issued && id != "" && |t.pending| < cfg.maxPending
      && u == t.(pending := t.pending[id := UNANSWERED], issued := t.issued + {id})
    case Chunk(id, f, now) =>
      && u.issued == t.issued
      && if id !in t.pending then
           && u.pending == t.pending && u.events == t.events
           && Aborted(t.tombs, u.tombs, id, now, cfg.maxTombs)
         else
           var r := AcceptChunk(cfg.codec, cfg.lim, t.pending[id], f,
                                Total(t.pending, CountOf), Total(t.pending, BytesOf));
           Chunked(cfg, t, u, id, r, now)
    case Expire(id, answer, now) =>
      && u.issued == t.issued
      && if id !in t.pending then u == t
         else Finished(t, u, id, Sent(id, answer)) && Aborted(t.tombs, u.tombs, id, now, cfg.maxTombs)
    case Cancel(id, now) =>
      && u.issued == t.issued
      && if id !in t.pending then u == t
         else
           && u.pending == t.pending - {id} && u.events == t.events
           && Aborted(t.tombs, u.tombs, id, now, cfg.maxTombs)
    case DetachAll(now) =>
      && u.issued == t.issued && u.pending == map[]
      && AllClosed(t, u) && TombsOk(u.tombs, cfg.maxTombs)
      && AbortedAll(t.tombs, u.tombs, t.pending.Keys, now, cfg.maxTombs)
    case ForgetTombs => u == t.(tombs := map[])
    case Prune(now) =>
      u == t.(tombs := map id | id in t.tombs && !Stale(t.tombs[id], now, cfg.ttl) :: t.tombs[id])
  }

  predicate Stale(ts: Tombstone, now: nat, ttl: nat) { now - ts.at > ttl }

  /** Each pending request's done is closed once, in some order. */
  ghost predicate AllClosed(t: Table, u: Table) {
    && |t.events| <= |u.events| && u.events[..|t.events|] == t.events
    && (forall i :: |t.events| <= i < |u.events| ==> u.events[i].Closed? && u.events[i].id in t.pending)
    && (forall id :: id in t.pending ==> exists i :: |t.events| <= i < |u.events| && u.events[i] == Closed(id))
    && (forall i, j :: |t.events| <= i < j < |u.events| ==> u.events[i].id != u.events[j].id)
  }

  // ---- invariants ----

  /** Nobody saw two outcomes of one request, and a pending request has had none: the one-slot
      channel its answer is sent on is always empty at the send. */
  ghost predicate EndsApart(t: Table) {
    && (forall i, j :: 0 <= i < j < |t.events| ==> t.events[i].id != t.events[j].id)
    && (forall i :: 0 <= i < |t.events| ==> t.events[i].id !in t.pending && t.events[i].id in t.issued)
    && (forall id :: id in t.pending ==> id in t.issued && id != "")
  }

  /** A done record is that of an ended request. */
  ghost predicate DoneIsOver(t: Table) {
    forall id :: IsDone(t.tombs, id) ==> id in t.issued && id !in t.pending
  }

  /** Every pending request knows what it has parked. The trigger keeps the sums out of proofs
      that do not speak of them. */
  ghost predicate AllParkedExactly(t: Table) {
    forall id {:trigger ParkedExactly(t.pending[id])} :: id in t.pending ==> ParkedExactly(t.pending[id])
  }

  ghost predicate TableOk(cfg: Config, t: Table) {
    && EndsApart(t) && DoneIsOver(t) && AllParkedExactly(t)
    && TombsOk(t.tombs, cfg.maxTombs)
    && |t.pending| <= cfg.maxPending
  }

  lemma UnansweredIsExact()
    ensures ParkedExactly(UNANSWERED)
  {}

  predicate Extends(t: Table, u: Table) {
    |t.events| <= |u.events| && u.events[..|t.events|] == t.events
  }

  lemma StillWaitingKeepsOk(cfg: Config, t: Table, id: string, p: Pending)
    requires TableOk(cfg, t) && id in t.pending && ParkedExactly(p)
    ensures TableOk(cfg, t.(pending := t.pending[id := p]))
  {
    SizePut(t.pending, id, p);
  }

  /** A request leaves the table with at most one event. */
  lemma LeavingKeepsOk(cfg: Config, t: Table, u: Table, id: string)
    requires TableOk(cfg, t) && id in t.pending
    requires u.pending == t.pending - {id} && u.issued == t.issued && TombsOk(u.tombs, cfg.maxTombs)
    requires forall j :: IsDone(u.tombs, j) ==> IsDone(t.tombs, j) || j == id
    requires u.events == t.events || exists a :: u.events == t.events + [Sent(id, a)]
    ensures TableOk(cfg, u) && Extends(t, u)
  {
    SizeRemove(t.pending, id);
  }

  lemma ChunkKeepsOk(cfg: Config, t: Table, u: Table, id: string, f: Respond, now: nat)
    requires TableOk(cfg, t) && Next(cfg, t, Chunk(id, f, now), u)
    ensures TableOk(cfg, u) && DoneStaysDone(t.tombs, u.tombs) && Extends(t, u)
  {
    if id !in t.pending {
      AbortedOk(t.tombs, u.tombs, id, now, cfg.maxTombs);
    } else {
      var p := t.pending[id];
      var count, bytes := Total(t.pending, CountOf), Total(t.pending, BytesOf);
      AcceptKeepsParked(cfg.codec, cfg.lim, p, f, count, bytes);
      ChunkedKeepsOk(cfg, t, u, id, AcceptChunk(cfg.codec, cfg.lim, p, f, count, bytes), now);
    }
  }

  lemma ChunkedKeepsOk(cfg: Config, t: Table, u: Table, id: string, r: Request, now: nat)
    requires TableOk(cfg, t) && id in t.pending && u.issued == t.issued && Chunked(cfg, t, u, id, r, now)
    requires r.Waiting? ==> ParkedExactly(r.p)
    ensures TableOk(cfg, u) && DoneStaysDone(t.tombs, u.tombs) && Extends(t, u)
  {
    match r {
      case Waiting(q) =>
        StillWaitingKeepsOk(cfg, t, id, q);
      case Answered(a, final) =>
        TombstonedOk(t.tombs, u.tombs, RelayAck(id, final, true, false), now, cfg.maxTombs);
        LeavingKeepsOk(cfg, t, u, id);
      case Failed(why) =>
        AbortedOk(t.tombs, u.tombs, id, now, cfg.maxTombs);
        LeavingKeepsOk(cfg, t, u, id);
    }
  }

  lemma RegisterKeepsOk(cfg: Config, t: Table, u: Table, id: string)
    requires TableOk(cfg, t) && Next(cfg, t, Register(id), u)
    ensures TableOk(cfg, u)
  {
    UnansweredIsExact();
    SizePut(t.pending, id, UNANSWERED);
  }

  lemma DetachKeepsOk(cfg: Config, t: Table, u: Table, now: nat)
    requires TableOk(cfg, t) && Next(cfg, t, DetachAll(now), u)
    ensures TableOk(cfg, u) && DoneStaysDone(t.tombs, u.tombs) && Extends(t, u)
  {
    DetachKeepsApart(t, u);
  }

  lemma PruneKeepsOk(cfg: Config, t: Table, u: Table, now: nat)
    requires TableOk(cfg, t) && Next(cfg, t, Prune(now), u)
    ensures TableOk(cfg, u) && DoneStaysDone(t.tombs, u.tombs)
  {
    SizeSubset(u.tombs.Keys, t.tombs.Keys);
  }

  lemma StepKeepsOk(cfg: Config, t: Table, step: Step, u: Table)
    requires TableOk(cfg, t) && Next(cfg, t, step, u)
    ensures TableOk(cfg, u) && Extends(t, u)
    ensures step.ForgetTombs? || DoneStaysDone(t.tombs, u.tombs)
  {
    match step
    case Register(id) => RegisterKeepsOk(cfg, t, u, id);
    case Chunk(id, f, now) => ChunkKeepsOk(cfg, t, u, id, f, now);
    case Expire(id, answer, now) =>
      if id in t.pending {
        AbortedOk(t.tombs, u.tombs, id, now, cfg.maxTombs);
        LeavingKeepsOk(cfg, t, u, id);
      }
    case Cancel(id, now) =>
      if id in t.pending {
        AbortedOk(t.tombs, u.tombs, id, now, cfg.maxTombs);
        LeavingKeepsOk(cfg, t, u, id);
      }
    case DetachAll(now) => DetachKeepsOk(cfg, t, u, now);
    case ForgetTombs =>
    case Prune(now) => PruneKeepsOk(cfg, t, u, now);
  }

  lemma DetachKeepsApart(t: Table, u: Table)
    requires EndsApart(t) && AllClosed(t, u) && u.pending == map[] && u.issued == t.issued
    ensures EndsApart(u)
  {
    forall i, j | 0 <= i < j < |u.events| ensures u.events[i].id != u.events[j].id {
      if i < |t.events| {
        assert u.events[..|t.events|][i] == t.events[i];
        if j < |t.events| {
          assert u.events[..|t.events|][j] == t.events[j];
        }
      }
    }
    forall i | 0 <= i < |u.events| ensures u.events[i].id in u.issued {
      if i < |t.events| {
        assert u.events[..|t.events|][i] == t.events[i];
      }
    }
  }

  lemma ExtendsFurther(t: Table, u: Table, v: Table)
    requires Extends(t, u) && Extends(u, v)
    ensures Extends(t, v)
  {
    assert v.events[..|t.events|] == v.events[..|u.events|][..|t.events|];
  }

  ghost predicate Trace(cfg: Config, tables: seq<Table>, steps: seq<Step>) {
    && |tables| == |steps| + 1
    && forall i :: 0 <= i < |steps| ==> StepAt(cfg, tables, steps, i)
  }

  ghost predicate StepAt(cfg: Config, tables: seq<Table>, steps: seq<Step>, i: nat)
    requires i < |steps| && |tables| == |steps| + 1
  {
    Next(cfg, tables[i], steps[i], tables[i + 1])
  }

  lemma {:induction false} TraceKeepsOk(cfg: Config, tables: seq<Table>, steps: seq<Step>, n: nat)
    requires Trace(cfg, tables, steps) && TableOk(cfg, tables[0]) && n <= |steps|
    ensures TableOk(cfg, tables[n]) && Extends(tables[0], tables[n])
    decreases n
  {
    if n > 0 {
      var t, u := tables[n - 1], tables[n];
      TraceKeepsOk(cfg, tables, steps, n - 1);
      StepInTrace(cfg, tables, steps, n - 1, t, u);
      ExtendsFurther(tables[0], t, u);
    }
  }

  lemma StepInTrace(cfg: Config, tables: seq<Table>, steps: seq<Step>, i: nat, t: Table, u: Table)
    requires Trace(cfg, tables, steps) && i < |steps| && t == tables[i] && u == tables[i + 1] && TableOk(cfg, t)
    ensures TableOk(cfg, u) && Extends(t, u)
  {
    assert StepAt(cfg, tables, steps, i);
    StepKeepsOk(cfg, t, steps[i], u);
  }

  /** Every relayed request ends at most once, over every run from a sound table: across final
      chunk, failure, expiry, cancel, detach and epoch change its caller gets at most one value
      or one close, never both, and nothing while it is pending. */
  lemma RequestsEndOnce(cfg: Config, tables: seq<Table>, steps: seq<Step>, n: nat)
    requires Trace(cfg, tables, steps) && TableOk(cfg, tables[0]) && n <= |steps|
    ensures TableOk(cfg, tables[n])
    ensures forall i, j :: 0 <= i < j < |tables[n].events| ==> tables[n].events[i].id != tables[n].events[j].id
    ensures forall i :: 0 <= i < |tables[n].events| ==> tables[n].events[i].id !in tables[n].pending
    ensures Extends(tables[0], tables[n])
  {
    TraceKeepsOk(cfg, tables, steps, n);
  }

  /** A request's chunks move no other request. */
  lemma OtherRequestsUntouched(cfg: Config, t: Table, u: Table, id: string, f: Respond, now: nat, other: string)
    requires Next(cfg, t, Chunk(id, f, now), u) && other in t.pending && other != id
    ensures other in u.pending && u.pending[other] == t.pending[other]
  {}

  // ---- the acknowledgement table ----

  /** What the table says of a request: its progress while pending, its record afterwards. */
  function AckFor(t: Table, id: string): RelayAck
    requires id in t.pending || id in t.tombs
  {
    if id in t.pending then RelayAck(id, t.pending[id].nextChunk, false, false) else t.tombs[id].ack
  }

  predicate SortedByID(acks: seq<RelayAck>) {
    forall i, j :: 0 <= i < j < |acks| ==> Less(acks[i].reqID, acks[j].reqID)
  }

  /** acks lists each pending or recently ended request once, by id, and nothing else. */
  ghost predicate IsAckTable(t: Table, acks: seq<RelayAck>) {
    && SortedByID(acks)
    && (forall i :: 0 <= i < |acks| ==>
         (acks[i].reqID in t.pending || acks[i].reqID in t.tombs) && acks[i] == AckFor(t, acks[i].reqID))
    && (forall id :: id in t.pending || id in t.tombs ==> AckFor(t, id) in acks)
  }

  /** Every emitted table passes the receiver's check and names each request once. */
  lemma AckTableIsValid(cfg: Config, t: Table, acks: seq<RelayAck>)
    requires TableOk(cfg, t) && IsAckTable(t, acks)
    ensures ValidateRelayAcks(acks, 0).None?
    ensures forall i, j :: 0 <= i < j < |acks| ==> acks[i].reqID != acks[j].reqID
  {
    ValidateRelayAcksIsExact(acks, 0);
    forall i, j | 0 <= i < j < |acks| ensures acks[i].reqID != acks[j].reqID {
      LessIrreflexive(acks[i].reqID);
    }
  }

  /** Where id belongs in a sorted table. */
  method Insert(acks: seq<RelayAck>, a: RelayAck) returns (out: seq<RelayAck>)
    requires SortedByID(acks) && forall i :: 0 <= i < |acks| ==> acks[i].reqID != a.reqID
    ensures SortedByID(out)
    ensures forall x :: x in out <==> x in acks || x == a
  {
    var i := 0;
    while i < |acks| && Less(acks[i].reqID, a.reqID)
      invariant 0 <= i <= |acks|
      invariant forall k :: 0 <= k < i ==> Less(acks[k].reqID, a.reqID)
    {
      i := i + 1;
    }
    out := acks[..i] + [a] + acks[i..];
    forall k | i <= k < |acks| ensures Less(a.reqID, acks[k].reqID) {
      LessTotal(acks[i].reqID, a.reqID);
      if k > i {
        LessTransitive(a.reqID, acks[i].reqID, acks[k].reqID);
      }
    }
    forall x ensures x in out <==> x in acks || x == a {
      assert acks == acks[..i] + acks[i..];
    }
  }

  /** The relay state of one host. Every method is one step of the table under the hub's lock. */
  class RelayHost {
    const cfg: Config
    var pending: map<string, Pending>
    var tombs: map<string, Tombstone>
    ghost var issued: set<string>
    ghost var events: seq<Event>

    ghost function State(): Table reads this { Table(pending, tombs, issued, events) }

    ghost predicate Valid() reads this { TableOk(cfg, State()) }

    constructor (config: Config)
      ensures Valid() && cfg == config && |pending| == |tombs| == |events| == 0
    {
      cfg := config;
      pending, tombs, issued, events := map[], map[], {}, [];
    }

    /** Out-of-order chunks and their weight over every pending request. */
    method HostParked() returns (chunks: int, bytes: int)
      ensures chunks == Total(pending, CountOf) && bytes == Total(pending, BytesOf)
    {
      chunks, bytes := 0, 0;
      var todo := pending;
      while |todo| > 0
        invariant chunks + Total(todo, CountOf) == Total(pending, CountOf)
        invariant bytes + Total(todo, BytesOf) == Total(pending, BytesOf)
        decreases |todo|
      {
        var id :| id in todo;
        TotalWithout(todo, CountOf, id);
        TotalWithout(todo, BytesOf, id);
        SizeRemove(todo, id);
        chunks := chunks + |todo[id].parked|;
        bytes := bytes + todo[id].parkedBytes;
        todo := todo - {id};
      }
    }

    method AddTombstone(ack: RelayAck, now: nat)
      modifies this`tombs
      ensures Tombstoned(old(tombs), tombs, ack, now, cfg.maxTombs)
    {
      if ack.reqID == "" {
        return;
      }
      tombs := tombs[ack.reqID := Tombstone(ack, now)];
      if |tombs| <= cfg.maxTombs {
        return;
      }
      var oldest := ack.reqID;
      var todo := tombs.Keys;
      while todo != {}
        invariant oldest in tombs && todo <= tombs.Keys
        invariant forall j :: j in tombs && j !in todo ==> tombs[oldest].at <= tombs[j].at
        decreases todo
      {
        var id :| id in todo;
        todo := todo - {id};
        if tombs[id].at < tombs[oldest].at {
          oldest := id;
        }
      }
      assert Oldest(tombs, oldest);
      tombs := tombs - {oldest};
    }

    method AddAbort(id: string, now: nat)
      modifies this`tombs
      ensures Aborted(old(tombs), tombs, id, now, cfg.maxTombs)
    {
      if id in tombs && tombs[id].ack.done {
        return;
      }
      AddTombstone(RelayAck(id, 0, false, true), now);
    }

    /** Takes a request in, unless the host has too many in flight. */
    method Register(id: string) returns (ok: bool)
      requires Valid() && id !in issued && id != ""
      modifies this
      ensures Valid() && ok == (|old(pending)| < cfg.maxPending)
      ensures if ok then Next(cfg, old(State()), Step.Register(id), State()) else State() == old(State())
    {
      ok := |pending| < cfg.maxPending;
      if ok {
        ghost var before := State();
        pending, issued := pending[id := UNANSWERED], issued + {id};
        RegisterKeepsOk(cfg, before, State(), id);
      }
    }

    /** One respond frame. known says whether its request is pending; notify that the request's
        ack moved or the request ended. */
    method AcceptRespond(id: string, f: Respond, now: nat) returns (known: bool, notify: bool)
      requires Valid()
      modifies this
      ensures Valid() && Next(cfg, old(State()), Chunk(id, f, now), State())
      ensures known == (id in old(pending))
      ensures notify <==> known && (id !in pending || pending[id].nextChunk > old(pending)[id].nextChunk)
    {
      ghost var before := State();
      known := id in pending;
      if !known {
        AddAbort(id, now);
        notify := false;
      } else {
        var p := pending[id];
        var r;
        r, notify := Assemble(p, f);
        Conclude(id, r, now);
      }
      ChunkKeepsOk(cfg, before, State(), id, f, now);
    }

    /** Where one frame takes its request. */
    method Assemble(p: Pending, f: Respond) returns (r: Request, notify: bool)
      requires ParkedExactly(p)
      ensures r == AcceptChunk(cfg.codec, cfg.lim, p, f, Total(pending, CountOf), Total(pending, BytesOf))
      ensures notify <==> !r.Waiting? || r.p.nextChunk > p.nextChunk
    {
      if f.chunkSeq <= p.nextChunk {
        return Waiting(p), false;
      }
      if f.chunkSeq > p.nextChunk + 1 {
        var chunks, bytes := HostParked();
        if !Room(cfg.lim, f, chunks, bytes) {
          return Failed(TooMuchParked), true;
        }
        r := if f.chunkSeq in p.parked then Waiting(p) else Waiting(ParkedToo(p, f));
        return r, false;
      }
      notify := true;
      r := ApplyChunk(cfg.codec, cfg.lim, p, f);
      ApplyKeepsParked(cfg.codec, cfg.lim, p, f);
      ghost var end := Drain(cfg.codec, cfg.lim, r);
      while r.Waiting? && r.p.nextChunk + 1 in r.p.parked
        invariant r.Waiting? ==> r.p.nextChunk > p.nextChunk
        invariant r.Waiting? ==> forall k :: k in r.p.parked ==> r.p.parked[k].chunkSeq == k
        invariant Drain(cfg.codec, cfg.lim, r) == end
        decreases if r.Waiting? then |r.p.parked| + 1 else 0
      {
        var k := r.p.nextChunk + 1;
        ApplyKeepsParked(cfg.codec, cfg.lim, Unparked(r.p, k), r.p.parked[k]);
        SizeRemove(r.p.parked, k);
        r := ApplyChunk(cfg.codec, cfg.lim, Unparked(r.p, k), r.p.parked[k]);
      }
    }

    /** Puts the outcome of a frame into the table. */
    method Conclude(id: string, r: Request, now: nat)
      requires id in pending
      modifies this
      ensures issued == old(issued) && Chunked(cfg, old(State()), State(), id, r, now)
    {
      match r {
        case Waiting(p) =>
          pending := pending[id := p];
        case Answered(a, final) =>
          pending := pending - {id};
          AddTombstone(RelayAck(id, final, true, false), now);
          events := events + [Sent(id, a)];
        case Failed(why) =>
          pending := pending - {id};
          AddAbort(id, now);
          events := events + [Sent(id, FailureAnswer(why))];
      }
    }

    /** Fails one request that is still pending, with the given status. */
    method FailRequest(id: string, answer: Answer, now: nat)
      requires Valid()
      modifies this
      ensures Valid() && Next(cfg, old(State()), Expire(id, answer, now), State())
    {
      ghost var before := State();
      if id in pending {
        pending := pending - {id};
        AddAbort(id, now);
        events := events + [Sent(id, answer)];
      }
      StepKeepsOk(cfg, before, Expire(id, answer, now), State());
    }

    /** The caller stopped waiting. */
    method DropPending(id: string, now: nat)
      requires Valid()
      modifies this
      ensures Valid() && Next(cfg, old(State()), Cancel(id, now), State())
    {
      ghost var before := State();
      if id in pending {
        pending := pending - {id};
        AddAbort(id, now);
      }
      StepKeepsOk(cfg, before, Cancel(id, now), State());
    }

    /** Closes every pending request: detach, unpair, or a new epoch. */
    method FailPending(now: nat)
      requires Valid()
      modifies this
      ensures Valid() && Next(cfg, old(State()), DetachAll(now), State())
    {
      ghost var before := State();
      ClosingStarts(cfg, before, now);
      ghost var gone := CloseAll(before, now);
      ClosingEnds(cfg, before, State(), gone, now);
    }

    method CloseAll(ghost before: Table, now: nat) returns (ghost gone: set<string>)
      requires Closing(cfg, before, State(), {}, now)
      modifies this
      ensures Closing(cfg, before, State(), gone, now) && |pending| == 0
    {
      gone := {};
      while |pending| > 0
        invariant Closing(cfg, before, State(), gone, now)
        decreases |pending|
      {
        var id :| id in pending;
        ghost var t := State();
        CloseOne(id, now);
        CloseStep(cfg, before, t, State(), gone, id, now);
        gone := gone + {id};
      }
    }

    method CloseOne(id: string, now: nat)
      requires id in pending
      modifies this
      ensures pending == old(pending) - {id} && |pending| < |old(pending)|
      ensures issued == old(issued) && events == old(events) + [Closed(id)]
      ensures Aborted(old(tombs), tombs, id, now, cfg.maxTombs)
    {
      AddAbort(id, now);
      events := events + [Closed(id)];
      SizeRemove(pending, id);
      pending := pending - {id};
    }

    /** A new epoch starts with no relay memory. */
    method ForgetTombstones()
      requires Valid()
      modifies this
      ensures Valid() && Next(cfg, old(State()), ForgetTombs, State())
    {
      ghost var before := State();
      tombs := map[];
      StepKeepsOk(cfg, before, ForgetTombs, State());
    }

    /** The acknowledgement table for the host; records past their age are dropped on the way. */
    method RelayAcks(now: nat) returns (out: seq<RelayAck>)
      requires Valid()
      modifies this
      ensures Valid() && Next(cfg, old(State()), Prune(now), State())
      ensures IsAckTable(State(), out) && ValidateRelayAcks(out, 0).None?
    {
      ghost var before := State();
      PruneTombs(now);
      PruneKeepsOk(cfg, before, State(), now);
      out := ListAcks();
      AckTableIsValid(cfg, State(), out);
    }

    method ListAcks() returns (out: seq<RelayAck>)
      requires forall id :: id in tombs ==> tombs[id].ack.reqID == id
      ensures IsAckTable(State(), out)
    {
      out := [];
      var all := pending.Keys + tombs.Keys;
      var todo := all;
      while todo != {}
        invariant todo <= all
        invariant SortedByID(out)
        invariant forall a :: a in out ==> a.reqID in all - todo && a == AckFor(State(), a.reqID)
        invariant forall id :: id in all - todo ==> AckFor(State(), id).reqID == id && AckFor(State(), id) in out
        decreases todo
      {
        var id :| id in todo;
        todo := todo - {id};
        var a := if id in pending then RelayAck(id, pending[id].nextChunk, false, false) else tombs[id].ack;
        out := Insert(out, a);
      }
    }

    method PruneTombs(now: nat)
      modifies this`tombs
      ensures tombs == map id | id in old(tombs) && !Stale(old(tombs)[id], now, cfg.ttl) :: old(tombs)[id]
    {
      var todo := tombs.Keys;
      while todo != {}
        invariant todo <= tombs.Keys <= old(tombs).Keys
        invariant forall id :: id in tombs ==>
          tombs[id] == old(tombs)[id] && (id in todo || !Stale(tombs[id], now, cfg.ttl))
        invariant forall id :: id in old(tombs) && (id in todo || !Stale(old(tombs)[id], now, cfg.ttl)) ==> id in tombs
        decreases todo
      {
        var id :| id in todo;
        todo := todo - {id};
        if now - tombs[id].at > cfg.ttl {
          tombs := tombs - {id};
        }
      }
    }
  }

  /** Part way through closing everything that was pending in the table before: gone is done. */
  ghost predicate Closing(cfg: Config, before: Table, t: Table, gone: set<string>, now: nat) {
    && DoneIsOver(before)
    && t.pending.Keys !! gone && t.pending.Keys + gone == before.pending.Keys && t.issued == before.issued
    && TombsOk(t.tombs, cfg.maxTombs)
    && AbortedAll(before.tombs, t.tombs, gone, now, cfg.maxTombs)
    && (|before.tombs| + |gone| <= cfg.maxTombs ==> |t.tombs| <= |before.tombs| + |gone|)
    && ClosedSoFar(before, t.events, gone)
  }

  lemma ClosingStarts(cfg: Config, before: Table, now: nat)
    requires TableOk(cfg, before)
    ensures Closing(cfg, before, before, {}, now)
  {}

  lemma CloseStep(cfg: Config, before: Table, t: Table, u: Table, gone: set<string>, id: string, now: nat)
    requires Closing(cfg, before, t, gone, now) && id in t.pending
    requires u.pending == t.pending - {id} && u.issued == t.issued && u.events == t.events + [Closed(id)]
    requires Aborted(t.tombs, u.tombs, id, now, cfg.maxTombs)
    ensures Closing(cfg, before, u, gone + {id}, now)
  {
    assert id in before.pending && id !in gone;
    CloseStepKeys(before, t, u, gone, id);
    AbortedOk(t.tombs, u.tombs, id, now, cfg.maxTombs);
    AbortOneMore(before.tombs, t.tombs, u.tombs, gone, id, now, cfg.maxTombs);
    CloseOneMore(before, t.events, gone, id);
  }

  lemma CloseStepKeys(before: Table, t: Table, u: Table, gone: set<string>, id: string)
    requires t.pending.Keys !! gone && t.pending.Keys + gone == before.pending.Keys && id in t.pending
    requires u.pending == t.pending - {id}
    ensures u.pending.Keys !! gone + {id} && u.pending.Keys + (gone + {id}) == before.pending.Keys
  {
    assert u.pending.Keys == t.pending.Keys - {id};
  }

  lemma ClosingEnds(cfg: Config, before: Table, t: Table, gone: set<string>, now: nat)
    requires TableOk(cfg, before) && Closing(cfg, before, t, gone, now) && |t.pending| == 0
    ensures Next(cfg, before, DetachAll(now), t) && TableOk(cfg, t)
  {
    assert gone == before.pending.Keys;
    DetachKeepsOk(cfg, before, t, now);
  }

  /** done was closed for exactly the requests in gone, once each, since the table t. */
  ghost predicate ClosedSoFar(t: Table, events: seq<Event>, gone: set<string>) {
    && |t.events| <= |events| && events[..|t.events|] == t.events
    && (forall i :: |t.events| <= i < |events| ==> events[i].Closed? && events[i].id in gone)
    && (forall id :: id in gone ==> exists i :: |t.events| <= i < |events| && events[i] == Closed(id))
    && (forall i, j :: |t.events| <= i < j < |events| ==> events[i].id != events[j].id)
  }

  lemma CloseOneMore(t: Table, events: seq<Event>, gone: set<string>, id: string)
    requires ClosedSoFar(t, events, gone) && id !in gone
    ensures ClosedSoFar(t, events + [Closed(id)], gone + {id})
  {
    var more := events + [Closed(id)];
    forall x | x in gone + {id} ensures exists i :: |t.events| <= i < |more| && more[i] == Closed(x) {
      if x in gone {
        var i :| |t.events| <= i < |events| && events[i] == Closed(x);
        assert more[i] == Closed(x);
      } else {
        assert more[|events|] == Closed(x);
      }
    }
  }

  lemma AbortOneMore(m: map<string, Tombstone>, n: map<string, Tombstone>, k: map<string, Tombstone>, gone: set<string>,
                     id: string, now: nat, maxTombs: nat)
    requires AbortedAll(m, n, gone, now, maxTombs) && !IsDone(m, id) && Aborted(n, k, id, now, maxTombs)
    requires id !in gone && (|m| + |gone| <= maxTombs ==> |n| <= |m| + |gone|)
    ensures AbortedAll(m, k, gone + {id}, now, maxTombs)
    ensures |m| + |gone + {id}| <= maxTombs ==> |k| <= |m| + |gone + {id}|
  {
    assert Tombstoned(n, k, RelayAck(id, 0, false, true), now, maxTombs);
    SizePut(n, id, Tombstone(RelayAck(id, 0, false, true), now));
    assert |gone + {id}| == |gone| + 1;
    AbortRecords(m, n, k, gone, id, now, maxTombs);
    AbortEvictsOldest(m, n, k, gone, id, now, maxTombs);
  }

  lemma AbortEvictsOldest(m: map<string, Tombstone>, n: map<string, Tombstone>, k: map<string, Tombstone>,
                          gone: set<string>, id: string, now: nat, maxTombs: nat)
    requires AbortedAll(m, n, gone, now, maxTombs) && !IsDone(m, id)
    requires Tombstoned(n, k, RelayAck(id, 0, false, true), now, maxTombs)
    ensures EvictedOldest(m, k, gone + {id}, now)
  {
    if id != "" {
      var all := n[id := Tombstone(RelayAck(id, 0, false, true), now)];
      AbortAddsYoung(m, n, gone, id, now, maxTombs);
      if |all| > maxTombs {
        var oldest :| Oldest(all, oldest) && k == all - {oldest};
        EvictingOldest(m, all, gone + {id}, oldest, now);
      }
    }
  }

  lemma AbortAddsYoung(m: map<string, Tombstone>, n: map<string, Tombstone>, gone: set<string>, id: string, now: nat,
                       maxTombs: nat)
    requires AbortedAll(m, n, gone, now, maxTombs) && !IsDone(m, id) && id != ""
    ensures var all := n[id := Tombstone(RelayAck(id, 0, false, true), now)];
            EvictedOldest(m, all, gone + {id}, now) && FromBefore(m, all, gone + {id}, now)
  {}

  /** A record is old, or an abort of this moment. */
  ghost predicate FromBefore(m: map<string, Tombstone>, n: map<string, Tombstone>, ids: set<string>, now: nat) {
    && (forall id :: id in n && id !in ids ==> id in m && n[id] == m[id])
    && (exists id :: id in n && n[id].at == now)
  }

  lemma EvictingOldest(m: map<string, Tombstone>, all: map<string, Tombstone>, ids: set<string>, oldest: string,
                       now: nat)
    requires EvictedOldest(m, all, ids, now) && FromBefore(m, all, ids, now) && Oldest(all, oldest)
    ensures EvictedOldest(m, all - {oldest}, ids, now)
  {}

  lemma AbortRecords(m: map<string, Tombstone>, n: map<string, Tombstone>, k: map<string, Tombstone>, gone: set<string>,
                     id: string, now: nat, maxTombs: nat)
    requires AbortedAll(m, n, gone, now, maxTombs) && !IsDone(m, id)
    requires Tombstoned(n, k, RelayAck(id, 0, false, true), now, maxTombs)
    ensures forall j :: j in k ==>
              || (j in m && k[j] == m[j])
              || (j in gone + {id} && !IsDone(m, j) && k[j] == Tombstone(RelayAck(j, 0, false, true), now))
  {
    forall j | j in k ensures (j in m && k[j] == m[j])
                           || (j in gone + {id} && !IsDone(m, j)
                               && k[j] == Tombstone(RelayAck(j, 0, false, true), now)) {
      if j != id || id == "" {
        assert j in n && k[j] == n[j];
      }
    }
  }
}
