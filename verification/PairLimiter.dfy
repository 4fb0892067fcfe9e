/** The sliding-window limiter of pairing attempts (cmd/capri-hub/main.go: pairLimiter), against
    one that never forgets a hit. Times are readings of one clock that does not run backwards. */
module PairLimiter {
  import opened Sums

  const LIMIT := 10
  const WINDOW: int := 60_000_000_000
  const PRUNE_ABOVE := 256

  type Hits = map<string, seq<int>>

  function Of(hits: Hits, ip: string): seq<int> { if ip in hits then hits[ip] else [] }

  /** What is left once the leading hits before cutoff are skipped. */
  function Since(times: seq<int>, cutoff: int): seq<int> {
    if |times| > 0 && times[0] < cutoff then Since(times[1..], cutoff) else times
  }

  /** It is a tail: everything in front is older than cutoff, and its own first hit is not. */
  lemma {:induction false} SinceIsTail(times: seq<int>, cutoff: int)
    ensures var r := Since(times, cutoff);
            && |r| <= |times| && r == times[|times| - |r|..]
            && (forall i :: 0 <= i < |times| - |r| ==> times[i] < cutoff)
            && (|r| > 0 ==> r[0] >= cutoff)
  {
    if |times| > 0 && times[0] < cutoff {
      SinceIsTail(times[1..], cutoff);
    }
  }

  function Pruned(hits: Hits, cutoff: int): Hits {
    map ip | ip in hits && |Since(hits[ip], cutoff)| > 0 :: Since(hits[ip], cutoff)
  }

  function Swept(hits: Hits, cutoff: int): Hits {
    if |hits| > PRUNE_ABOVE then Pruned(hits, cutoff) else hits
  }

  predicate Accepts(hits: Hits, ip: string, now: int) {
    |Since(Of(Swept(hits, now - WINDOW), ip), now - WINDOW)| < LIMIT
  }

  function Allowed(hits: Hits, ip: string, now: int): Hits {
    var swept := Swept(hits, now - WINDOW);
    var recent := Since(Of(swept, ip), now - WINDOW);
    swept[ip := if |recent| < LIMIT then recent + [now] else recent]
  }

  /** Pruned, but for the addresses in rest. */
  function HalfPruned(hits: Hits, rest: set<string>, cutoff: int): Hits {
    map ip | ip in hits && (ip in rest || |Since(hits[ip], cutoff)| > 0) ::
      if ip in rest then hits[ip] else Since(hits[ip], cutoff)
  }

  lemma PruneOne(hits: Hits, rest: set<string>, cutoff: int, ip: string)
    requires ip in rest && ip in hits
    ensures var half, left := HalfPruned(hits, rest, cutoff), Since(hits[ip], cutoff);
            && ip in half && half[ip] == hits[ip]
            && HalfPruned(hits, rest - {ip}, cutoff) == if |left| == 0 then half - {ip} else half[ip := left]
  {}

  class Limiter {
    var hits: Hits

    constructor ()
      ensures hits == map[]
    {
      hits := map[];
    }

    method Prune(cutoff: int)
      modifies this
      ensures hits == Pruned(old(hits), cutoff)
    {
      ghost var before := hits;
      var rest := hits.Keys;
      while rest != {}
        invariant rest <= before.Keys
        invariant hits == HalfPruned(before, rest, cutoff)
      {
        var ip :| ip in rest;
        PruneOne(before, rest, cutoff, ip);
        rest := rest - {ip};
        var v := Skip(hits[ip], cutoff);
        if |v| == 0 {
          hits := hits - {ip};
        } else {
          hits := hits[ip := v];
        }
      }
    }

    method Skip(times: seq<int>, cutoff: int) returns (r: seq<int>)
      ensures r == Since(times, cutoff)
    {
      var i := 0;
      assert times[0..] == times;
      while i < |times| && times[i] < cutoff
        invariant i <= |times| && Since(times, cutoff) == Since(times[i..], cutoff)
      {
        assert times[i..][1..] == times[i + 1..];
        i := i + 1;
      }
      r := times[i..];
    }

    method Allow(ip: string, now: int) returns (ok: bool)
      modifies this
      ensures ok == Accepts(old(hits), ip, now) && hits == Allowed(old(hits), ip, now)
    {
      var cutoff := now - WINDOW;
      if |hits| > PRUNE_ABOVE {
        Prune(cutoff);
      }
      var hs := Skip(if ip in hits then hits[ip] else [], cutoff);
      if |hs| >= LIMIT {
        hits := hits[ip := hs];
        return false;
      }
      hits := hits[ip := hs + [now]];
      return true;
    }
  }

  // ---- the limiter that never forgets ----

  /** How many of the hits are not older than cutoff. */
  function Recent(times: seq<int>, cutoff: int): nat {
    if |times| == 0 then 0 else Recent(times[1..], cutoff) + if times[0] >= cutoff then 1 else 0
  }

  predicate FullAccepts(full: Hits, ip: string, now: int) { Recent(Of(full, ip), now - WINDOW) < LIMIT }

  datatype Step = Hit(ip: string, now: int) | Sweep(now: int)

  /** Both limiters over the same steps: what each has, what each decided, and the clock. */
  datatype Pair = Pair(hits: Hits, full: Hits, decided: seq<bool>, fullDecided: seq<bool>, clock: int)

  function Apply(p: Pair, step: Step): Pair {
    match step
    case Hit(ip, now) =>
      Pair(Allowed(p.hits, ip, now),
           if FullAccepts(p.full, ip, now) then p.full[ip := Of(p.full, ip) + [now]] else p.full,
           p.decided + [Accepts(p.hits, ip, now)], p.fullDecided + [FullAccepts(p.full, ip, now)], now)
    case Sweep(now) => p.(hits := Pruned(p.hits, now - WINDOW), clock := now)
  }

  /** The clock does not run backwards. */
  predicate Timely(p: Pair, steps: seq<Step>)
    decreases |steps|
  {
    |steps| == 0 || (steps[0].now >= p.clock && Timely(Apply(p, steps[0]), steps[1..]))
  }

  function Run(p: Pair, steps: seq<Step>): Pair
    decreases |steps|
  {
    if |steps| == 0 then p else Run(Apply(p, steps[0]), steps[1..])
  }

  predicate Start(p: Pair) { |p.hits| == 0 && |p.full| == 0 && p.decided == p.fullDecided }

  // ---- the simulation ----

  /** kept is the whole list without some hits that left the window long ago. */
  predicate Keeps(kept: seq<int>, whole: seq<int>, clock: int) {
    && |kept| <= |whole| && kept == whole[|whole| - |kept|..]
    && (forall i :: 0 <= i < |whole| - |kept| ==> whole[i] < clock - WINDOW)
  }

  predicate Ordered(times: seq<int>, clock: int) {
    && (forall i, j :: 0 <= i < j < |times| ==> times[i] <= times[j])
    && (forall i :: 0 <= i < |times| ==> times[i] <= clock)
  }

  /** More than LIMIT hits never fall into one window. */
  predicate Spread(times: seq<int>) {
    forall i, j :: 0 <= i && i + LIMIT <= j < |times| ==> times[j] > times[i] + WINDOW
  }

  ghost predicate SimulatesFor(hits: Hits, full: Hits, clock: int, ip: string) {
    Keeps(Of(hits, ip), Of(full, ip), clock) && Ordered(Of(full, ip), clock) && Spread(Of(full, ip))
  }

  ghost predicate Simulates(p: Pair) {
    && p.decided == p.fullDecided
    && forall ip :: SimulatesFor(p.hits, p.full, p.clock, ip)
  }

  /** Of hits in order, those since cutoff are exactly the tail the pruning keeps. */
  lemma {:induction false} RecentIsTail(times: seq<int>, clock: int, cutoff: int)
    requires Ordered(times, clock)
    ensures Recent(times, cutoff) == |Since(times, cutoff)|
  {
    if |times| == 0 {
    } else {
      RecentIsTail(times[1..], clock, cutoff);
      if times[0] >= cutoff {
        AllRecent(times[1..], cutoff);
      }
    }
  }

  lemma {:induction false} AllRecent(times: seq<int>, cutoff: int)
    requires forall i :: 0 <= i < |times| ==> times[i] >= cutoff
    ensures Recent(times, cutoff) == |times|
  {
    if |times| == 0 {
    } else {
      AllRecent(times[1..], cutoff);
    }
  }

  lemma SinceKeeps(kept: seq<int>, whole: seq<int>, clock: int, now: int)
    requires Keeps(kept, whole, clock) && clock <= now
    ensures Keeps(Since(kept, now - WINDOW), whole, now)
    ensures Since(kept, now - WINDOW) == Since(whole, now - WINDOW)
  {
    SinceOfTail(whole, |whole| - |kept|, now - WINDOW);
    SinceIsTail(whole, now - WINDOW);
    SinceIsTail(kept, now - WINDOW);
  }

  lemma {:induction false} SinceOfTail(whole: seq<int>, k: nat, cutoff: int)
    requires k <= |whole| && forall i :: 0 <= i < k ==> whole[i] < cutoff
    ensures Since(whole, cutoff) == Since(whole[k..], cutoff)
  {
    if k > 0 {
      assert whole[1..][k - 1..] == whole[k..];
      SinceOfTail(whole[1..], k - 1, cutoff);
    } else {
      assert whole[0..] == whole;
    }
  }

  lemma PrunedOf(hits: Hits, cutoff: int, ip: string)
    ensures Of(Pruned(hits, cutoff), ip) == Since(Of(hits, ip), cutoff)
  {}

  lemma PrunedKeeps(hits: Hits, full: Hits, clock: int, now: int, ip: string)
    requires Keeps(Of(hits, ip), Of(full, ip), clock) && clock <= now
    ensures Keeps(Of(Pruned(hits, now - WINDOW), ip), Of(full, ip), now)
  {
    PrunedOf(hits, now - WINDOW, ip);
    SinceKeeps(Of(hits, ip), Of(full, ip), clock, now);
  }

  lemma SweptKeeps(hits: Hits, full: Hits, clock: int, now: int, ip: string)
    requires Keeps(Of(hits, ip), Of(full, ip), clock) && clock <= now
    ensures Keeps(Of(Swept(hits, now - WINDOW), ip), Of(full, ip), now)
  {
    PrunedKeeps(hits, full, clock, now, ip);
  }

  lemma SameDecision(p: Pair, ip: string, now: int)
    requires Simulates(p) && p.clock <= now
    ensures Accepts(p.hits, ip, now) <==> FullAccepts(p.full, ip, now)
    ensures Keeps(Of(Allowed(p.hits, ip, now), ip), Of(Apply(p, Hit(ip, now)).full, ip), now)
  {
    assert SimulatesFor(p.hits, p.full, p.clock, ip);
    var whole := Of(p.full, ip);
    SweptKeeps(p.hits, p.full, p.clock, now, ip);
    var swept := Of(Swept(p.hits, now - WINDOW), ip);
    SinceKeeps(swept, whole, now, now);
    RecentIsTail(whole, p.clock, now - WINDOW);
    GrowKeeps(Since(swept, now - WINDOW), whole, now);
  }

  lemma GrowKeeps(kept: seq<int>, whole: seq<int>, now: int)
    requires Keeps(kept, whole, now)
    ensures Keeps(kept + [now], whole + [now], now)
  {}

  /** An accepted hit leaves more than LIMIT hits in no window. */
  lemma AcceptedStaysSpread(whole: seq<int>, clock: int, now: int)
    requires Ordered(whole, clock) && Spread(whole) && clock <= now
    requires Recent(whole, now - WINDOW) < LIMIT
    ensures Spread(whole + [now]) && Ordered(whole + [now], now)
  {
    RecentIsTail(whole, clock, now - WINDOW);
    SinceIsTail(whole, now - WINDOW);
  }

  lemma HitSimulates(p: Pair, hit: string, now: int, ip: string)
    requires Simulates(p) && now >= p.clock
    ensures var q := Apply(p, Hit(hit, now)); SimulatesFor(q.hits, q.full, now, ip)
  {
    assert SimulatesFor(p.hits, p.full, p.clock, ip);
    if hit == ip {
      SameDecision(p, ip, now);
      if FullAccepts(p.full, ip, now) {
        AcceptedStaysSpread(Of(p.full, ip), p.clock, now);
      }
    } else {
      SweptKeeps(p.hits, p.full, p.clock, now, ip);
    }
  }

  lemma StepSimulates(p: Pair, step: Step)
    requires Simulates(p) && step.now >= p.clock
    ensures Simulates(Apply(p, step))
  {
    var q := Apply(p, step);
    forall ip ensures SimulatesFor(q.hits, q.full, q.clock, ip) {
      assert SimulatesFor(p.hits, p.full, p.clock, ip);
      if step.Hit? {
        HitSimulates(p, step.ip, step.now, ip);
      } else {
        PrunedKeeps(p.hits, p.full, p.clock, step.now, ip);
      }
    }
    if step.Hit? {
      SameDecision(p, step.ip, step.now);
    }
  }

  lemma {:induction false} RunSimulates(p: Pair, steps: seq<Step>)
    requires Simulates(p) && Timely(p, steps)
    ensures Simulates(Run(p, steps))
    decreases |steps|
  {
    if |steps| == 0 {
    } else {
      StepSimulates(p, steps[0]);
      RunSimulates(Apply(p, steps[0]), steps[1..]);
    }
  }

  // ---- theorems ----

  /** Forgetting old hits never changes a decision, whatever the mix of attempts and sweeps. */
  lemma PruningIsInvisible(p: Pair, steps: seq<Step>)
    requires Start(p) && Timely(p, steps)
    ensures Run(p, steps).decided == Run(p, steps).fullDecided
  {
    assert forall ip :: Of(p.hits, ip) == Of(p.full, ip) == [];
    RunSimulates(p, steps);
  }

  /** The accepted hits of one address that fall into the closed window from start on. */
  function InWindow(times: seq<int>, start: int): set<int> {
    set i | 0 <= i < |times| && start <= times[i] <= start + WINDOW
  }

  /** No closed window ever holds more than the limit of accepted hits of one address. */
  lemma NoWindowOverflows(p: Pair, steps: seq<Step>, ip: string, start: int)
    requires Start(p) && Timely(p, steps)
    ensures |InWindow(Of(Run(p, steps).full, ip), start)| <= LIMIT
  {
    assert forall ip :: Of(p.hits, ip) == Of(p.full, ip) == [];
    RunSimulates(p, steps);
    var g := Run(p, steps);
    assert SimulatesFor(g.hits, g.full, g.clock, ip);
    SpreadWindow(Of(g.full, ip), start);
  }

  lemma SpreadWindow(times: seq<int>, start: int)
    requires Spread(times)
    ensures |InWindow(times, start)| <= LIMIT
  {
    var inside := InWindow(times, start);
    if inside != {} {
      var first := FirstOf(times, start);
      RangeSize(first, LIMIT);
      SizeSubset(inside, Range(first, LIMIT));
    }
  }

  lemma FirstOf(times: seq<int>, start: int) returns (first: int)
    requires InWindow(times, start) != {}
    ensures first in InWindow(times, start) && forall i :: i in InWindow(times, start) ==> first <= i
  {
    first := 0;
    while !(start <= times[first] <= start + WINDOW)
      invariant 0 <= first < |times| && forall i :: i in InWindow(times, start) ==> first <= i
      decreases |times| - first
    {
      first := first + 1;
    }
  }

  function Range(from: int, n: nat): set<int> {
    if n == 0 then {} else Range(from, n - 1) + {from + n - 1}
  }

  lemma {:induction false} RangeSize(from: int, n: nat)
    ensures |Range(from, n)| == n && forall i :: i in Range(from, n) <==> from <= i < from + n
  {
    if n == 0 {
    } else {
      RangeSize(from, n - 1);
    }
  }
}
