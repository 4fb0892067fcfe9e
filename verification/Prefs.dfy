/** The browser preferences document (internal/hub/prefs.go and mergePrefsDoc in hub.go): one
    last-write-wins record per item, deletions kept as tombstones, and a projection of what is
    live. Clocks are epoch milliseconds. */
module Prefs {
  import opened Text

  const TOMBSTONE_HORIZON: int := 60 * 24 * 3600 * 1000
  const DAY: int := 86_400_000
  const LEGACY_SITE := "hub-legacy"

  datatype PrefsEntry = PrefsEntry(v: string, at: int, site: string, del: bool)

  type Entries = map<string, PrefsEntry>

  /** Go's zero record, which reading a missing key yields. */
  const ZERO := PrefsEntry("", 0, "", false)

  predicate Wins(a: PrefsEntry, b: PrefsEntry) {
    if a.at != b.at then a.at > b.at else Less(b.site, a.site)
  }

  function Merge(dst: Entries, src: Entries): Entries {
    map k | k in dst.Keys + src.Keys ::
      if k in src && (k !in dst || Wins(src[k], dst[k])) then src[k] else dst[k]
  }

  predicate Expired(e: PrefsEntry, now: int) { e.del && e.at < now - TOMBSTONE_HORIZON }

  function Prune(entries: Entries, now: int): Entries {
    map k | k in entries && !Expired(entries[k], now) :: entries[k]
  }

  function Sanitize(entries: Entries): Entries {
    map k | k in entries && k != "" && entries[k].site != "" :: entries[k]
  }

  /** The entries a write leaves behind. */
  function Written(current: Entries, incoming: Entries, now: int): Entries {
    Prune(Merge(current, Sanitize(incoming)), now)
  }

  // ---- the loops ----

  method MergeEntries(dst: Entries, src: Entries) returns (r: Entries)
    ensures r == Merge(dst, src)
  {
    r := dst;
    var rest := src.Keys;
    while rest != {}
      invariant rest <= src.Keys
      invariant r == Merge(dst, map k | k in src.Keys - rest :: src[k])
    {
      var k :| k in rest;
      rest := rest - {k};
      if k !in r || Wins(src[k], r[k]) {
        r := r[k := src[k]];
      }
    }
    assert (map k | k in src.Keys - rest :: src[k]) == src;
  }

  method PruneTombstones(entries: Entries, now: int) returns (r: Entries)
    ensures r == Prune(entries, now)
  {
    var cut := now - TOMBSTONE_HORIZON;
    r := entries;
    var rest := entries.Keys;
    while rest != {}
      invariant rest <= entries.Keys
      invariant r == map k | k in entries && (k in rest || !Expired(entries[k], now)) :: entries[k]
    {
      var k :| k in rest;
      rest := rest - {k};
      if entries[k].del && entries[k].at < cut {
        r := r - {k};
      }
    }
  }

  function Lookup(m: Entries, k: string): PrefsEntry { if k in m then m[k] else ZERO }

  predicate Same(a: Entries, b: Entries) {
    |a| == |b| && forall k :: k in a ==> Lookup(b, k) == a[k]
  }

  method SameEntries(a: Entries, b: Entries) returns (r: bool)
    ensures r == Same(a, b)
  {
    if |a| != |b| {
      return false;
    }
    var rest := a.Keys;
    while rest != {}
      invariant rest <= a.Keys
      invariant forall k :: k in a && k !in rest ==> Lookup(b, k) == a[k]
    {
      var k :| k in rest;
      rest := rest - {k};
      if Lookup(b, k) != a[k] {
        return false;
      }
    }
    return true;
  }

  // ---- the equality test ----

  /** The equality test is exact for sets of records that hold no zero record; the sanitizing of
      empty sites makes sure of that. */
  lemma SameIsExact(a: Entries, b: Entries)
    requires forall k :: k in a ==> a[k] != ZERO
    ensures Same(a, b) <==> a == b
  {
    if Same(a, b) {
      assert a.Keys <= b.Keys;
      assert b.Keys == a.Keys + (b.Keys - a.Keys);
      assert |b.Keys| == |a.Keys| + |b.Keys - a.Keys|;
      assert |b.Keys - a.Keys| == 0;
    }
  }

  lemma {:induction false} FreshKey(keys: set<string>, n: nat) returns (x: string)
    ensures |x| >= n && x !in keys
    decreases keys
  {
    x := seq(n, _ => 'x');
    if x in keys {
      x := FreshKey(keys - {x}, n + 1);
    }
  }

  /** And only for those: beside a set that holds a zero record, another passes as equal. */
  lemma SameMissesZero(a: Entries, k: string) returns (b: Entries)
    requires k in a && a[k] == ZERO
    ensures Same(a, b) && a != b
  {
    var other := FreshKey(a.Keys, 0);
    b := map x | x in a.Keys - {k} + {other} :: if x == other then ZERO else a[x];
    assert b.Keys == a.Keys - {k} + {other};
    assert |b.Keys| == |a.Keys|;
  }

  // ---- convergence ----

  /** The entries after a sequence of writes, the i-th made at clocks[i]. */
  function WrittenAll(start: Entries, writes: seq<Entries>, clocks: seq<int>): Entries
    requires |writes| == |clocks|
  {
    if |writes| == 0 then start
    else
      var n := |writes| - 1;
      Written(WrittenAll(start, writes[..n], clocks[..n]), writes[n], clocks[n])
  }

  /** A write says something of an item: under a key and from a site that have text. */
  predicate Says(incoming: Entries, k: string, e: PrefsEntry) {
    k != "" && k in incoming && incoming[k] == e && e.site != ""
  }

  /** Record e of key k is in the start or in one of the writes. */
  ghost predicate Offered(start: Entries, writes: seq<Entries>, k: string, e: PrefsEntry) {
    || (k in start && start[k] == e)
    || exists i :: 0 <= i < |writes| && Says(writes[i], k, e)
  }

  /** The record is no deletion of more than sixty days ago. */
  predicate Recent(e: PrefsEntry, now: int) { e.del ==> now - e.at <= 60 * DAY }

  /** At every one of these clocks no record offered is an old deletion. */
  ghost predicate Unexpired(start: Entries, writes: seq<Entries>, clocks: seq<int>) {
    forall k, e, i :: Offered(start, writes, k, e) && 0 <= i < |clocks| ==> Recent(e, clocks[i])
  }

  /** f was made before e, or in the same millisecond by a site that does not sort above. */
  predicate NoLater(f: PrefsEntry, e: PrefsEntry) { f.at < e.at || (f.at == e.at && !Less(e.site, f.site)) }

  lemma WinsIsOrder(a: PrefsEntry, b: PrefsEntry, c: PrefsEntry)
    ensures !Wins(a, a)
    ensures !(Wins(a, b) && Wins(b, a))
    ensures Wins(a, b) && !Wins(c, b) ==> Wins(a, c)
    ensures !Wins(a, b) && !Wins(b, a) <==> a.at == b.at && a.site == b.site
  {
    LessIrreflexive(a.site);
    LessTotal(a.site, b.site);
    LessTotal(b.site, c.site);
    if Less(a.site, b.site) && Less(b.site, a.site) { LessTransitive(a.site, b.site, a.site); }
    if Less(b.site, a.site) && Less(c.site, b.site) { LessTransitive(c.site, b.site, a.site); }
  }

  /** e is an offered record of key k and no offered record is later. */
  ghost predicate Newest(start: Entries, writes: seq<Entries>, k: string, e: PrefsEntry) {
    Offered(start, writes, k, e) && forall f :: Offered(start, writes, k, f) ==> NoLater(f, e)
  }

  /** The latest record of every item is what a history leaves, and no item is lost. */
  lemma {:induction false} WrittenIsNewest(start: Entries, writes: seq<Entries>, clocks: seq<int>, k: string)
    requires |writes| == |clocks| && Unexpired(start, writes, clocks)
    ensures var r := WrittenAll(start, writes, clocks);
            && (k in r ==> Newest(start, writes, k, r[k]))
            && (k !in r ==> forall e :: !Offered(start, writes, k, e))
  {
    if |writes| == 0 {
      if k in start { WinsIsOrder(start[k], start[k], start[k]); }
    } else {
      var n := |writes| - 1;
      OfferedLater(start, writes, n, k);
      forall j, e, i | Offered(start, writes[..n], j, e) && 0 <= i < n ensures Recent(e, clocks[..n][i]) {
        OfferedLater(start, writes, n, j);
        assert Offered(start, writes, j, e);
      }
      WrittenIsNewest(start, writes[..n], clocks[..n], k);
      NewestSurvivesWrite(start, writes, clocks, k);
    }
  }

  lemma OfferedLater(start: Entries, writes: seq<Entries>, n: nat, k: string)
    requires |writes| == n + 1
    ensures forall e :: Offered(start, writes, k, e) <==>
              Offered(start, writes[..n], k, e) || Says(writes[n], k, e)
  {
    forall e | Offered(start, writes, k, e)
      ensures Offered(start, writes[..n], k, e) || Says(writes[n], k, e)
    {
      if !(k in start && start[k] == e) {
        var i :| 0 <= i < |writes| && Says(writes[i], k, e);
        assert i < n ==> writes[..n][i] == writes[i];
      }
    }
    forall e | Offered(start, writes[..n], k, e) ensures Offered(start, writes, k, e) {
      if !(k in start && start[k] == e) {
        var i :| 0 <= i < n && Says(writes[..n][i], k, e);
        assert writes[..n][i] == writes[i];
      }
    }
  }

  lemma NewestSurvivesWrite(start: Entries, writes: seq<Entries>, clocks: seq<int>, k: string)
    requires |writes| == |clocks| > 0 && Unexpired(start, writes, clocks)
    requires var n := |writes| - 1;
             var past := WrittenAll(start, writes[..n], clocks[..n]);
             && (k in past ==> Newest(start, writes[..n], k, past[k]))
             && (k !in past ==> forall e :: !Offered(start, writes[..n], k, e))
    ensures var r := WrittenAll(start, writes, clocks);
            && (k in r ==> Newest(start, writes, k, r[k]))
            && (k !in r ==> forall e :: !Offered(start, writes, k, e))
  {
    var n := |writes| - 1;
    var past, added := WrittenAll(start, writes[..n], clocks[..n]), Sanitize(writes[n]);
    OfferedLater(start, writes, n, k);
    var m := Merge(past, added);
    if k in m {
      assert Offered(start, writes, k, m[k]);
      forall f | Offered(start, writes, k, f) ensures NoLater(f, m[k]) {
        if k in past { WinsIsOrder(m[k], past[k], f); WinsIsOrder(f, past[k], m[k]); }
        WinsIsOrder(f, m[k], m[k]);
      }
    }
  }

  /** (key, clock, site) settles the record. */
  ghost predicate Determined(start: Entries, writes: seq<Entries>) {
    forall k, e, f :: Offered(start, writes, k, e) && Offered(start, writes, k, f) ==>
      (e.at == f.at && e.site == f.site ==> e == f)
  }

  /** Convergence: two histories that offer the same records end with the same entries, in
      whatever order, batches and repetition the records came, as long as clock and site settle a
      record and no tombstone is past the horizon. */
  lemma WritesConverge(start: Entries, a: seq<Entries>, ta: seq<int>, b: seq<Entries>, tb: seq<int>)
    requires |a| == |ta| && |b| == |tb| && Unexpired(start, a, ta) && Unexpired(start, b, tb)
    requires Determined(start, a)
    requires forall k, e :: Offered(start, a, k, e) <==> Offered(start, b, k, e)
    ensures WrittenAll(start, a, ta) == WrittenAll(start, b, tb)
  {
    var ra, rb := WrittenAll(start, a, ta), WrittenAll(start, b, tb);
    forall k | k in ra || k in rb ensures k in ra && k in rb && ra[k] == rb[k] {
      WrittenIsNewest(start, a, ta, k);
      WrittenIsNewest(start, b, tb, k);
      if k in ra && k in rb {
        WinsIsOrder(ra[k], rb[k], ra[k]);
      }
    }
    assert ra.Keys == rb.Keys;
  }

  // ---- deletions ----

  /** One write brings a deleted item back exactly when it carries a live record of it with a
      later clock, or with the same clock and a site that sorts above. */
  lemma RevivedExactlyWhen(current: Entries, incoming: Entries, now: int, k: string)
    requires k in current && current[k].del
    ensures var r := Written(current, incoming, now);
            (k in r && !r[k].del) <==>
              k in incoming && Says(incoming, k, incoming[k]) && !incoming[k].del && !NoLater(incoming[k], current[k])
  {}

  /** However many writes that are no later follow, a deletion holds for sixty days. */
  lemma {:induction false} StaleWritesNeverRevive(start: Entries, writes: seq<Entries>, clocks: seq<int>, k: string)
    requires |writes| == |clocks| && k in start && start[k].del
    requires forall i :: 0 <= i < |clocks| ==> clocks[i] - start[k].at <= 60 * DAY
    requires forall i :: 0 <= i < |writes| && k in writes[i] ==> NoLater(writes[i][k], start[k])
    ensures var r := WrittenAll(start, writes, clocks); k in r && r[k] == start[k]
  {
    if |writes| == 0 {
    } else {
      var n := |writes| - 1;
      StaleWritesNeverRevive(start, writes[..n], clocks[..n], k);
    }
  }

  /** After sixty days the guarantee ends: every write forgets the older deletions, and once one is
      forgotten any write of a live record brings the item back, however old the record is. */
  lemma PrunedTombstoneRevives(start: Entries, incoming: Entries, now: int, later: int, k: string)
    requires k in start && start[k].del && now - start[k].at > 60 * DAY
    requires k in incoming && Says(incoming, k, incoming[k]) && !incoming[k].del
    ensures var r := Written(Written(start, map[], now), incoming, later); k in r && r[k] == incoming[k]
  {}

  /** No write leaves a deletion of more than sixty days ago, and none drops anything else. */
  lemma OnlyOldDeletionsGo(current: Entries, incoming: Entries, now: int, k: string)
    ensures var r := Written(current, incoming, now);
            && (k in r ==> Recent(r[k], now))
            && (k in current && Recent(current[k], now) && (k in incoming ==> Recent(incoming[k], now)) ==> k in r)
  {}

  /** An entry invented for a document older than entries loses a tie exactly to the sites that
      sort above its label: to most of them, but not to all. */
  lemma LegacyLosesTieExactlyWhen(client: PrefsEntry, legacy: PrefsEntry)
    requires legacy.site == LEGACY_SITE && client.at == legacy.at
    ensures Wins(client, legacy) <==> Less(LEGACY_SITE, client.site)
    ensures client.site == "browser" ==> Wins(legacy, client)
  {
    assert Less("browser", LEGACY_SITE);
    WinsIsOrder(client, legacy, client);
  }
}
