/** Who is looking at what on one host (internal/hub/hub.go: viewingSetLocked). */
module Viewing {
  import opened Wire
  import opened Sums

  const MAX_SESSION_ID_LEN := 128
  const MAX_SESSIONS := 64

  /** A browser: whether it receives this host's events, whether it has said what it shows, and
      the session it shows. */
  datatype Viewer = Viewer(watches: bool, declared: bool, session: string)

  /** A subagent session of this host and the session it belongs to. */
  datatype Kid = Kid(session: string, parent: string)

  datatype View = View(all: bool, sessions: set<string>)

  function Add(v: View, sid: string): View {
    if sid == "" then v
    else if |sid| > MAX_SESSION_ID_LEN then v.(all := true)
    else if sid in v.sessions then v
    else if |v.sessions| >= MAX_SESSIONS then v.(all := true)
    else v.(sessions := v.sessions + {sid})
  }

  function AddViewer(v: View, s: Viewer): View {
    if !s.watches then v
    else if !s.declared then v.(all := true)
    else Add(v, s.session)
  }

  function Declared(viewers: seq<Viewer>): View {
    if |viewers| == 0 then View(false, {})
    else AddViewer(Declared(viewers[..|viewers| - 1]), viewers[|viewers| - 1])
  }

  function Watchers(viewers: seq<Viewer>): nat {
    if |viewers| == 0 then 0
    else Watchers(viewers[..|viewers| - 1]) + if viewers[|viewers| - 1].watches then 1 else 0
  }

  /** Follows the kids in the order the map happens to yield them, until the set is widened. */
  function Follow(v: View, kids: seq<Kid>): View
    decreases |kids|
  {
    if |kids| == 0 || v.all then v
    else Follow(if kids[0].parent in v.sessions then Add(v, kids[0].session) else v, kids[1..])
  }

  function ViewingSet(viewers: seq<Viewer>, kids: seq<Kid>): Option<View> {
    if Watchers(viewers) == 0 then None
    else
      var v := Follow(Declared(viewers), kids);
      Some(if v.all then View(true, {}) else v)
  }

  method AddTo(v: View, sid: string) returns (r: View)
    ensures r == Add(v, sid)
  {
    r := v;
    if sid == "" {
      return;
    }
    if |sid| > MAX_SESSION_ID_LEN {
      r := r.(all := true);
      return;
    }
    if sid in r.sessions {
      return;
    }
    if |r.sessions| >= MAX_SESSIONS {
      r := r.(all := true);
      return;
    }
    r := r.(sessions := r.sessions + {sid});
  }

  method ResolveViewingSet(viewers: seq<Viewer>, kids: seq<Kid>) returns (set': Option<View>)
    ensures set' == ViewingSet(viewers, kids)
  {
    var watchers, v := 0, View(false, {});
    for i := 0 to |viewers|
      invariant watchers == Watchers(viewers[..i]) && v == Declared(viewers[..i])
    {
      assert viewers[..i + 1][..i] == viewers[..i];
      var s := viewers[i];
      if !s.watches {
        continue;
      }
      watchers := watchers + 1;
      if !s.declared {
        v := v.(all := true);
        continue;
      }
      v := AddTo(v, s.session);
    }
    assert viewers[..|viewers|] == viewers;
    if watchers == 0 {
      return None;
    }
    if v.all {
      return Some(View(true, {}));
    }
    var i := 0;
    assert kids[0..] == kids;
    while i < |kids| && !v.all
      invariant i <= |kids|
      invariant Follow(v, kids[i..]) == Follow(Declared(viewers), kids)
    {
      assert kids[i..][1..] == kids[i + 1..];
      if kids[i].parent in v.sessions {
        v := AddTo(v, kids[i].session);
      }
      i := i + 1;
    }
    if v.all {
      return Some(View(true, {}));
    }
    return Some(View(false, v.sessions));
  }

  // ---- what the set contains ----

  predicate Fits(s: set<string>) {
    |s| <= MAX_SESSIONS && forall x :: x in s ==> x != "" && |x| <= MAX_SESSION_ID_LEN
  }

  /** The sessions the browsers watching the host have declared. */
  function Shown(viewers: seq<Viewer>): set<string> {
    set i | 0 <= i < |viewers| && viewers[i].watches && viewers[i].declared && viewers[i].session != "" ::
      viewers[i].session
  }

  function KidsOf(parents: set<string>, kids: seq<Kid>): set<string> {
    set i | 0 <= i < |kids| && kids[i].parent in parents && kids[i].session != "" :: kids[i].session
  }

  predicate AllDeclared(viewers: seq<Viewer>) {
    forall i :: 0 <= i < |viewers| && viewers[i].watches ==> viewers[i].declared
  }

  lemma KidsOfFirst(parents: set<string>, kids: seq<Kid>)
    requires |kids| > 0
    ensures KidsOf(parents, kids) == KidsOf(parents, kids[1..]) +
              if kids[0].parent in parents && kids[0].session != "" then {kids[0].session} else {}
  {
    forall x | x in KidsOf(parents, kids) && x != kids[0].session ensures x in KidsOf(parents, kids[1..]) {
      var i :| 0 <= i < |kids| && kids[i].parent in parents && kids[i].session == x && x != "";
      assert kids[1..][i - 1] == kids[i];
    }
    forall x | x in KidsOf(parents, kids[1..]) ensures x in KidsOf(parents, kids) {
      var i :| 0 <= i < |kids| - 1 && kids[1..][i].parent in parents && kids[1..][i].session == x && x != "";
      assert kids[i + 1] == kids[1..][i];
    }
  }

  lemma KidsOfGrows(parents: set<string>, more: set<string>, kids: seq<Kid>)
    requires parents <= more
    ensures KidsOf(parents, kids) <= KidsOf(more, kids)
  {}

  /** The declared set is widened exactly when a watching browser has not declared or what they show
      does not fit the caps; otherwise it is what they show. */
  lemma {:induction false} DeclaredIsShown(viewers: seq<Viewer>)
    ensures var v := Declared(viewers);
            && Fits(v.sessions) && (!v.all ==> v.sessions == Shown(viewers))
            && (v.all <==> !AllDeclared(viewers) || !Fits(Shown(viewers)))
  {
    if |viewers| > 0 {
      var n := |viewers| - 1;
      DeclaredIsShown(viewers[..n]);
      ShownLast(viewers);
      AllDeclaredLast(viewers);
      FitsLast(Shown(viewers[..n]), Shown(viewers));
    }
  }

  lemma AllDeclaredLast(viewers: seq<Viewer>)
    requires |viewers| > 0
    ensures var n := |viewers| - 1;
            AllDeclared(viewers) <==> AllDeclared(viewers[..n]) && (viewers[n].watches ==> viewers[n].declared)
  {
    var n := |viewers| - 1;
    assert forall i :: 0 <= i < n ==> viewers[..n][i] == viewers[i];
  }

  lemma FitsLast(less: set<string>, more: set<string>)
    requires less <= more
    ensures Fits(more) ==> Fits(less)
  {
    SizeSubset(less, more);
  }

  lemma ShownLast(viewers: seq<Viewer>)
    requires |viewers| > 0
    ensures var n := |viewers| - 1;
            var last := viewers[n];
            Shown(viewers) == Shown(viewers[..n]) +
              if last.watches && last.declared && last.session != "" then {last.session} else {}
  {
    var n := |viewers| - 1;
    forall x | x in Shown(viewers[..n]) ensures x in Shown(viewers) {
      var i :| 0 <= i < n && viewers[..n][i].watches && viewers[..n][i].declared
               && viewers[..n][i].session == x && x != "";
      assert viewers[i] == viewers[..n][i];
    }
    forall x | x in Shown(viewers) && x != viewers[n].session ensures x in Shown(viewers[..n]) {
      var i :| 0 <= i < |viewers| && viewers[i].watches && viewers[i].declared && viewers[i].session == x && x != "";
      assert viewers[..n][i] == viewers[i];
    }
  }

  /** Following never drops a session, and adds every direct child unless it widens the set. */
  lemma {:induction false} FollowReaches(v: View, kids: seq<Kid>)
    requires Fits(v.sessions) && !v.all
    ensures var r := Follow(v, kids);
            Fits(r.sessions) && v.sessions <= r.sessions && (!r.all ==> KidsOf(v.sessions, kids) <= r.sessions)
    decreases |kids|
  {
    if |kids| == 0 {
    } else {
      var next := if kids[0].parent in v.sessions then Add(v, kids[0].session) else v;
      if !next.all {
        FollowReaches(next, kids[1..]);
        KidsOfFirst(v.sessions, kids);
        KidsOfGrows(v.sessions, next.sessions, kids[1..]);
      }
    }
  }

  /** Nothing outside a set closed under the kids is ever added, and nothing widens if it fits. */
  lemma {:induction false} FollowStaysInside(v: View, kids: seq<Kid>, closed: set<string>)
    requires !v.all && v.sessions <= closed && Fits(closed) && KidsOf(closed, kids) <= closed
    ensures !Follow(v, kids).all && Follow(v, kids).sessions <= closed
    decreases |kids|
  {
    if |kids| == 0 {
    } else {
      var sid := kids[0].session;
      var next := if kids[0].parent in v.sessions then Add(v, sid) else v;
      KidsOfFirst(closed, kids);
      if kids[0].parent in v.sessions && sid != "" {
        SizeSubset(v.sessions + {sid}, closed);
      }
      FollowStaysInside(next, kids[1..], closed);
    }
  }

  /** What the host is told covers what the browsers show: unless widened to everything, the set
      holds every declared session and each one's direct children, is within the cap, and no
      watching browser is left undeclared. */
  lemma ViewingSetCovers(viewers: seq<Viewer>, kids: seq<Kid>)
    ensures var r := ViewingSet(viewers, kids);
            && (r.None? <==> forall i :: 0 <= i < |viewers| ==> !viewers[i].watches)
            && (r.Some? && r.value.all ==> r.value.sessions == {})
            && (r.Some? && !r.value.all ==>
                  && Fits(r.value.sessions)
                  && Shown(viewers) <= r.value.sessions && KidsOf(Shown(viewers), kids) <= r.value.sessions
                  && AllDeclared(viewers))
  {
    DeclaredIsShown(viewers);
    if !Declared(viewers).all {
      FollowReaches(Declared(viewers), kids);
    }
    NoWatchers(viewers);
  }

  /** The number of watchers is that of the browsers that watch. */
  lemma {:induction false} WatchersAreCounted(viewers: seq<Viewer>)
    ensures Watchers(viewers) == |WatcherPlaces(viewers)|
  {
    if |viewers| > 0 {
      var n := |viewers| - 1;
      WatchersAreCounted(viewers[..n]);
      assert WatcherPlaces(viewers) == WatcherPlaces(viewers[..n]) + if viewers[n].watches then {n} else {};
    }
  }

  function WatcherPlaces(viewers: seq<Viewer>): set<nat> {
    set i: nat | i < |viewers| && viewers[i].watches
  }

  lemma {:induction false} NoWatchers(viewers: seq<Viewer>)
    ensures Watchers(viewers) == 0 <==> forall i :: 0 <= i < |viewers| ==> !viewers[i].watches
  {
    if |viewers| == 0 {
    } else {
      NoWatchers(viewers[..|viewers| - 1]);
    }
  }

  // ---- the order of the map ----

  /** The declared sessions and their direct children. */
  function Direct(viewers: seq<Viewer>, kids: seq<Kid>): set<string> {
    Shown(viewers) + KidsOf(Shown(viewers), kids)
  }

  predicate Shuffled(a: seq<Kid>, b: seq<Kid>) { multiset(a) == multiset(b) }

  lemma KidsOfShuffled(parents: set<string>, a: seq<Kid>, b: seq<Kid>)
    requires Shuffled(a, b)
    ensures KidsOf(parents, a) <= KidsOf(parents, b)
  {
    forall x | x in KidsOf(parents, a) ensures x in KidsOf(parents, b) {
      var i :| 0 <= i < |a| && a[i].parent in parents && a[i].session == x && x != "";
      assert a[i] in multiset(b);
      var j :| 0 <= j < |b| && b[j] == a[i];
    }
  }

  /** Where no direct child has children of its own outside the set, the answer does not depend
      on the order of the map: it is the declared sessions and their direct children, or
      everything if those do not fit. */
  lemma ClosedSetIsExact(viewers: seq<Viewer>, kids: seq<Kid>)
    requires !Declared(viewers).all && KidsOf(Direct(viewers, kids), kids) <= Direct(viewers, kids)
    ensures var v := Follow(Declared(viewers), kids);
            if Fits(Direct(viewers, kids)) then !v.all && v.sessions == Direct(viewers, kids) else v.all
  {
    DeclaredIsShown(viewers);
    FollowReaches(Declared(viewers), kids);
    var v := Follow(Declared(viewers), kids);
    if Fits(Direct(viewers, kids)) {
      FollowStaysInside(Declared(viewers), kids, Direct(viewers, kids));
    } else if !v.all {
      SizeSubset(Direct(viewers, kids), v.sessions);
    }
  }

  /** If the direct children do not fit, every order widens. */
  lemma OversizeWidens(viewers: seq<Viewer>, kids: seq<Kid>)
    requires !Declared(viewers).all && !Fits(Direct(viewers, kids))
    ensures Follow(Declared(viewers), kids).all
  {
    DeclaredIsShown(viewers);
    FollowReaches(Declared(viewers), kids);
    var v := Follow(Declared(viewers), kids);
    if !v.all {
      SizeSubset(Direct(viewers, kids), v.sessions);
    }
  }

  function Having(kids: seq<Kid>, parents: set<string>, inside: bool): (r: seq<Kid>)
    ensures forall k :: k in r <==> k in kids && (k.parent in parents) == inside
  {
    if |kids| == 0 then kids
    else if (kids[0].parent in parents) == inside then [kids[0]] + Having(kids[1..], parents, inside)
    else Having(kids[1..], parents, inside)
  }

  lemma {:induction false} HavingSplits(kids: seq<Kid>, parents: set<string>)
    ensures multiset(kids) == multiset(Having(kids, parents, true)) + multiset(Having(kids, parents, false))
  {
    if |kids| == 0 {
    } else {
      HavingSplits(kids[1..], parents);
      assert kids == [kids[0]] + kids[1..];
    }
  }

  lemma {:induction false} FollowAppend(v: View, a: seq<Kid>, b: seq<Kid>)
    ensures Follow(v, a + b) == Follow(Follow(v, a), b)
    decreases |a|
  {
    if |a| == 0 {
      assert a + b == b;
    } else if !v.all {
      assert (a + b)[1..] == a[1..] + b;
      FollowAppend(if a[0].parent in v.sessions then Add(v, a[0].session) else v, a[1..], b);
    }
  }

  lemma {:induction false} NoneFollowed(v: View, kids: seq<Kid>)
    requires forall k :: k in kids ==> k.parent !in v.sessions
    ensures Follow(v, kids) == v
  {
    if |kids| == 0 {
    } else {
      assert kids[0] in kids && forall k :: k in kids[1..] ==> k in kids;
      NoneFollowed(v, kids[1..]);
    }
  }

  /** Every kid before its parent was added, or after: the two extremes the map may choose. */
  lemma LateKidsAreMissed(viewers: seq<Viewer>, kids: seq<Kid>)
    requires !Declared(viewers).all && Fits(Direct(viewers, kids))
    ensures var d := Shown(viewers);
            var v := Follow(Declared(viewers), Having(kids, d, false) + Having(kids, d, true));
            !v.all && v.sessions == Direct(viewers, kids)
  {
    var d := Shown(viewers);
    var others, direct := Having(kids, d, false), Having(kids, d, true);
    DeclaredIsShown(viewers);
    FollowAppend(Declared(viewers), others, direct);
    NoneFollowed(Declared(viewers), others);
    FollowReaches(Declared(viewers), direct);
    DirectOfHaving(kids, d);
    KidsOfGrows(d, Direct(viewers, kids), direct);
    KidsOfOnly(direct, d, Direct(viewers, kids));
    FollowStaysInside(Declared(viewers), direct, Direct(viewers, kids));
  }

  lemma DirectOfHaving(kids: seq<Kid>, d: set<string>)
    ensures KidsOf(d, Having(kids, d, true)) == KidsOf(d, kids)
  {
    forall x ensures x in KidsOf(d, Having(kids, d, true)) <==> x in KidsOf(d, kids) {
      if x in KidsOf(d, kids) {
        var i :| 0 <= i < |kids| && kids[i].parent in d && kids[i].session == x && x != "";
        assert kids[i] in Having(kids, d, true);
      }
      if x in KidsOf(d, Having(kids, d, true)) {
        var h := Having(kids, d, true);
        var i :| 0 <= i < |h| && h[i].parent in d && h[i].session == x && x != "";
        assert h[i] in kids;
      }
    }
  }

  lemma KidsOfOnly(direct: seq<Kid>, d: set<string>, more: set<string>)
    requires forall k :: k in direct ==> k.parent in d
    ensures KidsOf(more, direct) <= KidsOf(d, direct)
  {
    forall x | x in KidsOf(more, direct) ensures x in KidsOf(d, direct) {
      var i :| 0 <= i < |direct| && direct[i].parent in more && direct[i].session == x && x != "";
      assert direct[i] in direct;
    }
  }

  /** The other extreme takes a grandchild in, or widens. */
  lemma EarlyParentsAreFollowed(viewers: seq<Viewer>, kids: seq<Kid>)
    requires !Declared(viewers).all
    ensures var d := Shown(viewers);
            var v := Follow(Declared(viewers), Having(kids, d, true) + Having(kids, d, false));
            v.all || KidsOf(Direct(viewers, kids), kids) <= v.sessions
  {
    var d := Shown(viewers);
    var direct, others := Having(kids, d, true), Having(kids, d, false);
    DeclaredIsShown(viewers);
    FollowAppend(Declared(viewers), direct, others);
    FollowReaches(Declared(viewers), direct);
    DirectOfHaving(kids, d);
    var mid := Follow(Declared(viewers), direct);
    if !mid.all {
      FollowReaches(mid, others);
      forall x | x in KidsOf(Direct(viewers, kids), kids) && x !in mid.sessions
        ensures x in KidsOf(mid.sessions, others) {
        var i :| 0 <= i < |kids| && kids[i].parent in Direct(viewers, kids) && kids[i].session == x && x != "";
        assert x !in KidsOf(d, kids);
        assert kids[i] in others;
      }
    }
  }

  lemma OrderIsHarmless(viewers: seq<Viewer>, kids: seq<Kid>, other: seq<Kid>)
    requires !Declared(viewers).all && Shuffled(other, kids)
    requires KidsOf(Direct(viewers, kids), kids) <= Direct(viewers, kids) || !Fits(Direct(viewers, kids))
    ensures ViewingSet(viewers, other) == ViewingSet(viewers, kids)
  {
    SameDirect(viewers, other, kids);
    if !Fits(Direct(viewers, kids)) {
      OversizeWidens(viewers, other);
      OversizeWidens(viewers, kids);
    } else {
      ClosedSetIsExact(viewers, other);
      ClosedSetIsExact(viewers, kids);
    }
  }

  lemma OrderMatters(viewers: seq<Viewer>, kids: seq<Kid>) returns (late: seq<Kid>, early: seq<Kid>)
    requires Watchers(viewers) > 0 && !Declared(viewers).all
    requires !(KidsOf(Direct(viewers, kids), kids) <= Direct(viewers, kids)) && Fits(Direct(viewers, kids))
    ensures Shuffled(late, kids) && Shuffled(early, kids)
    ensures ViewingSet(viewers, late) != ViewingSet(viewers, early)
  {
    var d := Shown(viewers);
    LateKidsAreMissed(viewers, kids);
    EarlyParentsAreFollowed(viewers, kids);
    HavingSplits(kids, d);
    late := Having(kids, d, false) + Having(kids, d, true);
    early := Having(kids, d, true) + Having(kids, d, false);
  }

  /** The answer is the same in every order of the map exactly when no direct child has a child
      of its own outside the set, or the direct children alone are too many for every order. */
  lemma OrderIndependentExactlyWhen(viewers: seq<Viewer>, kids: seq<Kid>)
    requires Watchers(viewers) > 0 && !Declared(viewers).all
    ensures (forall other :: Shuffled(other, kids) ==> ViewingSet(viewers, other) == ViewingSet(viewers, kids))
      <==> KidsOf(Direct(viewers, kids), kids) <= Direct(viewers, kids) || !Fits(Direct(viewers, kids))
  {
    if KidsOf(Direct(viewers, kids), kids) <= Direct(viewers, kids) || !Fits(Direct(viewers, kids)) {
      forall other | Shuffled(other, kids) ensures ViewingSet(viewers, other) == ViewingSet(viewers, kids) {
        OrderIsHarmless(viewers, kids, other);
      }
    } else {
      var late, early := OrderMatters(viewers, kids);
    }
  }

  lemma SameDirect(viewers: seq<Viewer>, a: seq<Kid>, b: seq<Kid>)
    requires Shuffled(a, b)
    ensures Direct(viewers, a) == Direct(viewers, b)
    ensures KidsOf(Direct(viewers, a), a) == KidsOf(Direct(viewers, a), b)
  {
    KidsOfShuffled(Shown(viewers), a, b);
    KidsOfShuffled(Shown(viewers), b, a);
    KidsOfShuffled(Direct(viewers, a), a, b);
    KidsOfShuffled(Direct(viewers, a), b, a);
  }
}
