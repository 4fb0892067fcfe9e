/** The audience a host is told and the generation it is stamped with (internal/hub/hub.go:
    audienceKey, audienceLocked). */
module AudienceGen {
  import opened Wire
  import opened Text
  import opened Viewing
  import opened Validation

  const NUL := 0 as char

  // ---- the key that decides whether a snapshot changed ----

  function Digits(n: nat): (s: string)
    ensures |s| > 0 && forall i :: 0 <= i < |s| ==> '0' <= s[i] <= '9'
  {
    var last := [('0' as int + n % 10) as char];
    if n < 10 then last else Digits(n / 10) + last
  }

  function Decimal(n: int): string { if n < 0 then "-" + Digits(-n) else Digits(n) }

  function BoolText(b: bool): string { if b then "true" else "false" }

  /** Every session, each ended by a NUL. */
  function Joined(sessions: seq<string>): string {
    if |sessions| == 0 then "" else sessions[0] + [NUL] + Joined(sessions[1..])
  }

  function KeyOf(a: Audience): string {
    Decimal(a.watchers) + "|" + (BoolText(a.all) + "|" + Joined(a.sessions))
  }

  predicate Plain(sessions: seq<string>) {
    forall i :: 0 <= i < |sessions| ==> NUL !in sessions[i]
  }

  predicate SameContents(a: Audience, b: Audience) {
    a.watchers == b.watchers && a.all == b.all && a.sessions == b.sessions
  }

  lemma CutAt(a: string, x: string, b: string, y: string, c: char)
    requires c !in a && c !in b && a + [c] + x == b + [c] + y
    ensures a == b && x == y
  {
    var s := a + [c] + x;
    assert s[|a|] == c && s[|b|] == c;
    assert forall i :: 0 <= i < |a| ==> s[i] == a[i];
    assert forall i :: 0 <= i < |b| ==> s[i] == b[i];
    assert |a| == |b|;
    assert a == s[..|a|] && b == s[..|b|];
    assert x == s[|a| + 1..] && y == s[|b| + 1..];
  }

  lemma {:induction false} DigitsInjective(m: nat, n: nat)
    requires Digits(m) == Digits(n)
    ensures m == n
  {
    var s, t := Digits(m), Digits(n);
    assert s[|s| - 1] == t[|t| - 1];
    if m >= 10 && n >= 10 {
      assert Digits(m / 10) == s[..|s| - 1] && Digits(n / 10) == t[..|t| - 1];
      DigitsInjective(m / 10, n / 10);
    }
  }

  lemma DecimalInjective(m: int, n: int)
    requires Decimal(m) == Decimal(n)
    ensures m == n
  {
    assert (Decimal(m)[0] == '-') == (m < 0) && (Decimal(n)[0] == '-') == (n < 0);
    if m < 0 && n < 0 {
      assert Decimal(m)[1..] == Digits(-m) && Decimal(n)[1..] == Digits(-n);
      DigitsInjective(-m, -n);
    } else if m >= 0 && n >= 0 {
      DigitsInjective(m, n);
    }
  }

  lemma {:induction false} JoinedInjective(s: seq<string>, t: seq<string>)
    requires Plain(s) && Plain(t) && Joined(s) == Joined(t)
    ensures s == t
  {
    if |s| > 0 && |t| > 0 {
      CutAt(s[0], Joined(s[1..]), t[0], Joined(t[1..]), NUL);
      JoinedInjective(s[1..], t[1..]);
      assert s == [s[0]] + s[1..] && t == [t[0]] + t[1..];
    }
  }

  /** Without NULs in session ids, equal keys mean equal contents: no change goes unnoticed. */
  lemma KeyIsFaithful(a: Audience, b: Audience)
    requires Plain(a.sessions) && Plain(b.sessions)
    ensures KeyOf(a) == KeyOf(b) <==> SameContents(a, b)
  {
    if KeyOf(a) == KeyOf(b) {
      CutAt(Decimal(a.watchers), BoolText(a.all) + "|" + Joined(a.sessions),
            Decimal(b.watchers), BoolText(b.all) + "|" + Joined(b.sessions), '|');
      DecimalInjective(a.watchers, b.watchers);
      CutAt(BoolText(a.all), Joined(a.sessions), BoolText(b.all), Joined(b.sessions), '|');
      assert BoolText(true)[0] != BoolText(false)[0];
      JoinedInjective(a.sessions, b.sessions);
    }
  }

  lemma JoinedOne(x: string)
    ensures Joined([x]) == x + [NUL]
  {
    assert Joined([x][1..]) == "";
  }

  lemma JoinedTwo(x: string, y: string)
    ensures Joined([x, y]) == x + [NUL] + (y + [NUL])
  {
    assert [x, y][1..] == [y];
    JoinedOne(y);
  }

  /** With a NUL inside an id, two different valid audiences can share a key. */
  lemma NulHidesChange(gen: nat) returns (a: Audience, b: Audience)
    requires gen > 0
    ensures KeyOf(a) == KeyOf(b) && !SameContents(a, b)
    ensures ValidateAudience(a).None? && ValidateAudience(b).None?
  {
    a := Audience(gen, 1, false, [['a', NUL, 'b']]);
    b := Audience(gen, 1, false, ["a", "b"]);
    JoinedOne(['a', NUL, 'b']);
    JoinedTwo("a", "b");
    assert Joined(a.sessions) == Joined(b.sessions);
    ValidateAudienceIsExact(a);
    ValidateAudienceIsExact(b);
  }

  /** s as a list of ids, one for each NUL-free piece. */
  function Cut(s: string): (ids: seq<string>)
    ensures Plain(ids) && |ids| > 0
  {
    if |s| == 0 then [""]
    else
      var rest := Cut(s[1..]);
      if s[0] == NUL then [""] + rest else [[s[0]] + rest[0]] + rest[1..]
  }

  function CutAll(sessions: seq<string>): (ids: seq<string>)
    ensures Plain(ids)
  {
    if |sessions| == 0 then sessions else Cut(sessions[0]) + CutAll(sessions[1..])
  }

  lemma {:induction false} JoinedAppend(s: seq<string>, t: seq<string>)
    ensures Joined(s + t) == Joined(s) + Joined(t)
  {
    if |s| == 0 {
      assert s + t == t;
    } else {
      assert (s + t)[1..] == s[1..] + t;
      JoinedAppend(s[1..], t);
    }
  }

  lemma {:induction false} CutJoins(s: string)
    ensures Joined(Cut(s)) == s + [NUL]
  {
    if |s| == 0 {
      JoinedOne(s);
    } else {
      var rest := Cut(s[1..]);
      CutJoins(s[1..]);
      assert s == [s[0]] + s[1..];
      if s[0] == NUL {
        assert ([""] + rest)[1..] == rest;
      } else {
        var ids := [[s[0]] + rest[0]] + rest[1..];
        assert ids[1..] == rest[1..];
        assert Joined(ids) == [s[0]] + Joined(rest);
      }
    }
  }

  lemma {:induction false} CutAllJoins(sessions: seq<string>)
    ensures Joined(CutAll(sessions)) == Joined(sessions)
  {
    if |sessions| == 0 {
    } else {
      CutJoins(sessions[0]);
      CutAllJoins(sessions[1..]);
      JoinedAppend(Cut(sessions[0]), CutAll(sessions[1..]));
    }
  }

  /** The key tells an audience from every NUL-free one exactly when its own ids have no NUL: one
      that has hides behind the audience that lists the pieces instead. */
  lemma KeyTellsApartExactlyWhen(a: Audience)
    ensures (forall b: Audience :: Plain(b.sessions) && KeyOf(a) == KeyOf(b) ==> SameContents(a, b))
      <==> Plain(a.sessions)
  {
    if Plain(a.sessions) {
      forall b: Audience | Plain(b.sessions) && KeyOf(a) == KeyOf(b) ensures SameContents(a, b) {
        KeyIsFaithful(a, b);
      }
    } else {
      var b := a.(sessions := CutAll(a.sessions));
      CutAllJoins(a.sessions);
      assert KeyOf(a) == KeyOf(b) && !SameContents(a, b);
    }
  }

  // ---- snapshots ----

  /** a says what the viewing set says, with its sessions in order. */
  ghost predicate Describes(a: Audience, viewers: seq<Viewer>, kids: seq<Kid>) {
    var set' := ViewingSet(viewers, kids);
    && a.watchers == Watchers(viewers)
    && a.all == (set'.Some? && set'.value.all)
    && StrictlySorted(a.sessions)
    && forall x :: x in a.sessions <==> set'.Some? && x in set'.value.sessions
  }

  /** Every snapshot of a stamped audience is one a receiver accepts. */
  lemma SnapshotIsValid(a: Audience, viewers: seq<Viewer>, kids: seq<Kid>)
    requires Describes(a, viewers, kids) && a.gen > 0
    ensures ValidateAudience(a).None?
  {
    ViewingSetCovers(viewers, kids);
    ValidateAudienceIsExact(a);
    assert forall i :: 0 <= i < |a.sessions| ==> a.sessions[i] in a.sessions;
    assert |a.sessions| > 0 ==> a.sessions[0] in a.sessions;
  }

  // ---- generations ----

  datatype Stamp = Stamp(gen: nat, key: string)

  function Stamped(s: Stamp, key: string): Stamp {
    if s.gen == 0 then Stamp(1, key)
    else if key != s.key then Stamp(s.gen + 1, key)
    else s
  }

  function StampOf(a: Audience): Stamp { Stamp(a.gen, KeyOf(a)) }

  /** Each stamp follows from the one before. */
  predicate Chain(s: Stamp, stamps: seq<Stamp>)
    decreases |stamps|
  {
    |stamps| == 0 || (stamps[0] == Stamped(s, stamps[0].key) && Chain(stamps[0], stamps[1..]))
  }

  function StampsOf(given: seq<Audience>): seq<Stamp> {
    seq(|given|, i requires 0 <= i < |given| => StampOf(given[i]))
  }

  /** The audiences one host is given, in the order they were stamped. */
  predicate Sequence(s: Stamp, given: seq<Audience>) { Chain(s, StampsOf(given)) }

  lemma {:induction false} LaterThan(s: Stamp, stamps: seq<Stamp>, j: nat)
    requires s.gen > 0 && Chain(s, stamps) && j < |stamps|
    ensures stamps[j].gen >= s.gen && (stamps[j].gen == s.gen ==> stamps[j] == s)
    decreases |stamps|
  {
    if j == 0 {
    } else {
      LaterThan(stamps[0], stamps[1..], j - 1);
    }
  }

  lemma {:induction false} EqualGenerationsEqualKeys(s: Stamp, stamps: seq<Stamp>, i: nat, j: nat)
    requires Chain(s, stamps) && i < j < |stamps|
    ensures 0 < stamps[i].gen <= stamps[j].gen && (stamps[i].gen == stamps[j].gen ==> stamps[i] == stamps[j])
    decreases |stamps|
  {
    if i > 0 {
      EqualGenerationsEqualKeys(stamps[0], stamps[1..], i - 1, j - 1);
    } else {
      LaterThan(stamps[0], stamps[1..], j - 1);
    }
  }

  /** Over any run a host's generation starts at 1 and never falls, and equal generations mean
      equal contents as long as no session id contains a NUL. */
  lemma GenerationsAreFaithful(s: Stamp, given: seq<Audience>, i: nat, j: nat)
    requires Sequence(s, given) && i < j < |given|
    requires Plain(given[i].sessions) && Plain(given[j].sessions)
    ensures s.gen == 0 ==> given[0].gen == 1
    ensures 0 < given[i].gen <= given[j].gen
    ensures given[i].gen == given[j].gen ==> SameContents(given[i], given[j])
  {
    EqualGenerationsEqualKeys(s, StampsOf(given), i, j);
    KeyIsFaithful(given[i], given[j]);
  }

  lemma {:induction false} NextStamp(s: Stamp, stamps: seq<Stamp>, i: nat)
    requires Chain(s, stamps) && i + 1 < |stamps|
    ensures stamps[i].gen > 0 && stamps[i + 1] == Stamped(stamps[i], stamps[i + 1].key)
    decreases |stamps|
  {
    if i > 0 {
      NextStamp(stamps[0], stamps[1..], i - 1);
    } else {
      assert stamps[1..][0] == stamps[1];
    }
  }

  /** A snapshot that repeats the contents of the one before keeps its generation, so the host
      can tell a duplicate; a snapshot that differs gets a new one. */
  lemma RepeatsKeepTheirGeneration(s: Stamp, given: seq<Audience>, i: nat)
    requires Sequence(s, given) && i + 1 < |given|
    requires Plain(given[i].sessions) && Plain(given[i + 1].sessions)
    ensures given[i + 1].gen == if SameContents(given[i], given[i + 1]) then given[i].gen else given[i].gen + 1
  {
    NextStamp(s, StampsOf(given), i);
    KeyIsFaithful(given[i], given[i + 1]);
  }

  class HostAudience {
    var audienceGen: nat
    var audienceKey: string

    function Now(): Stamp reads this { Stamp(audienceGen, audienceKey) }

    constructor ()
      ensures audienceGen == 0
    {
      audienceGen, audienceKey := 0, "";
    }

    method Key(a: Audience) returns (key: string)
      ensures key == KeyOf(a)
    {
      key := Decimal(a.watchers) + "|" + BoolText(a.all) + "|";
      ghost var head := key;
      for i := 0 to |a.sessions|
        invariant key + Joined(a.sessions[i..]) == head + Joined(a.sessions)
      {
        assert a.sessions[i..][1..] == a.sessions[i + 1..];
        key := key + a.sessions[i] + [NUL];
      }
      assert head + Joined(a.sessions) == KeyOf(a);
    }

    /** The sessions of a set, in whatever order the map yields them, then sorted. */
    method Listed(sessions: set<string>) returns (list: seq<string>)
      ensures StrictlySorted(list) && forall x :: x in list <==> x in sessions
    {
      list := [];
      var rest := sessions;
      while rest != {}
        invariant rest <= sessions && Distinct(list)
        invariant forall x :: x in list <==> x in sessions - rest
      {
        var sid :| sid in rest;
        rest := rest - {sid};
        assert forall i :: 0 <= i < |list| ==> list[i] in list;
        list := list + [sid];
      }
      SortIsStrict(list);
      forall x ensures x in SortStrings(list) <==> x in list {
        assert x in multiset(SortStrings(list)) <==> x in multiset(list);
      }
      list := SortStrings(list);
    }

    method Audience(viewers: seq<Viewer>, kids: seq<Kid>) returns (a: Audience, changed: bool)
      modifies this
      ensures Describes(a, viewers, kids)
      ensures Now() == StampOf(a) == Stamped(old(Now()), KeyOf(a))
      ensures changed <==> old(audienceGen) > 0 && audienceGen > old(audienceGen)
    {
      var watchers := 0;
      for i := 0 to |viewers|
        invariant watchers == Watchers(viewers[..i])
      {
        assert viewers[..i + 1][..i] == viewers[..i];
        if viewers[i].watches { watchers := watchers + 1; }
      }
      assert viewers[..|viewers|] == viewers;
      var all, sessions := false, [];
      var set' := ResolveViewingSet(viewers, kids);
      if set'.Some? {
        if set'.value.all {
          all := true;
        } else {
          sessions := Listed(set'.value.sessions);
        }
      }
      a := Wire.Audience(0, watchers, all, sessions);
      var key := Key(a);
      changed := false;
      if audienceGen == 0 {
        audienceGen, audienceKey := 1, key;
      } else if key != audienceKey {
        audienceGen, audienceKey := audienceGen + 1, key;
        changed := true;
      }
      a := a.(gen := audienceGen);
    }
  }
}
