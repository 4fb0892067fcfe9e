/** The preferences document as browsers see it (internal/hub/prefs.go: projectPrefsEntries,
    entriesFromSnapshot; internal/hub/hub.go: mergePrefsDoc, SetPrefs). */
module PrefsDoc {
  import opened Text
  import opened Prefs
  import opened Wire

  const WORKSPACE := "ws:"
  const SESSION := "se:"
  const TODO := "todo:"
  const FE := "fe:"

  /** The snapshot fields a browser renders. */
  datatype View = View(workspaces: seq<string>, sessions: seq<string>, todos: map<string, string>,
                       fe: map<string, bool>)

  predicate Live(entries: Entries, k: string) { k in entries && !entries[k].del }

  predicate HasPrefix(k: string, prefix: string) { |k| >= |prefix| && k[..|prefix|] == prefix }

  /** A key of one family, with something after the prefix. */
  predicate Tagged(k: string, prefix: string) { |k| > |prefix| && HasPrefix(k, prefix) }

  // ---- projection ----

  /** The names are exactly those of the family's live keys, in order and once each. */
  ghost predicate Lists(names: seq<string>, prefix: string, entries: Entries) {
    StrictlySorted(names) && forall x :: x in names <==> x != "" && Live(entries, prefix + x)
  }

  ghost predicate Maps<T>(m: map<string, T>, prefix: string, entries: Entries, read: string -> T) {
    && (forall x :: x in m <==> x != "" && Live(entries, prefix + x))
    && (forall x :: x in m ==> m[x] == read(entries[prefix + x].v))
  }

  /** v shows exactly what is live. */
  ghost predicate Shows(v: View, entries: Entries) {
    && Lists(v.workspaces, WORKSPACE, entries)
    && Lists(v.sessions, SESSION, entries)
    && Maps(v.todos, TODO, entries, v => v)
    && Maps(v.fe, FE, entries, v => v == "true")
  }

  /** Only one view shows a given set of entries. */
  lemma ViewIsUnique(v: View, w: View, entries: Entries)
    requires Shows(v, entries) && Shows(w, entries)
    ensures v == w
  {
    StrictlySortedIsUnique(v.workspaces, w.workspaces);
    StrictlySortedIsUnique(v.sessions, w.sessions);
    assert v.todos.Keys == w.todos.Keys && v.fe.Keys == w.fe.Keys;
  }

  /** The part of the entries whose keys the projection loop has visited. */
  function Part(entries: Entries, rest: set<string>): Entries { map k | k in entries && k !in rest :: entries[k] }

  ghost predicate Collected(names: seq<string>, prefix: string, entries: Entries) {
    Distinct(names) && forall x :: x in names <==> x != "" && Live(entries, prefix + x)
  }

  lemma Untag(k: string, prefix: string)
    requires Tagged(k, prefix)
    ensures k[|prefix|..] != "" && prefix + k[|prefix|..] == k
    ensures forall x {:trigger prefix + x} :: prefix + x == k ==> x == k[|prefix|..]
  {
    forall x | prefix + x == k ensures x == k[|prefix|..] {
      assert (prefix + x)[|prefix|..] == x;
    }
  }

  lemma UntaggedKey(k: string, prefix: string)
    requires !Tagged(k, prefix)
    ensures forall x {:trigger prefix + x} :: x != "" ==> prefix + x != k
  {
    forall x | x != "" ensures prefix + x != k {
      assert (prefix + x)[..|prefix|] == prefix;
    }
  }

  /** One more key: it adds its name to its own family and nothing to the others. */
  lemma CollectOne(names: seq<string>, prefix: string, before: Entries, after: Entries, k: string)
    requires Collected(names, prefix, before) && k !in before
    requires forall j :: j in after <==> j in before || j == k
    requires forall j :: j in before ==> after[j] == before[j]
    ensures Collected(if Tagged(k, prefix) && !after[k].del then names + [k[|prefix|..]] else names, prefix, after)
  {
    if Tagged(k, prefix) {
      Untag(k, prefix);
    } else {
      UntaggedKey(k, prefix);
    }
  }

  lemma MapOne<T>(m: map<string, T>, prefix: string, before: Entries, after: Entries, k: string, read: string -> T)
    requires Maps(m, prefix, before, read) && k !in before
    requires forall j :: j in after <==> j in before || j == k
    requires forall j :: j in before ==> after[j] == before[j]
    ensures Maps(if Tagged(k, prefix) && !after[k].del then m[k[|prefix|..] := read(after[k].v)] else m,
                 prefix, after, read)
  {
    if Tagged(k, prefix) {
      Untag(k, prefix);
    } else {
      UntaggedKey(k, prefix);
    }
  }

  /** v gathers, unsorted, what is live. */
  ghost predicate Gathers(v: View, entries: Entries) {
    && Collected(v.workspaces, WORKSPACE, entries)
    && Collected(v.sessions, SESSION, entries)
    && Maps(v.todos, TODO, entries, v => v)
    && Maps(v.fe, FE, entries, v => v == "true")
  }

  function Gather(v: View, k: string, e: PrefsEntry): View {
    if e.del then v
    else if Tagged(k, WORKSPACE) then v.(workspaces := v.workspaces + [k[|WORKSPACE|..]])
    else if Tagged(k, SESSION) then v.(sessions := v.sessions + [k[|SESSION|..]])
    else if Tagged(k, TODO) then v.(todos := v.todos[k[|TODO|..] := e.v])
    else if Tagged(k, FE) then v.(fe := v.fe[k[|FE|..] := e.v == "true"])
    else v
  }

  lemma GatherOne(v: View, before: Entries, after: Entries, k: string)
    requires Gathers(v, before) && k !in before
    requires forall j :: j in after <==> j in before || j == k
    requires forall j :: j in before ==> after[j] == before[j]
    ensures Gathers(Gather(v, k, after[k]), after)
  {
    PrefixesDiffer(k);
    CollectOne(v.workspaces, WORKSPACE, before, after, k);
    CollectOne(v.sessions, SESSION, before, after, k);
    MapOne(v.todos, TODO, before, after, k, v => v);
    MapOne(v.fe, FE, before, after, k, v => v == "true");
  }

  method Project(entries: Entries) returns (v: View)
    ensures Shows(v, entries)
  {
    var workspaces, sessions, todos, fe := [], [], map[], map[];
    var rest := entries.Keys;
    while rest != {}
      invariant rest <= entries.Keys
      invariant Gathers(View(workspaces, sessions, todos, fe), Part(entries, rest))
    {
      var k :| k in rest;
      GatherOne(View(workspaces, sessions, todos, fe), Part(entries, rest), Part(entries, rest - {k}), k);
      rest := rest - {k};
      if entries[k].del {
        continue;
      }
      if Tagged(k, WORKSPACE) {
        workspaces := workspaces + [k[|WORKSPACE|..]];
      } else if Tagged(k, SESSION) {
        sessions := sessions + [k[|SESSION|..]];
      } else if Tagged(k, TODO) {
        todos := todos[k[|TODO|..] := entries[k].v];
      } else if Tagged(k, FE) {
        fe := fe[k[|FE|..] := entries[k].v == "true"];
      }
    }
    assert Part(entries, rest) == entries;
    v := View(SortStrings(workspaces), SortStrings(sessions), todos, fe);
    SortLists(workspaces, WORKSPACE, entries);
    SortLists(sessions, SESSION, entries);
  }

  lemma SortLists(names: seq<string>, prefix: string, entries: Entries)
    requires Collected(names, prefix, entries)
    ensures Lists(SortStrings(names), prefix, entries)
  {
    SortIsStrict(names);
    forall x ensures x in SortStrings(names) <==> x in names {
      assert x in multiset(SortStrings(names)) <==> x in multiset(names);
    }
  }

  // ---- documents older than entries ----

  datatype FeValue = Bool(value: bool) | Other

  datatype Snapshot = Snapshot(workspaces: seq<string>, sessions: seq<string>, todos: map<string, string>,
                               fe: map<string, FeValue>)

  function BoolEntryValue(b: bool): string { if b then "true" else "false" }

  function Legacy(v: string, at: int): PrefsEntry { PrefsEntry(v, at, LEGACY_SITE, false) }

  function Pins(names: seq<string>): map<string, string> { map x | x in names :: "1" }

  function Flags(fe: map<string, FeValue>): map<string, string> {
    map x | x in fe && fe[x].Bool? :: BoolEntryValue(fe[x].value)
  }

  /** k is one of the names in values, prefixed. */
  predicate Names(k: string, prefix: string, values: map<string, string>) {
    HasPrefix(k, prefix) && k[|prefix|..] in values
  }

  /** out is start with a record of each of the values, under its prefixed name, and no more. */
  ghost predicate Stamped(out: Entries, start: Entries, prefix: string, values: map<string, string>, at: int) {
    forall k :: (k in out <==> k in start || Names(k, prefix, values))
      && (k in out ==> out[k] == if Names(k, prefix, values) then Legacy(values[k[|prefix|..]], at) else start[k])
  }

  lemma StampOne(out: Entries, start: Entries, prefix: string, values: map<string, string>, at: int, x: string,
                 v: string)
    requires Stamped(out, start, prefix, values, at)
    ensures Stamped(out[prefix + x := Legacy(v, at)], start, prefix, values[x := v], at)
  {
    var key := prefix + x;
    assert key[..|prefix|] == prefix && key[|prefix|..] == x;
    forall k | HasPrefix(k, prefix) ensures k[|prefix|..] == x <==> k == key {
      assert k == k[..|prefix|] + k[|prefix|..];
    }
  }

  method StampPins(start: Entries, prefix: string, names: seq<string>, at: int) returns (out: Entries)
    ensures Stamped(out, start, prefix, Pins(names), at)
  {
    out := start;
    for i := 0 to |names|
      invariant Stamped(out, start, prefix, Pins(names[..i]), at)
    {
      StampOne(out, start, prefix, Pins(names[..i]), at, names[i], "1");
      assert Pins(names[..i + 1]) == Pins(names[..i])[names[i] := "1"];
      out := out[prefix + names[i] := Legacy("1", at)];
    }
    assert names[..|names|] == names;
  }

  method StampTodos(start: Entries, todos: map<string, string>, at: int) returns (out: Entries)
    ensures Stamped(out, start, TODO, todos, at)
  {
    out := start;
    ghost var done := todos - todos.Keys;
    var rest := todos.Keys;
    while rest != {}
      invariant rest <= todos.Keys && done == todos - rest
      invariant Stamped(out, start, TODO, done, at)
    {
      var id :| id in rest;
      rest := rest - {id};
      StampOne(out, start, TODO, done, at, id, todos[id]);
      done := done[id := todos[id]];
      out := out[TODO + id := Legacy(todos[id], at)];
    }
    assert done == todos;
  }

  method StampFlags(start: Entries, fe: map<string, FeValue>, at: int) returns (out: Entries)
    ensures Stamped(out, start, FE, Flags(fe), at)
  {
    out := start;
    ghost var done := fe - fe.Keys;
    var rest := fe.Keys;
    while rest != {}
      invariant rest <= fe.Keys && done == fe - rest
      invariant Stamped(out, start, FE, Flags(done), at)
    {
      var field :| field in rest;
      rest := rest - {field};
      ghost var before := done;
      done := done[field := fe[field]];
      if fe[field].Bool? {
        var v := BoolEntryValue(fe[field].value);
        StampOne(out, start, FE, Flags(before), at, field, v);
        assert Flags(done) == Flags(before)[field := v];
        out := out[FE + field := Legacy(v, at)];
      } else {
        assert Flags(done) == Flags(before);
      }
    }
    assert done == fe;
  }

  /** out holds exactly the records an old document stands for. */
  ghost predicate Migrated(out: Entries, p: Snapshot, at: int) {
    forall k :: (k in out <==> SnapshotValue(p, k).Some?)
      && (k in out ==> out[k] == Legacy(SnapshotValue(p, k).value, at))
  }

  /** The value an old document gives an item. */
  function SnapshotValue(p: Snapshot, k: string): Option<string> {
    if Names(k, WORKSPACE, Pins(p.workspaces)) || Names(k, SESSION, Pins(p.sessions)) then Some("1")
    else if Names(k, TODO, p.todos) then Some(p.todos[k[|TODO|..]])
    else if Names(k, FE, Flags(p.fe)) then Some(Flags(p.fe)[k[|FE|..]])
    else None
  }

  lemma PrefixesDiffer(k: string)
    ensures HasPrefix(k, WORKSPACE) ==> k[0] == 'w'
    ensures HasPrefix(k, SESSION) ==> k[0] == 's'
    ensures HasPrefix(k, TODO) ==> k[0] == 't'
    ensures HasPrefix(k, FE) ==> k[0] == 'f'
  {
    forall prefix | prefix in {WORKSPACE, SESSION, TODO, FE} && HasPrefix(k, prefix) ensures k[0] == prefix[0] {
      assert k[..|prefix|][0] == k[0];
    }
  }

  method EntriesFromSnapshot(p: Snapshot, at: int) returns (out: Entries)
    ensures Migrated(out, p, at)
  {
    out := map[];
    var a := StampPins(out, WORKSPACE, p.workspaces, at);
    var b := StampPins(a, SESSION, p.sessions, at);
    var c := StampTodos(b, p.todos, at);
    out := StampFlags(c, p.fe, at);
    forall k ensures k in out <==> SnapshotValue(p, k).Some?
             ensures k in out ==> out[k] == Legacy(SnapshotValue(p, k).value, at)
    {
      PrefixesDiffer(k);
    }
  }

  /** Migrating an old document and showing the result gives the old document back: its pins,
      sorted and without repetition, its todos and its flags. Names without text do not show. */
  lemma MigrationKeepsSnapshot(p: Snapshot, out: Entries, at: int, v: View)
    requires Migrated(out, p, at) && Shows(v, out)
    ensures StrictlySorted(v.workspaces) && forall x :: x in v.workspaces <==> x in p.workspaces && x != ""
    ensures StrictlySorted(v.sessions) && forall x :: x in v.sessions <==> x in p.sessions && x != ""
    ensures v.todos == map x | x in p.todos && x != "" :: p.todos[x]
    ensures v.fe == map x | x in p.fe && p.fe[x].Bool? && x != "" :: p.fe[x].value
  {
    forall x: string
      ensures x in v.workspaces <==> x in p.workspaces && x != ""
      ensures x in v.sessions <==> x in p.sessions && x != ""
    {
      ItemShows(p, out, at, WORKSPACE, x);
      ItemShows(p, out, at, SESSION, x);
    }
    TodosShow(p, out, at, v);
    FlagsShow(p, out, at, v);
  }

  lemma TodosShow(p: Snapshot, out: Entries, at: int, v: View)
    requires Migrated(out, p, at) && Shows(v, out)
    ensures v.todos == map x | x in p.todos && x != "" :: p.todos[x]
  {
    forall x: string
      ensures x in v.todos <==> x in p.todos && x != ""
      ensures x in v.todos ==> v.todos[x] == p.todos[x]
    {
      ItemShows(p, out, at, TODO, x);
    }
  }

  lemma FlagsShow(p: Snapshot, out: Entries, at: int, v: View)
    requires Migrated(out, p, at) && Shows(v, out)
    ensures v.fe == map x | x in p.fe && p.fe[x].Bool? && x != "" :: p.fe[x].value
  {
    forall x: string
      ensures x in v.fe <==> x in p.fe && p.fe[x].Bool? && x != ""
      ensures x in v.fe ==> v.fe[x] == p.fe[x].value
    {
      ItemShows(p, out, at, FE, x);
    }
  }

  lemma ItemShows(p: Snapshot, out: Entries, at: int, prefix: string, x: string)
    requires Migrated(out, p, at) && prefix in {WORKSPACE, SESSION, TODO, FE}
    ensures prefix == WORKSPACE ==> (Live(out, prefix + x) <==> x in p.workspaces)
    ensures prefix == SESSION ==> (Live(out, prefix + x) <==> x in p.sessions)
    ensures prefix == TODO ==> (Live(out, prefix + x) <==> x in p.todos)
    ensures prefix == TODO && x in p.todos ==> out[prefix + x].v == p.todos[x]
    ensures prefix == FE ==> (Live(out, prefix + x) <==> x in Flags(p.fe))
    ensures prefix == FE && x in Flags(p.fe) ==> out[prefix + x].v == Flags(p.fe)[x]
  {
    PrefixesDiffer(prefix + x);
    assert (prefix + x)[..|prefix|] == prefix && (prefix + x)[|prefix|..] == x;
  }

  // ---- the stored document ----

  class PrefsStore {
    var entries: Entries
    var version: nat
    var view: View

    /** What sanitizing guarantees of everything that gets in. */
    ghost predicate Valid() reads this {
      forall k :: k in entries ==> k != "" && entries[k].site != ""
    }

    constructor (loaded: Entries, number: nat, shown: View)
      requires forall k :: k in loaded ==> k != "" && loaded[k].site != ""
      ensures Valid() && entries == loaded && version == number && view == shown
    {
      entries, version, view := loaded, number, shown;
    }

    /** mergePrefsDoc's half about the entries. */
    method MergeDoc(incoming: Entries, now: int) returns (next: Entries, changed: bool)
      requires Valid()
      ensures next == Written(entries, incoming, now) && (changed <==> next != entries)
    {
      var cp := SanitizeEntries(incoming);
      next := MergeEntries(map[], entries);
      assert next == entries;
      next := MergeEntries(next, cp);
      next := PruneTombstones(next, now);
      SameIsExact(entries, next);
      var same := SameEntries(entries, next);
      changed := !same;
    }

    /** SetPrefs: the version rises exactly when the entries change, and then the view shows
        exactly what is live; a write that changes nothing leaves the whole document alone. */
    method SetPrefs(incoming: Entries, now: int) returns (v: nat)
      requires Valid()
      modifies this
      ensures Valid() && entries == Written(old(entries), incoming, now)
      ensures v == version == (if entries == old(entries) then old(version) else old(version) + 1)
      ensures if entries == old(entries) then view == old(view) else Shows(view, entries)
    {
      var next, changed := MergeDoc(incoming, now);
      if !changed {
        return version;
      }
      view := Project(next);
      entries, version := next, version + 1;
      v := version;
    }

    method SanitizeEntries(incoming: Entries) returns (r: Entries)
      ensures r == Sanitize(incoming)
    {
      r := incoming;
      var rest := incoming.Keys;
      while rest != {}
        invariant rest <= incoming.Keys
        invariant r == map k | k in incoming && (k in rest || (k != "" && incoming[k].site != "")) :: incoming[k]
      {
        var k :| k in rest;
        rest := rest - {k};
        if k == "" || incoming[k].site == "" {
          r := r - {k};
        }
      }
    }
  }
}
