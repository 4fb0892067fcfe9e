/** The byte-wise string order of sort.Strings and of Go's < on strings. */
module Text {

  /** Strings in the byte order the hub sorts by. */
  predicate Less(a: string, b: string) {
    |b| > 0 && (|a| == 0 || a[0] < b[0] || (a[0] == b[0] && Less(a[1..], b[1..])))
  }

  /** Sorted without repetition. */
  predicate StrictlySorted(s: seq<string>) {
    forall i, j :: 0 <= i < j < |s| ==> Less(s[i], s[j])
  }

  lemma {:induction false} LessTransitive(a: string, b: string, c: string)
    requires Less(a, b) && Less(b, c)
    ensures Less(a, c)
  {
    if |a| > 0 && a[0] == b[0] == c[0] {
      LessTransitive(a[1..], b[1..], c[1..]);
    }
  }

  lemma {:induction false} LessTotal(a: string, b: string)
    ensures Less(a, b) || a == b || Less(b, a)
  {
    if |a| > 0 && |b| > 0 && a[0] == b[0] {
      LessTotal(a[1..], b[1..]);
      assert a == [a[0]] + a[1..] && b == [b[0]] + b[1..];
    }
  }

  lemma {:induction false} LessIrreflexive(a: string)
    ensures !Less(a, a)
  {
    if |a| == 0 {
    } else {
      LessIrreflexive(a[1..]);
    }
  }

  /** s with x put where it belongs, in front of the first element not less than it. */
  function InsertSorted(s: seq<string>, x: string): (r: seq<string>)
    ensures multiset(r) == multiset(s) + multiset{x}
  {
    if |s| == 0 || !Less(s[0], x) then [x] + s
    else
      assert s == [s[0]] + s[1..];
      [s[0]] + InsertSorted(s[1..], x)
  }

  /** sort.Strings. */
  function SortStrings(s: seq<string>): (r: seq<string>)
    ensures multiset(r) == multiset(s)
  {
    if |s| == 0 then s
    else
      assert s == [s[0]] + s[1..];
      InsertSorted(SortStrings(s[1..]), s[0])
  }

  lemma {:induction false} InsertKeepsSorted(s: seq<string>, x: string)
    requires StrictlySorted(s) && x !in s
    ensures StrictlySorted(InsertSorted(s, x))
  {
    var r := InsertSorted(s, x);
    if |s| == 0 {
    } else {
      if Less(s[0], x) {
        InsertKeepsSorted(s[1..], x);
        forall k | 1 <= k < |r| ensures Less(r[0], r[k]) {
          assert r[k] in multiset(r[1..]);
          assert r[k] in multiset(s[1..]) + multiset{x};
        }
      } else {
        LessTotal(s[0], x);
        forall k | 1 <= k < |r| ensures Less(r[0], r[k]) {
          if k > 1 { LessTransitive(x, s[0], s[k - 1]); }
        }
      }
    }
  }

  predicate Distinct(s: seq<string>) {
    forall i, j :: 0 <= i < j < |s| ==> s[i] != s[j]
  }

  lemma {:induction false} SortIsStrict(s: seq<string>)
    requires Distinct(s)
    ensures StrictlySorted(SortStrings(s))
  {
    if |s| == 0 {
    } else {
      SortIsStrict(s[1..]);
      assert s[0] !in multiset(s[1..]);
      InsertKeepsSorted(SortStrings(s[1..]), s[0]);
    }
  }

  /** Only one strictly sorted sequence has a given set of elements. */
  lemma {:induction false} StrictlySortedIsUnique(a: seq<string>, b: seq<string>)
    requires StrictlySorted(a) && StrictlySorted(b)
    requires forall x :: x in a <==> x in b
    ensures a == b
  {
    assert (|a| > 0 ==> a[0] in b) && (|b| > 0 ==> b[0] in a);
    if |a| > 0 && |b| > 0 {
      FirstIsLeast(a, b);
      FirstIsLeast(b, a);
      LessTotal(a[0], b[0]);
      TailElements(a);
      TailElements(b);
      StrictlySortedIsUnique(a[1..], b[1..]);
    }
  }

  lemma FirstIsLeast(a: seq<string>, b: seq<string>)
    requires |a| > 0 && |b| > 0 && StrictlySorted(a) && b[0] in a
    ensures !Less(b[0], a[0])
  {
    if Less(b[0], a[0]) {
      var i :| 0 <= i < |a| && a[i] == b[0];
      if i > 0 { LessTransitive(a[0], b[0], a[0]); }
      LessIrreflexive(a[0]);
    }
  }

  lemma TailElements(a: seq<string>)
    requires |a| > 0 && StrictlySorted(a)
    ensures forall x :: x in a[1..] <==> x in a && x != a[0]
  {
    LessIrreflexive(a[0]);
    forall x | x in a && x != a[0] ensures x in a[1..] {
      var i :| 0 <= i < |a| && a[i] == x;
      assert a[1..][i - 1] == x;
    }
  }
}
