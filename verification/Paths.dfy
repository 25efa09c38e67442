/** Repository paths: containment, overlap, and the sorted order of a set of them. */
module Paths {

  // ---- containment ----

  predicate PathWithin(candidate: string, root: string) {
    candidate == root || root + "/" <= candidate
  }

  predicate PathsOverlap(left: string, right: string) {
    PathWithin(left, right) || PathWithin(right, left)
  }

  lemma PathWithinTransitive(a: string, b: string, c: string)
    requires PathWithin(a, b) && PathWithin(b, c)
    ensures PathWithin(a, c)
  {
    if a != b && b != c {
      assert c + "/" == b[..|c| + 1];
      assert b + "/" == a[..|b| + 1];
      assert a[..|c| + 1] == a[..|b| + 1][..|c| + 1] == b[..|c| + 1];
    }
  }

  // ---- lexicographic order ----

  predicate Before(a: string, b: string) {
    b != "" && (a == "" || a[0] < b[0] || (a[0] == b[0] && Before(a[1..], b[1..])))
  }

  lemma {:induction false} BeforeIsTotal(a: string, b: string)
    ensures Before(a, b) || a == b || Before(b, a)
    ensures !(Before(a, b) && Before(b, a)) && !Before(a, a)
  {
    if a != "" && b != "" && a[0] == b[0] {
      BeforeIsTotal(a[1..], b[1..]);
      assert a == [a[0]] + a[1..] && b == [b[0]] + b[1..];
    }
    if a != "" { BeforeIsIrreflexive(a); }
  }

  lemma {:induction false} BeforeIsIrreflexive(a: string)
    ensures !Before(a, a)
  {
    if a != "" { BeforeIsIrreflexive(a[1..]); }
  }

  lemma {:induction false} BeforeIsTransitive(a: string, b: string, c: string)
    requires Before(a, b) && Before(b, c)
    ensures Before(a, c)
  {
    if a != "" && a[0] == b[0] && b[0] == c[0] { BeforeIsTransitive(a[1..], b[1..], c[1..]); }
  }

  // ---- sorted listings ----

  predicate Sorted(s: seq<string>) {
    forall i, j :: 0 <= i < j < |s| ==> Before(s[i], s[j])
  }

  ghost predicate Lists(s: seq<string>, names: set<string>) {
    forall n :: n in s <==> n in names
  }

  function Inserted(s: seq<string>, x: string): seq<string> {
    if s == [] || Before(x, s[0]) then [x] + s else [s[0]] + Inserted(s[1..], x)
  }

  lemma {:induction false} InsertedContents(s: seq<string>, x: string)
    ensures forall n :: n in Inserted(s, x) <==> n in s || n == x
  {
    hide Before;
    if s != [] && !Before(x, s[0]) {
      InsertedContents(s[1..], x);
      assert s == [s[0]] + s[1..];
    }
  }

  lemma {:induction false} InsertedIsSorted(s: seq<string>, x: string)
    requires Sorted(s) && x !in s
    ensures Sorted(Inserted(s, x))
  {
    hide Before;
    if s == [] {
    } else if Before(x, s[0]) {
      forall j | 0 <= j < |s|
        ensures Before(x, s[j])
      {
        if j > 0 { BeforeIsTransitive(x, s[0], s[j]); }
      }
    } else {
      var tail := s[1..];
      assert x != s[0] && x !in tail;
      BeforeIsTotal(x, s[0]);
      InsertedIsSorted(tail, x);
      InsertedContents(tail, x);
      var r := Inserted(tail, x);
      forall j | 0 <= j < |r|
        ensures Before(s[0], r[j])
      {
        assert r[j] in r;
        if r[j] != x {
          var i :| 0 <= i < |tail| && tail[i] == r[j];
          assert tail[i] == s[i + 1];
        }
      }
    }
  }

  /** A set of names has one sorted listing. */
  lemma {:induction false} SortedListingIsUnique(a: seq<string>, b: seq<string>, names: set<string>)
    requires Sorted(a) && Sorted(b) && Lists(a, names) && Lists(b, names)
    ensures a == b
    decreases |a|
  {
    hide Before;
    assert b != [] ==> b[0] in b;
    if a == [] {
    } else {
      assert a[0] in names && b != [];
      FirstIsLeast(a, b, names);
      FirstIsLeast(b, a, names);
      BeforeIsTotal(a[0], b[0]);
      TailLists(a, names);
      TailLists(b, names);
      SortedListingIsUnique(a[1..], b[1..], names - {a[0]});
      assert a == [a[0]] + a[1..] && b == [b[0]] + b[1..];
    }
  }

  lemma FirstIsLeast(a: seq<string>, b: seq<string>, names: set<string>)
    requires a != [] && b != [] && Sorted(a) && Lists(a, names) && Lists(b, names)
    ensures a[0] == b[0] || Before(a[0], b[0])
  {
    hide Before;
    assert b[0] in names;
    var i :| 0 <= i < |a| && a[i] == b[0];
  }

  lemma TailLists(a: seq<string>, names: set<string>)
    requires a != [] && Sorted(a) && Lists(a, names)
    ensures Sorted(a[1..]) && Lists(a[1..], names - {a[0]})
  {
    hide Before;
    forall n
      ensures n in a[1..] <==> n in names - {a[0]}
    {
      assert n in a <==> n in names;
      if n in a[1..] {
        var i :| 0 <= i < |a| - 1 && a[1..][i] == n;
        assert Before(a[0], a[i + 1]);
        BeforeIsTotal(a[0], n);
      }
    }
  }

  ghost function SortedListing(names: set<string>): (s: seq<string>)
    ensures Sorted(s) && Lists(s, names)
  {
    if names == {} then []
    else
      var x :| x in names;
      var rest := SortedListing(names - {x});
      InsertedIsSorted(rest, x);
      InsertedContents(rest, x);
      Inserted(rest, x)
  }

  /** Sorting names taken in any order whatever. */
  method SortNames(names: set<string>) returns (s: seq<string>)
    ensures s == SortedListing(names)
  {
    hide Sorted, Before;
    s := [];
    var todo := names;
    assert Sorted([]) by { SortedNone(); }
    while todo != {}
      invariant todo <= names
      invariant Sorted(s) && Lists(s, names - todo)
    {
      var x :| x in todo;
      InsertedIsSorted(s, x);
      InsertedContents(s, x);
      s := Inserted(s, x);
      todo := todo - {x};
    }
    SortedListingIsUnique(s, SortedListing(names), names);
  }

  lemma SortedNone()
    ensures Sorted([])
  {
  }
}
