/** The document cache: entries bounded by age, and one flight per key being computed. */
module DocumentCaching {
  import opened Paths

  datatype Option<+T> = None | Some(value: T)

  /** A vector is opaque here; copying one makes an equal one. */
  type Embedding = string

  datatype Outcome = Good(embedding: Embedding) | Bad(error: string)

  datatype Entry = Entry(embedding: Embedding, createdAt: nat)

  type Entries = map<string, Entry>

  // ---- which entries go first ----

  /** Earlier creation first, then the smaller key. */
  predicate Older(e: Entries, a: string, b: string)
    requires a in e && b in e
  {
    e[a].createdAt < e[b].createdAt || (e[a].createdAt == e[b].createdAt && Before(a, b))
  }

  lemma OlderIsTotal(e: Entries, a: string, b: string)
    requires a in e && b in e && a != b
    ensures Older(e, a, b) != Older(e, b, a)
  {
    BeforeIsTotal(a, b);
  }

  lemma OlderIsTransitive(e: Entries, a: string, b: string, c: string)
    requires a in e && b in e && c in e && Older(e, a, b) && Older(e, b, c)
    ensures Older(e, a, c)
  {
    if Before(a, b) && Before(b, c) { BeforeIsTransitive(a, b, c); }
  }

  /** The entries that stay: no more than fit, as many as fit, and none older than one that went. */
  ghost predicate KeepsNewest(e: Entries, kept: Entries, capacity: nat) {
    && kept.Keys <= e.Keys
    && (forall k :: k in kept ==> kept[k] == e[k])
    && |kept| == (if |e| <= capacity then |e| else capacity)
    && (forall gone, stays :: gone in e && gone !in kept && stays in kept ==> Older(e, gone, stays))
  }

  lemma SameSize(a: set<string>, b: set<string>)
    requires a <= b && |a| == |b|
    ensures a == b
  {
    if x :| x in b && x !in a {
      assert a <= b - {x};
      SubsetSize(a, b - {x});
    }
  }

  lemma {:induction false} SubsetSize(a: set<string>, b: set<string>)
    requires a <= b
    ensures |a| <= |b|
    decreases |a|
  {
    if x :| x in a { SubsetSize(a - {x}, b - {x}); }
  }

  /** There is only one way to keep the newest. */
  lemma NewestIsUnique(e: Entries, a: Entries, b: Entries, capacity: nat)
    requires KeepsNewest(e, a, capacity) && KeepsNewest(e, b, capacity)
    ensures a == b
  {
    hide Older;
    assert |a.Keys| == |b.Keys|;
    if !(a.Keys <= b.Keys) {
      var x :| x in a.Keys && x !in b.Keys;
      if b.Keys <= a.Keys {
        SameSize(b.Keys, a.Keys);
      } else {
        var y :| y in b.Keys && y !in a.Keys;
        assert Older(e, y, x) && Older(e, x, y);
        OlderIsTotal(e, x, y);
      }
    } else {
      SameSize(a.Keys, b.Keys);
    }
  }

  // ---- candidates in order ----

  ghost predicate InAgeOrder(e: Entries, s: seq<string>) {
    && (forall i :: 0 <= i < |s| ==> s[i] in e)
    && (forall i, j :: 0 <= i < j < |s| ==> Older(e, s[i], s[j]))
  }

  function Placed(e: Entries, s: seq<string>, k: string): seq<string>
    requires k in e && forall i :: 0 <= i < |s| ==> s[i] in e
  {
    if s == [] || Older(e, k, s[0]) then [k] + s else [s[0]] + Placed(e, s[1..], k)
  }

  lemma {:induction false} PlacedContents(e: Entries, s: seq<string>, k: string)
    requires k in e && forall i :: 0 <= i < |s| ==> s[i] in e
    ensures forall n :: n in Placed(e, s, k) <==> n in s || n == k
    ensures |Placed(e, s, k)| == |s| + 1
  {
    hide Older;
    if s != [] && !Older(e, k, s[0]) {
      PlacedContents(e, s[1..], k);
      assert s == [s[0]] + s[1..];
    }
  }

  lemma {:induction false} PlacedInOrder(e: Entries, s: seq<string>, k: string)
    requires k in e && InAgeOrder(e, s) && k !in s
    ensures InAgeOrder(e, Placed(e, s, k))
  {
    hide Older;
    if s == [] {
    } else if Older(e, k, s[0]) {
      forall j | 0 <= j < |s|
        ensures Older(e, k, s[j])
      {
        if j > 0 { OlderIsTransitive(e, k, s[0], s[j]); }
      }
    } else {
      OlderIsTotal(e, k, s[0]);
      PlacedInOrder(e, s[1..], k);
      PlacedContents(e, s[1..], k);
      var r := Placed(e, s[1..], k);
      forall j | 0 <= j < |r|
        ensures r[j] in e && Older(e, s[0], r[j])
      {
        assert r[j] in r;
        if r[j] != k {
          var i :| 0 <= i < |s| - 1 && s[1..][i] == r[j];
          assert s[i + 1] == r[j];
        }
      }
    }
  }

  /** Removing the first of the ordered candidates, taken one removal further. */
  lemma RemovingOldest(e: Entries, s: seq<string>, i: nat)
    requires InAgeOrder(e, s) && (forall k :: k in e <==> k in s) && i < |s|
    ensures (e - Members(s[..i])) - {s[i]} == e - Members(s[..i + 1])
    ensures s[i] in e - Members(s[..i])
  {
    hide Older;
    assert s[..i + 1] == s[..i] + [s[i]];
    assert s[i] !in s[..i] by {
      forall j | 0 <= j < i
        ensures s[j] != s[i]
      {
        assert Older(e, s[j], s[i]);
        OlderIsIrreflexive(e, s[i]);
      }
    }
  }

  lemma OlderIsIrreflexive(e: Entries, a: string)
    requires a in e
    ensures !Older(e, a, a)
  {
    BeforeIsIrreflexive(a);
  }

  function Members(s: seq<string>): set<string> {
    set k | k in s
  }

  lemma RemovedOldest(e: Entries, s: seq<string>, i: nat, capacity: nat)
    requires InAgeOrder(e, s) && (forall k :: k in e <==> k in s) && i <= |s|
    requires |e - Members(s[..i])| == if |e| <= capacity then |e| else capacity
    ensures KeepsNewest(e, e - Members(s[..i]), capacity)
  {
    hide Older;
    var kept := e - Members(s[..i]);
    forall gone, stays | gone in e && gone !in kept && stays in kept
      ensures Older(e, gone, stays)
    {
      var a :| 0 <= a < |s[..i]| && s[..i][a] == gone;
      var b :| 0 <= b < |s| && s[b] == stays;
      assert forall c :: 0 <= c < i ==> s[..i][c] == s[c] && s[c] in Members(s[..i]);
    }
  }

  // ---- the cache ----

  /** One computation in progress.  It is finished once; what it ended with then stays. */
  class Flight {
    var outcome: Option<Outcome>

    constructor ()
      ensures outcome == None
    {
      outcome := None;
    }
  }

  class DocumentCache {
    var entries: Entries
    var flights: map<string, Flight>
    const capacity: int

    constructor (capacity: int)
      ensures entries == map[] && flights == map[] && this.capacity == capacity
    {
      this.capacity := capacity;
      entries, flights := map[], map[];
    }

    ghost predicate Valid()
      reads this, flights.Values
    {
      && (forall k :: k in flights ==> flights[k].outcome == None)
      && (capacity <= 0 ==> entries == map[]) && (capacity > 0 ==> |entries| <= capacity)
    }

    /** A stored vector, someone else's flight, or a new flight that is the caller's to finish. */
    method GetOrBegin(key: string) returns (hit: Option<Embedding>, flight: Flight?, leader: bool)
      requires Valid()
      modifies this`flights
      ensures Valid()
      ensures key in entries ==> hit == Some(entries[key].embedding) && flight == null && !leader && flights == old(flights)
      ensures key !in entries && key in old(flights) ==> hit == None && flight == old(flights[key]) && !leader && flights == old(flights)
      ensures key !in entries && key !in old(flights) ==>
                hit == None && leader && flight != null && fresh(flight) && flights == old(flights)[key := flight]
    {
      if key in entries {
        return Some(entries[key].embedding), null, false;
      }
      if key in flights {
        return None, flights[key], false;
      }
      var begun := new Flight();
      flights := flights[key := begun];
      return None, begun, true;
    }

    /** Only the first finish counts: it clears the flight, stores a good vector, and wakes the followers. */
    method FinishFlight(key: string, flight: Flight, outcome: Outcome, now: nat)
      requires Valid() && forall k :: k in flights && flights[k] == flight ==> k == key
      modifies this, flight
      ensures Valid()
      ensures old(flight.outcome) != None ==> flight.outcome == old(flight.outcome) && entries == old(entries) && flights == old(flights)
      ensures old(flight.outcome) == None ==>
                && flight.outcome == Some(outcome)
                && flights == (if key in old(flights) && old(flights[key]) == flight then old(flights) - {key} else old(flights))
                && (outcome.Bad? || capacity <= 0 ==> entries == old(entries))
                && (outcome.Good? && capacity > 0 ==> KeepsNewest(old(entries)[key := Entry(outcome.embedding, now)], entries, capacity))
    {
      hide KeepsNewest;
      if flight.outcome != None {
        return;
      }
      Release(key, flight);
      if outcome.Good? {
        Put(key, outcome.embedding, now);
      }
      flight.outcome := Some(outcome);
    }

    method Release(key: string, flight: Flight)
      requires Valid() && forall k :: k in flights && flights[k] == flight ==> k == key
      modifies this`flights
      ensures Valid() && flight !in flights.Values
      ensures flights == if key in old(flights) && old(flights[key]) == flight then old(flights) - {key} else old(flights)
    {
      if key in flights && flights[key] == flight {
        flights := flights - {key};
      }
    }

    /** What a follower gets, if the flight is over. */
    method PollFlight(flight: Flight) returns (result: Option<Outcome>)
      ensures result == flight.outcome
    {
      result := flight.outcome;
    }

    method Put(key: string, embedding: Embedding, now: nat)
      modifies this`entries
      ensures capacity <= 0 ==> entries == old(entries)
      ensures capacity > 0 ==> KeepsNewest(old(entries)[key := Entry(embedding, now)], entries, capacity) && |entries| <= capacity
    {
      if capacity <= 0 {
        return;
      }
      entries := entries[key := Entry(embedding, now)];
      Evict();
    }

    method Evict()
      requires capacity > 0
      modifies this`entries
      ensures KeepsNewest(old(entries), entries, capacity) && |entries| <= capacity
    {
      hide Older, InAgeOrder, Members;
      if |entries| <= capacity {
        assert KeepsNewest(entries, entries, capacity);
        return;
      }
      var e := entries;
      var candidates := Candidates();
      var i := 0;
      assert e - Members(candidates[..0]) == e by { assert Members(candidates[..0]) == {} by { NoMembers(candidates); } }
      while |entries| > capacity && i < |candidates|
        invariant 0 <= i <= |candidates|
        invariant entries == e - Members(candidates[..i])
        invariant capacity <= |entries|
      {
        RemovingOldest(e, candidates, i);
        ghost var before := entries;
        entries := entries - {candidates[i]};
        assert |before| == |entries| + 1 by { OneLess(before, candidates[i]); }
        i := i + 1;
      }
      if |entries| > capacity { AllRemoved(e, candidates); }
      RemovedOldest(e, candidates, i, capacity);
    }

    method Candidates() returns (s: seq<string>)
      ensures InAgeOrder(entries, s) && forall k :: k in entries <==> k in s
    {
      hide Older;
      s := [];
      var todo := entries.Keys;
      while todo != {}
        invariant todo <= entries.Keys
        invariant InAgeOrder(entries, s)
        invariant forall k :: k in s <==> k in entries && k !in todo
      {
        var k :| k in todo;
        PlacedInOrder(entries, s, k);
        PlacedContents(entries, s, k);
        s := Placed(entries, s, k);
        todo := todo - {k};
      }
    }
  }

  lemma NoMembers(s: seq<string>)
    ensures Members(s[..0]) == {}
  {
  }

  lemma OneLess(e: Entries, k: string)
    requires k in e
    ensures |e| == |e - {k}| + 1
  {
    assert (e - {k}).Keys == e.Keys - {k};
    assert |e - {k}| == |(e - {k}).Keys| && |e| == |e.Keys|;
  }

  lemma AllRemoved(e: Entries, s: seq<string>)
    requires forall k :: k in e <==> k in s
    ensures e - Members(s[..|s|]) == map[]
  {
    assert s[..|s|] == s;
  }
}
