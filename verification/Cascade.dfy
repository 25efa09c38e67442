/** Invalidation spreads along evidence and reference edges, through bindings still live. */
module Cascade {
  import opened Snapshots

  type Bindings = map<Key, Binding>

  predicate DependsOn(b: Binding, id: string) {
    b.evidence == id || id in b.refs
  }

  predicate Live(bindings: Bindings, k: Key) {
    k in bindings && bindings[k].mark.status != Invalidated
  }

  /** Live bindings, the first depending on one of the ids, each later one on the id before it. */
  ghost predicate Chain(bindings: Bindings, ids: set<string>, chain: seq<Key>) {
    && chain != []
    && (forall i :: 0 <= i < |chain| ==> Live(bindings, chain[i]))
    && (exists id :: id in ids && DependsOn(bindings[chain[0]], id))
    && (forall i :: 0 < i < |chain| ==> DependsOn(bindings[chain[i]], chain[i - 1].id))
  }

  ghost predicate Reached(bindings: Bindings, ids: set<string>, k: Key) {
    exists chain :: Chain(bindings, ids, chain) && chain[|chain| - 1] == k
  }

  ghost function ReachedSet(bindings: Bindings, ids: set<string>): set<Key> {
    set k | k in bindings && Reached(bindings, ids, k)
  }

  /** Exactly the reached bindings are invalidated, each once. */
  ghost function Cascaded(bindings: Bindings, ids: set<string>, reason: Reason): Bindings {
    InvalidatedBindings(bindings, ReachedSet(bindings, ids), reason)
  }

  // ---- reaching, one step at a time ----

  lemma ReachedFirst(bindings: Bindings, ids: set<string>, k: Key, id: string)
    requires Live(bindings, k) && id in ids && DependsOn(bindings[k], id)
    ensures Reached(bindings, ids, k)
  {
    assert Chain(bindings, ids, [k]);
  }

  lemma ReachedNext(bindings: Bindings, ids: set<string>, j: Key, k: Key)
    requires Reached(bindings, ids, j) && Live(bindings, k) && DependsOn(bindings[k], j.id)
    ensures Reached(bindings, ids, k)
  {
    hide Live, DependsOn;
    var chain :| Chain(bindings, ids, chain) && chain[|chain| - 1] == j;
    var longer := chain + [k];
    assert longer[0] == chain[0];
    assert Chain(bindings, ids, longer);
  }

  /** Nothing is reached outside a set that the edges do not leave. */
  lemma {:induction false} ReachedStaysInside(bindings: Bindings, ids: set<string>, inside: set<Key>, chain: seq<Key>)
    requires Chain(bindings, ids, chain)
    requires forall k, id :: Live(bindings, k) && id in ids && DependsOn(bindings[k], id) ==> k in inside
    requires forall j, k :: j in inside && Live(bindings, k) && DependsOn(bindings[k], j.id) ==> k in inside
    ensures chain[|chain| - 1] in inside
    decreases |chain|
  {
    hide Live, DependsOn;
    if |chain| == 1 {
      assert Live(bindings, chain[0]);
    } else {
      var front := chain[..|chain| - 1];
      assert front[0] == chain[0];
      ReachedStaysInside(bindings, ids, inside, front);
      LiveIsBound(bindings, chain);
      assert DependsOn(bindings[chain[|chain| - 1]], chain[|chain| - 1 - 1].id);
    }
  }

  lemma ReachedIsLeast(bindings: Bindings, ids: set<string>, inside: set<Key>)
    requires forall k, id :: Live(bindings, k) && id in ids && DependsOn(bindings[k], id) ==> k in inside
    requires forall j, k :: j in inside && Live(bindings, k) && DependsOn(bindings[k], j.id) ==> k in inside
    ensures ReachedSet(bindings, ids) <= inside
  {
    forall k | k in ReachedSet(bindings, ids)
      ensures k in inside
    {
      var chain :| Chain(bindings, ids, chain) && chain[|chain| - 1] == k;
      ReachedStaysInside(bindings, ids, inside, chain);
    }
  }

  lemma ReachedIsLive(bindings: Bindings, ids: set<string>, k: Key)
    requires Reached(bindings, ids, k)
    ensures Live(bindings, k)
  {
    hide Live, DependsOn;
    var chain :| Chain(bindings, ids, chain) && chain[|chain| - 1] == k;
    assert Live(bindings, chain[|chain| - 1]);
  }

  /** After the cascade no live binding depends on a root or on anything the cascade invalidated. */
  lemma CascadeCloses(bindings: Bindings, ids: set<string>, reason: Reason, k: Key, id: string)
    requires Live(Cascaded(bindings, ids, reason), k)
    requires id in ids || exists j :: j in ReachedSet(bindings, ids) && j.id == id
    ensures !DependsOn(Cascaded(bindings, ids, reason)[k], id)
  {
    hide DependsOn, Chain;
    var b := bindings[k];
    assert Live(bindings, k) && !Reached(bindings, ids, k);
    assert DependsOn(Cascaded(bindings, ids, reason)[k], id) == DependsOn(b, id);
    if DependsOn(b, id) {
      if id in ids {
        ReachedFirst(bindings, ids, k, id);
      } else {
        var j :| j in ReachedSet(bindings, ids) && j.id == id;
        ReachedNext(bindings, ids, j, k);
      }
    }
  }

  // ---- several roots ----

  lemma {:induction false} ReachedFromMore(bindings: Bindings, ids: set<string>, more: set<string>)
    requires ids <= more
    ensures ReachedSet(bindings, ids) <= ReachedSet(bindings, more)
  {
    hide Live, DependsOn;
    forall k | k in ReachedSet(bindings, ids)
      ensures Reached(bindings, more, k)
    {
      var chain :| Chain(bindings, ids, chain) && chain[|chain| - 1] == k;
      assert Chain(bindings, more, chain);
    }
  }

  /** Bindings with fewer live members and the same edges reach less. */
  lemma ReachedAmongFewer(bindings: Bindings, fewer: Bindings, ids: set<string>)
    requires fewer.Keys == bindings.Keys
    requires forall k :: Live(fewer, k) ==> Live(bindings, k)
    requires forall k :: k in bindings ==> fewer[k].evidence == bindings[k].evidence && fewer[k].refs == bindings[k].refs
    ensures ReachedSet(fewer, ids) <= ReachedSet(bindings, ids)
  {
    hide Live;
    forall k | k in ReachedSet(fewer, ids)
      ensures Reached(bindings, ids, k)
    {
      var chain :| Chain(fewer, ids, chain) && chain[|chain| - 1] == k;
      assert forall i :: 0 <= i < |chain| ==> chain[i] in bindings by { LiveIsBound(fewer, chain); }
      assert Chain(bindings, ids, chain);
    }
  }

  lemma LiveIsBound(bindings: Bindings, chain: seq<Key>)
    requires forall i :: 0 <= i < |chain| ==> Live(bindings, chain[i])
    ensures forall i :: 0 <= i < |chain| ==> chain[i] in bindings
  {
  }

  /** Cascading from some roots and then from others is cascading from all of them, in any order. */
  lemma {:induction false} CascadesCombine(bindings: Bindings, a: set<string>, b: set<string>, reason: Reason)
    ensures Cascaded(Cascaded(bindings, a, reason), b, reason) == Cascaded(bindings, a + b, reason)
  {
    hide DependsOn, Reached;
    var mid := Cascaded(bindings, a, reason);
    var first, second, both := ReachedSet(bindings, a), ReachedSet(mid, b), ReachedSet(bindings, a + b);
    ReachedFromMore(bindings, a, a + b);
    ReachedFromMore(bindings, b, a + b);
    ReachedAmongFewer(bindings, mid, b);
    CombinedIsClosed(bindings, a, b, reason);
    ReachedIsLeast(bindings, a + b, first + second);
    assert both == first + second;
    assert first !! second by {
      forall k | k in second
        ensures k !in first
      {
        ReachedIsLive(mid, b, k);
      }
    }
  }

  lemma CombinedIsClosed(bindings: Bindings, a: set<string>, b: set<string>, reason: Reason)
    ensures var mid := Cascaded(bindings, a, reason); var inside := ReachedSet(bindings, a) + ReachedSet(mid, b);
            && (forall k, id :: Live(bindings, k) && id in a + b && DependsOn(bindings[k], id) ==> k in inside)
            && (forall j, k :: j in inside && Live(bindings, k) && DependsOn(bindings[k], j.id) ==> k in inside)
  {
    hide DependsOn, Reached;
    var mid := Cascaded(bindings, a, reason);
    var inside := ReachedSet(bindings, a) + ReachedSet(mid, b);
    forall k, id | Live(bindings, k) && id in a + b && DependsOn(bindings[k], id)
      ensures k in inside
    {
      SameEdges(bindings, a, reason, k, id);
      if id in a {
        ReachedFirst(bindings, a, k, id);
      } else if k !in ReachedSet(bindings, a) {
        ReachedFirst(mid, b, k, id);
      }
    }
    forall j, k | j in inside && Live(bindings, k) && DependsOn(bindings[k], j.id)
      ensures k in inside
    {
      SameEdges(bindings, a, reason, k, j.id);
      if j in ReachedSet(bindings, a) {
        ReachedNext(bindings, a, j, k);
      } else if k !in ReachedSet(bindings, a) {
        ReachedNext(mid, b, j, k);
      }
    }
  }

  lemma SameEdges(bindings: Bindings, ids: set<string>, reason: Reason, k: Key, id: string)
    requires k in bindings
    ensures DependsOn(Cascaded(bindings, ids, reason)[k], id) == DependsOn(bindings[k], id)
  {
  }

  // ---- the round of one id ----

  function Dependents(bindings: Bindings, id: string): set<Key> {
    set k | Live(bindings, k) && k in bindings && DependsOn(bindings[k], id)
  }

  lemma InvalidatedTwice(bindings: Bindings, first: set<Key>, second: set<Key>, reason: Reason)
    requires first !! second
    ensures InvalidatedBindings(InvalidatedBindings(bindings, first, reason), second, reason)
         == InvalidatedBindings(bindings, first + second, reason)
  {
  }
}
