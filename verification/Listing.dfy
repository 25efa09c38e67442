/** Duplicate-free listings of a map's keys, and weights summed along them.  Every tier keeps such a
    listing beside its map, and its page and byte counters are sums along it. */
module Listing {

  ghost predicate NoDuplicates<K(!new)>(order: seq<K>) {
    forall i, j :: 0 <= i < j < |order| ==> order[i] != order[j]
  }

  /** The order names every key exactly once. */
  ghost predicate Lists<K(!new)>(order: seq<K>, keys: set<K>) {
    NoDuplicates(order) && forall k :: k in order <==> k in keys
  }

  function Sum<K(==,!new)>(order: seq<K>, weight: map<K, nat>): nat
    requires forall k :: k in order ==> k in weight
  {
    if order == [] then 0 else weight[order[0]] + Sum(order[1..], weight)
  }

  function RemoveIndex<K>(order: seq<K>, i: nat): seq<K>
    requires i < |order|
  {
    order[..i] + order[i + 1..]
  }

  function IndexOf<K(==,!new)>(order: seq<K>, k: K): (i: nat)
    requires k in order
    ensures i < |order| && order[i] == k
    ensures forall j :: 0 <= j < i ==> order[j] != k
  {
    if order[0] == k then 0 else 1 + IndexOf(order[1..], k)
  }

  /** The order without one key, if it is there. */
  function Without<K(==,!new)>(order: seq<K>, k: K): seq<K> {
    if k in order then RemoveIndex(order, IndexOf(order, k)) else order
  }

  lemma WithoutLists<K(!new)>(order: seq<K>, keys: set<K>, k: K)
    requires Lists(order, keys)
    ensures Lists(Without(order, k), keys - {k})
    ensures |Without(order, k)| == if k in keys then |order| - 1 else |order|
  {
    if k in order {
      var i := IndexOf(order, k);
      var o := Without(order, k);
      forall x | x in keys - {k} ensures x in o {
        var j := IndexOf(order, x);
        assert if j < i then o[j] == x else o[j - 1] == x;
      }
      forall x | x in o ensures x in keys - {k} {
        var j := IndexOf(o, x);
        assert if j < i then order[j] == x else order[j + 1] == x;
      }
    }
  }

  lemma AppendLists<K(!new)>(order: seq<K>, keys: set<K>, k: K)
    requires Lists(order, keys) && k !in keys
    ensures Lists(order + [k], keys + {k})
  {
  }

  lemma ListsLength<K(!new)>(order: seq<K>, keys: set<K>)
    requires Lists(order, keys)
    ensures |order| == |keys|
  {
    if order == [] {
      assert keys == {};
    } else {
      var k := order[0];
      WithoutLists(order, keys, k);
      ListsLength(Without(order, k), keys - {k});
    }
  }

  lemma {:induction false} SumAppend<K(!new)>(a: seq<K>, b: seq<K>, weight: map<K, nat>)
    requires forall k :: k in a || k in b ==> k in weight
    ensures Sum(a + b, weight) == Sum(a, weight) + Sum(b, weight)
  {
    if a == [] {
      assert a + b == b;
    } else {
      assert (a + b)[1..] == a[1..] + b && (a + b)[0] == a[0];
      SumAppend(a[1..], b, weight);
    }
  }

  lemma SumOne<K(!new)>(k: K, weight: map<K, nat>)
    requires k in weight
    ensures Sum([k], weight) == weight[k]
  {
    assert [k][1..] == [];
  }

  /** Only the weights of the listed keys count. */
  lemma {:induction false} SumAgrees<K(!new)>(order: seq<K>, w: map<K, nat>, w': map<K, nat>)
    requires forall k :: k in order ==> k in w && k in w' && w[k] == w'[k]
    ensures Sum(order, w) == Sum(order, w')
  {
    if order != [] { SumAgrees(order[1..], w, w'); }
  }

  lemma SumSplit<K(!new)>(order: seq<K>, i: nat, weight: map<K, nat>)
    requires i < |order| && forall k :: k in order ==> k in weight
    ensures Sum(order, weight) == Sum(RemoveIndex(order, i), weight) + weight[order[i]]
  {
    assert order == order[..i] + ([order[i]] + order[i + 1..]);
    SumAppend(order[..i], [order[i]] + order[i + 1..], weight);
    SumAppend([order[i]], order[i + 1..], weight);
    SumOne(order[i], weight);
    SumAppend(order[..i], order[i + 1..], weight);
  }

  /** Dropping a key takes its weight away. */
  lemma SumWithout<K(!new)>(order: seq<K>, keys: set<K>, k: K, w: map<K, nat>, w': map<K, nat>)
    requires Lists(order, keys) && keys <= w.Keys && k in keys
    requires forall x :: x in keys && x != k ==> x in w' && w'[x] == w[x]
    ensures Lists(Without(order, k), keys - {k})
    ensures Sum(Without(order, k), w') == Sum(order, w) - w[k]
  {
    WithoutLists(order, keys, k);
    SumSplit(order, IndexOf(order, k), w);
    SumAgrees(Without(order, k), w, w');
  }

  /** Changing the weight of one key shifts the sum by the difference. */
  lemma SumUpdate<K(!new)>(order: seq<K>, keys: set<K>, k: K, w: map<K, nat>, w': map<K, nat>)
    requires Lists(order, keys) && keys <= w.Keys && k in keys
    requires keys <= w'.Keys && forall x :: x in keys && x != k ==> w'[x] == w[x]
    ensures Sum(order, w') == Sum(order, w) - w[k] + w'[k]
  {
    SumSplit(order, IndexOf(order, k), w);
    SumSplit(order, IndexOf(order, k), w');
    WithoutLists(order, keys, k);
    SumAgrees(Without(order, k), w, w');
  }

  /** A new key at the end adds its weight. */
  lemma SumExtend<K(!new)>(order: seq<K>, keys: set<K>, k: K, w: map<K, nat>, w': map<K, nat>)
    requires Lists(order, keys) && keys <= w.Keys && k !in keys
    requires k in w' && forall x :: x in keys ==> x in w' && w'[x] == w[x]
    ensures Lists(order + [k], keys + {k})
    ensures Sum(order + [k], w') == Sum(order, w) + w'[k]
  {
    AppendLists(order, keys, k);
    SumAgrees(order, w, w');
    SumAppend(order, [k], w');
    SumOne(k, w');
  }

  lemma SumAtLeast<K(!new)>(order: seq<K>, k: K, w: map<K, nat>)
    requires k in order && forall x :: x in order ==> x in w
    ensures Sum(order, w) >= w[k]
  {
    SumSplit(order, IndexOf(order, k), w);
  }

  // ---- keeping some keys, in their old order ----

  function Keep<K(==)>(order: seq<K>, keys: set<K>): seq<K> {
    if order == [] then []
    else (if order[0] in keys then [order[0]] else []) + Keep(order[1..], keys)
  }

  lemma {:induction false} KeepMembers<K(!new)>(order: seq<K>, keys: set<K>)
    ensures forall k :: k in Keep(order, keys) <==> k in order && k in keys
  {
    if order != [] { KeepMembers(order[1..], keys); }
  }

  lemma {:induction false} KeepLists<K(!new)>(order: seq<K>, all: set<K>, keys: set<K>)
    requires Lists(order, all)
    ensures Lists(Keep(order, keys), all * keys)
  {
    KeepMembers(order, keys);
    KeepDistinct(order, keys);
  }

  lemma {:induction false} KeepDistinct<K(!new)>(order: seq<K>, keys: set<K>)
    requires NoDuplicates(order)
    ensures NoDuplicates(Keep(order, keys))
  {
    if order != [] {
      var t := order[1..];
      assert forall i :: 0 <= i < |t| ==> t[i] == order[i + 1];
      KeepDistinct(t, keys);
      KeepMembers(t, keys);
      assert order[0] !in t;
    }
  }

  lemma {:induction false} KeepAll<K(!new)>(order: seq<K>, keys: set<K>)
    requires forall k :: k in order ==> k in keys
    ensures Keep(order, keys) == order
  {
    if order != [] { KeepAll(order[1..], keys); }
  }

  lemma {:induction false} KeepSame<K(!new)>(order: seq<K>, a: set<K>, b: set<K>)
    requires forall k :: k in order ==> (k in a <==> k in b)
    ensures Keep(order, a) == Keep(order, b)
  {
    if order != [] { KeepSame(order[1..], a, b); }
  }

  lemma {:induction false} KeepTwice<K(!new)>(order: seq<K>, a: set<K>, b: set<K>)
    ensures Keep(Keep(order, a), b) == Keep(order, a * b)
  {
    if order != [] {
      KeepTwice(order[1..], a, b);
      if order[0] in a {
        assert Keep(order, a)[1..] == Keep(order[1..], a);
      } else {
        assert Keep(order, a) == Keep(order[1..], a);
      }
    }
  }

  /** Dropping one key is keeping all others. */
  lemma {:induction false} WithoutIsKeep<K(!new)>(order: seq<K>, all: set<K>, k: K)
    requires Lists(order, all)
    ensures Without(order, k) == Keep(order, all - {k})
  {
    WithoutIsKeepDistinct(order, k, all - {k});
  }

  lemma {:induction false} WithoutIsKeepDistinct<K(!new)>(order: seq<K>, k: K, others: set<K>)
    requires NoDuplicates(order)
    requires forall x :: x in order ==> (x in others <==> x != k)
    ensures Without(order, k) == Keep(order, others)
  {
    if order == [] {
    } else if order[0] == k {
      assert IndexOf(order, k) == 0;
      assert Without(order, k) == order[1..];
      KeepAll(order[1..], others);
    } else {
      WithoutIsKeepDistinct(order[1..], k, others);
      if k in order {
        var i := IndexOf(order[1..], k);
        assert order == [order[0]] + order[1..];
        assert IndexOf(order, k) == i + 1;
        assert RemoveIndex(order, i + 1) == [order[0]] + RemoveIndex(order[1..], i);
      } else {
        assert Without(order, k) == [order[0]] + order[1..];
      }
    }
  }

  lemma KeepThenWithout<K(!new)>(order: seq<K>, all: set<K>, keys: set<K>, k: K)
    requires Lists(order, all)
    ensures Without(Keep(order, keys), k) == Keep(order, keys - {k})
  {
    KeepLists(order, all, keys);
    WithoutIsKeep(Keep(order, keys), all * keys, k);
    KeepTwice(order, keys, all * keys - {k});
    KeepSame(order, keys * (all * keys - {k}), keys - {k});
  }

  lemma {:induction false} SumKeepMonotone<K(!new)>(order: seq<K>, few: set<K>, many: set<K>, w: map<K, nat>)
    requires few <= many && forall k :: k in order ==> k in w
    ensures forall k :: k in Keep(order, few) || k in Keep(order, many) ==> k in w
    ensures Sum(Keep(order, few), w) <= Sum(Keep(order, many), w)
    ensures |Keep(order, few)| <= |Keep(order, many)|
  {
    KeepMembers(order, few);
    KeepMembers(order, many);
    if order != [] {
      SumKeepMonotone(order[1..], few, many, w);
      SumKeepHead(order, few, w);
      SumKeepHead(order, many, w);
    }
  }

  lemma {:induction false} SumKeepHead<K(!new)>(order: seq<K>, keys: set<K>, w: map<K, nat>)
    requires order != [] && forall k :: k in order ==> k in w
    ensures forall k :: k in Keep(order, keys) || k in Keep(order[1..], keys) ==> k in w
    ensures Sum(Keep(order, keys), w) == (if order[0] in keys then w[order[0]] else 0) + Sum(Keep(order[1..], keys), w)
  {
    KeepMembers(order, keys);
    KeepMembers(order[1..], keys);
    if order[0] in keys {
      assert Keep(order, keys)[1..] == Keep(order[1..], keys);
    } else {
      assert Keep(order, keys) == Keep(order[1..], keys);
    }
  }

  // ---- reading an order from a hand on, once around ----

  function Turned<K>(order: seq<K>, hand: nat): (t: seq<K>)
    requires hand <= |order|
    ensures |t| == |order|
  {
    order[hand..] + order[..hand]
  }

  lemma TurnedMembers<K(!new)>(order: seq<K>, hand: nat)
    requires hand <= |order|
    ensures forall k :: k in Turned(order, hand) <==> k in order
  {
    assert order == order[..hand] + order[hand..];
  }

  lemma TurnedDistinct<K(!new)>(order: seq<K>, hand: nat)
    requires NoDuplicates(order) && hand <= |order|
    ensures NoDuplicates(Turned(order, hand))
  {
    var t := Turned(order, hand);
    forall i, j | 0 <= i < j < |t| ensures t[i] != t[j] {
      var n := |order| - hand;
      assert t[i] == order[if i < n then hand + i else i - n];
      assert t[j] == order[if j < n then hand + j else j - n];
    }
  }

  /** The hand's next position. */
  function Stepped(n: nat, hand: nat): (h: nat)
    requires hand < n
    ensures h < n
  {
    if hand + 1 == n then 0 else hand + 1
  }

  lemma SteppedIsModular(n: nat, hand: nat)
    requires hand < n
    ensures Stepped(n, hand) == (hand + 1) % n
  {
  }

  lemma TurnedAdvance<K>(order: seq<K>, hand: nat)
    requires hand < |order|
    ensures Turned(order, Stepped(|order|, hand)) == Turned(order, hand)[1..] + [order[hand]]
  {
    if hand + 1 == |order| {
      assert Turned(order, 0) == order == order[..hand] + [order[hand]];
      assert Turned(order, hand)[1..] == order[..hand];
    } else {
      assert order[..hand + 1] == order[..hand] + [order[hand]];
      assert order[hand..] == [order[hand]] + order[hand + 1..];
    }
  }

  /** Where the hand goes when the key at index i leaves an order of n keys. */
  function HandAfterRemoval(n: nat, hand: nat, i: nat): nat
    requires i < n && hand < n
  {
    var wrapped := if hand >= n - 1 && n > 1 then 0 else hand;
    if i < wrapped then wrapped - 1 else wrapped
  }

  lemma TurnedRemoval<K>(order: seq<K>, hand: nat)
    requires hand < |order|
    ensures var hand' := HandAfterRemoval(|order|, hand, hand);
            hand' <= |order| - 1 && Turned(RemoveIndex(order, hand), hand') == Turned(order, hand)[1..]
  {
  }

  // ---- trimming from the front ----

  predicate SuffixFits<K(==,!new)>(order: seq<K>, weight: map<K, nat>, maxCount: int, maxSum: int)
    requires forall k :: k in order ==> k in weight
  {
    |order| <= maxCount && Sum(order, weight) <= maxSum
  }

  /** How many of the oldest keys must go: the least number whose removal makes the rest fit. */
  function Overflow<K(==,!new)>(order: seq<K>, weight: map<K, nat>, maxCount: int, maxSum: int): (n: nat)
    requires forall k :: k in order ==> k in weight
    ensures n <= |order|
    ensures n == |order| || SuffixFits(order[n..], weight, maxCount, maxSum)
    ensures forall j :: 0 <= j < n ==> !SuffixFits(order[j..], weight, maxCount, maxSum)
  {
    if order == [] || SuffixFits(order, weight, maxCount, maxSum) then
      assert order[0..] == order;
      0
    else
      var n := Overflow(order[1..], weight, maxCount, maxSum);
      assert order[1..][n..] == order[n + 1..];
      assert forall j :: 0 < j < n + 1 ==> order[j..] == order[1..][j - 1..];
      assert order[0..] == order;
      n + 1
  }

  function Members<K(==)>(order: seq<K>): set<K> {
    set i | 0 <= i < |order| :: order[i]
  }

  /** In a duplicate-free order, keeping the members of a suffix is taking that suffix. */
  lemma {:induction false} KeepSuffix<K(!new)>(order: seq<K>, n: nat)
    requires NoDuplicates(order) && n <= |order|
    ensures Keep(order, Members(order[n..])) == order[n..]
  {
    if n == 0 {
      KeepAll(order, Members(order[0..]));
      assert order[0..] == order;
    } else {
      var t := order[1..];
      assert forall i :: 0 <= i < |t| ==> t[i] == order[i + 1];
      KeepSuffix(t, n - 1);
      assert t[n - 1..] == order[n..];
      assert order[0] !in Members(order[n..]);
    }
  }

  /** Summing over the kept keys is summing with every other weight masked out. */
  lemma {:induction false} SumKeepIsMasked<K(!new)>(order: seq<K>, keys: set<K>, w: map<K, nat>, masked: map<K, nat>)
    requires forall k :: k in order ==> k in w && k in masked && masked[k] == if k in keys then w[k] else 0
    ensures forall k :: k in Keep(order, keys) ==> k in w
    ensures Sum(Keep(order, keys), w) == Sum(order, masked)
  {
    KeepMembers(order, keys);
    if order != [] {
      SumKeepIsMasked(order[1..], keys, w, masked);
      SumKeepHead(order, keys, w);
    }
  }

  lemma {:induction false} CountKeepIsMasked<K(!new)>(order: seq<K>, keys: set<K>, masked: map<K, nat>)
    requires forall k :: k in order ==> k in masked && masked[k] == if k in keys then 1 else 0
    ensures |Keep(order, keys)| == Sum(order, masked)
  {
    if order != [] { CountKeepIsMasked(order[1..], keys, masked); }
  }

  /** While a suffix is too heavy, the next key must go too. */
  lemma OverflowStep<K(!new)>(order: seq<K>, w: map<K, nat>, maxCount: int, maxSum: int, n: nat)
    requires NoDuplicates(order) && forall k :: k in order ==> k in w
    requires maxCount >= 0 && maxSum >= 0
    requires n <= Overflow(order, w, maxCount, maxSum) && !SuffixFits(order[n..], w, maxCount, maxSum)
    ensures n < |order| && n + 1 <= Overflow(order, w, maxCount, maxSum)
    ensures Members(order[n..]) - {order[n]} == Members(order[n + 1..])
  {
    assert order[|order|..] == [];
    assert order[n..] == [order[n]] + order[n + 1..];
    forall x | x in Members(order[n + 1..]) ensures x in Members(order[n..]) - {order[n]} {
      var i :| 0 <= i < |order[n + 1..]| && order[n + 1..][i] == x;
      assert order[n..][i + 1] == x;
    }
  }

  lemma OverflowDone<K(!new)>(order: seq<K>, w: map<K, nat>, maxCount: int, maxSum: int, n: nat)
    requires forall k :: k in order ==> k in w
    requires n <= Overflow(order, w, maxCount, maxSum) && SuffixFits(order[n..], w, maxCount, maxSum)
    ensures n == Overflow(order, w, maxCount, maxSum)
  {
  }
}
