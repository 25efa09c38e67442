/** The replacement clock as the hand sees it. */
module ClockRing {

  // A ring of slots, the slot under the hand first.  One visit rotates the ring, ages the slot under
  // the hand, or drops it.  The sweep is defined one visit at a time and then given its closed form:
  // which slots go, in which order, and what the ring looks like afterwards.

  datatype ResidentState = Cold | Hot | Pinned

  datatype Slot = Slot(id: string, state: ResidentState, ref: bool, size: nat)

  datatype Limits = Limits(pages: int, bytes: int)

  /** How many visits the hand needs to evict a slot; 0 stands for never. */
  function Need(s: Slot): nat {
    match s.state
    case Pinned => 0
    case Cold => if s.ref then 2 else 1
    case Hot => if s.ref then 3 else 2
  }

  /** What one visit does to a slot it does not evict. */
  function Aged(s: Slot): Slot {
    if s.state == Pinned then s
    else if s.ref then s.(ref := false)
    else s.(state := Cold)
  }

  function AgedBy(s: Slot, visits: nat): Slot
    decreases visits
  {
    if visits == 0 then s else AgedBy(Aged(s), visits - 1)
  }

  function Bytes(q: seq<Slot>): nat {
    if q == [] then 0 else q[0].size + Bytes(q[1..])
  }

  ghost predicate Distinct(q: seq<Slot>) {
    forall i, j :: 0 <= i < j < |q| ==> q[i].id != q[j].id
  }

  predicate Fits(q: seq<Slot>, lim: Limits) {
    |q| <= lim.pages && Bytes(q) <= lim.bytes
  }

  /** The pinned slots, the floor below which no eviction can go. */
  function PinnedOnly(q: seq<Slot>): seq<Slot> {
    if q == [] then []
    else (if q[0].state == Pinned then [q[0]] else []) + PinnedOnly(q[1..])
  }

  /** One visit: the pinned and the not-yet-due slot go to the back, the due one is dropped. */
  function Visit(q: seq<Slot>): seq<Slot>
    requires |q| > 0
  {
    if Need(q[0]) == 1 then q[1..] else q[1..] + [Aged(q[0])]
  }

  function NeedSum(q: seq<Slot>): nat {
    if q == [] then 0 else Need(q[0]) + NeedSum(q[1..])
  }

  /** Visits before the hand reaches an unpinned slot. */
  function PinnedRun(q: seq<Slot>): nat
    ensures PinnedRun(q) <= |q|
  {
    if q == [] || q[0].state != Pinned then 0 else 1 + PinnedRun(q[1..])
  }

  datatype SweepResult = SweepResult(ring: seq<Slot>, victims: seq<string>)

  lemma {:induction false} NeedSumAppend(a: seq<Slot>, b: seq<Slot>)
    ensures NeedSum(a + b) == NeedSum(a) + NeedSum(b)
  {
    if a == [] {
      assert a + b == b;
    } else {
      assert (a + b)[1..] == a[1..] + b;
      NeedSumAppend(a[1..], b);
    }
  }

  lemma {:induction false} BytesAppend(a: seq<Slot>, b: seq<Slot>)
    ensures Bytes(a + b) == Bytes(a) + Bytes(b)
  {
    if a == [] {
      assert a + b == b;
    } else {
      assert (a + b)[1..] == a[1..] + b;
      BytesAppend(a[1..], b);
    }
  }

  lemma Associates<T>(a: seq<T>, b: seq<T>, c: seq<T>)
    ensures (a + b) + c == a + (b + c)
  {
  }

  lemma {:induction false} PinnedOnlyAppend(a: seq<Slot>, b: seq<Slot>)
    ensures PinnedOnly(a + b) == PinnedOnly(a) + PinnedOnly(b)
  {
    if a == [] {
      assert a + b == b;
    } else {
      var h := if a[0].state == Pinned then [a[0]] else [];
      assert PinnedOnly(a + b) == h + PinnedOnly(a[1..] + b) by {
        assert (a + b)[1..] == a[1..] + b && (a + b)[0] == a[0];
      }
      PinnedOnlyAppend(a[1..], b);
      Associates(h, PinnedOnly(a[1..]), PinnedOnly(b));
    }
  }

  lemma PinnedRunAppend(a: seq<Slot>, b: seq<Slot>)
    requires PinnedRun(a) < |a|
    ensures PinnedRun(a + b) == PinnedRun(a)
  {
    assert (a + b)[0] == a[0];
    if a[0].state == Pinned {
      assert (a + b)[1..] == a[1..] + b;
      PinnedRunAppend(a[1..], b);
    }
  }

  lemma AllPinned(q: seq<Slot>)
    requires PinnedRun(q) == |q|
    ensures PinnedOnly(q) == q
  {
    if q != [] { AllPinned(q[1..]); }
  }

  /** Every visit makes progress: it spends a visit some slot needed, or it passes a pinned slot on
      the way to an unpinned one.  It keeps the pinned floor. */
  lemma VisitProgress(q: seq<Slot>)
    requires |q| > 0 && PinnedRun(q) < |q|
    ensures NeedSum(Visit(q)) < NeedSum(q) || (NeedSum(Visit(q)) == NeedSum(q) && PinnedRun(Visit(q)) < PinnedRun(q))
    ensures |PinnedOnly(Visit(q))| == |PinnedOnly(q)| && Bytes(PinnedOnly(Visit(q))) == Bytes(PinnedOnly(q))
  {
    var h, t := q[0], q[1..];
    NeedSumAppend(t, [Aged(h)]);
    PinnedOnlyAppend(t, [Aged(h)]);
    assert PinnedOnly([Aged(h)]) == if h.state == Pinned then [h] else [];
    if h.state == Pinned {
      PinnedRunAppend(t, [h]);
      BytesAppend(PinnedOnly(t), [h]);
      BytesAppend([h], PinnedOnly(t));
    } else {
      assert PinnedOnly(t) + [] == PinnedOnly(t) == [] + PinnedOnly(t);
    }
  }

  /** Visit until the ring fits.  Needs only that the pinned floor fits. */
  function Sweep(q: seq<Slot>, lim: Limits): SweepResult
    requires Fits(PinnedOnly(q), lim)
    decreases NeedSum(q), PinnedRun(q)
  {
    if Fits(q, lim) then SweepResult(q, [])
    else
      assert PinnedRun(q) < |q| by { if PinnedRun(q) == |q| { AllPinned(q); } }
      VisitProgress(q);
      var rest := Sweep(Visit(q), lim);
      if Need(q[0]) == 1 then SweepResult(rest.ring, [q[0].id] + rest.victims) else rest
  }

  // ---- which slots go, and in which order ----

  /** The slots that need exactly n visits, in ring order. */
  function NeedingIds(q: seq<Slot>, n: nat): seq<string> {
    if q == [] then []
    else (if Need(q[0]) == n then [q[0].id] else []) + NeedingIds(q[1..], n)
  }

  /** Unpinned slots ordered by (visits needed, distance from the hand). */
  function EvictionOrder(q: seq<Slot>): seq<string> {
    NeedingIds(q, 1) + NeedingIds(q, 2) + NeedingIds(q, 3)
  }

  /** The ring without some slots. */
  function Without(q: seq<Slot>, gone: set<string>): seq<Slot> {
    if q == [] then []
    else (if q[0].id in gone then [] else [q[0]]) + Without(q[1..], gone)
  }

  function IdSet(s: seq<string>): set<string> {
    set i | 0 <= i < |s| :: s[i]
  }

  lemma {:induction false} NeedingIdsAppend(a: seq<Slot>, b: seq<Slot>, n: nat)
    ensures NeedingIds(a + b, n) == NeedingIds(a, n) + NeedingIds(b, n)
  {
    if a == [] {
      assert a + b == b;
    } else {
      var h := if Need(a[0]) == n then [a[0].id] else [];
      assert NeedingIds(a + b, n) == h + NeedingIds(a[1..] + b, n) by {
        assert (a + b)[1..] == a[1..] + b && (a + b)[0] == a[0];
      }
      NeedingIdsAppend(a[1..], b, n);
      Associates(h, NeedingIds(a[1..], n), NeedingIds(b, n));
    }
  }

  lemma {:induction false} WithoutAppend(a: seq<Slot>, b: seq<Slot>, gone: set<string>)
    ensures Without(a + b, gone) == Without(a, gone) + Without(b, gone)
  {
    if a == [] {
      assert a + b == b;
    } else {
      var h := if a[0].id in gone then [] else [a[0]];
      assert Without(a + b, gone) == h + Without(a[1..] + b, gone) by {
        assert (a + b)[1..] == a[1..] + b && (a + b)[0] == a[0];
      }
      WithoutAppend(a[1..], b, gone);
      Associates(h, Without(a[1..], gone), Without(b, gone));
    }
  }

  lemma {:induction false} WithoutAbsent(q: seq<Slot>, gone: set<string>, x: string)
    requires forall s :: s in q ==> s.id != x
    ensures Without(q, gone + {x}) == Without(q, gone)
  {
    if q != [] {
      assert q[0] in q;
      forall s | s in q[1..] ensures s.id != x { assert s in q; }
      WithoutAbsent(q[1..], gone, x);
    }
  }

  lemma WithoutNothing(q: seq<Slot>)
    ensures Without(q, {}) == q
  {
    if q != [] { WithoutNothing(q[1..]); }
  }

  lemma TailAvoidsHead(q: seq<Slot>)
    requires |q| > 0 && Distinct(q)
    ensures Distinct(q[1..])
    ensures forall s :: s in q[1..] ==> s.id != q[0].id
  {
    forall s | s in q[1..] ensures s.id != q[0].id {
      var i :| 0 <= i < |q[1..]| && q[1..][i] == s;
      assert q[i + 1] == s;
    }
  }

  lemma VisitDistinct(q: seq<Slot>)
    requires |q| > 0 && Distinct(q)
    ensures Distinct(Visit(q))
  {
    TailAvoidsHead(q);
    var t := q[1..];
    forall i, j | 0 <= i < j < |Visit(q)| ensures Visit(q)[i].id != Visit(q)[j].id {
      assert i < |t| && Visit(q)[i] == t[i];
      if j < |t| { assert Visit(q)[j] == t[j]; } else { assert t[i] in t; }
    }
  }

  /** A visit never changes the eviction order of the slots still in the ring; when it evicts, it
      evicts the first of that order. */
  lemma VisitKeepsOrder(q: seq<Slot>)
    requires |q| > 0
    ensures EvictionOrder(q) == (if Need(q[0]) == 1 then [q[0].id] else []) + EvictionOrder(Visit(q))
  {
    hide NeedingIds;
    var h, t := q[0], q[1..];
    NeedingAcrossVisit(q, 1);
    NeedingAcrossVisit(q, 2);
    NeedingAcrossVisit(q, 3);
    var n1, n2, n3 := NeedingIds(t, 1), NeedingIds(t, 2), NeedingIds(t, 3);
    match Need(h)
    case 0 =>
    case 1 => assert [h.id] + n1 + n2 + n3 == [h.id] + (n1 + n2 + n3);
    case 2 => assert n1 + ([h.id] + n2) + n3 == (n1 + [h.id]) + n2 + n3;
    case _ => assert n1 + n2 + ([h.id] + n3) == n1 + (n2 + [h.id]) + n3;
  }

  lemma NeedingAcrossVisit(q: seq<Slot>, n: nat)
    requires |q| > 0
    ensures NeedingIds(q, n) == (if Need(q[0]) == n then [q[0].id] else []) + NeedingIds(q[1..], n)
    ensures Need(q[0]) != 1 ==> NeedingIds(Visit(q), n) == NeedingIds(q[1..], n) + if Need(Aged(q[0])) == n then [q[0].id] else []
  {
    NeedingIdsAppend(q[1..], [Aged(q[0])], n);
    assert [Aged(q[0])][1..] == [];
    assert NeedingIds([Aged(q[0])], n) == if Need(Aged(q[0])) == n then [q[0].id] else [];
  }

  /** Leaving out a set of slots weighs the same before and after a visit. */
  lemma VisitKeepsLoad(q: seq<Slot>, gone: set<string>)
    requires |q| > 0 && Distinct(q)
    ensures Need(q[0]) != 1 ==> |Without(Visit(q), gone)| == |Without(q, gone)|
    ensures Need(q[0]) != 1 ==> Bytes(Without(Visit(q), gone)) == Bytes(Without(q, gone))
    ensures Need(q[0]) == 1 ==> Without(Visit(q), gone) == Without(q, gone + {q[0].id})
  {
    var h, t := q[0], q[1..];
    TailAvoidsHead(q);
    if Need(h) == 1 {
      WithoutAbsent(t, gone, h.id);
      assert Without(q, gone + {h.id}) == [] + Without(t, gone + {h.id});
    } else {
      var a := Aged(h);
      WithoutAppend(t, [a], gone);
      assert a.id == h.id && a.size == h.size;
      assert Without([a], gone) == (if h.id in gone then [] else [a]) + Without([], gone);
      if h.id !in gone {
        BytesAppend(Without(t, gone), [a]);
        BytesAppend([h], Without(t, gone));
        assert Without([a], gone) == [a];
      } else {
        assert Without(t, gone) + [] == Without(t, gone) == [] + Without(t, gone);
      }
    }
  }

  lemma IdSetCons(x: string, s: seq<string>)
    ensures IdSet([x] + s) == IdSet(s) + {x}
  {
    assert forall i :: 0 <= i < |s| ==> ([x] + s)[i + 1] == s[i];
    forall y | y in IdSet(s) ensures y in IdSet([x] + s) {
      var i :| 0 <= i < |s| && s[i] == y;
      assert ([x] + s)[i + 1] == y;
    }
    assert ([x] + s)[0] == x;
  }

  lemma IdSetSnoc(s: seq<string>, x: string)
    ensures IdSet(s + [x]) == IdSet(s) + {x}
  {
    forall y | y in IdSet(s) + {x} ensures y in IdSet(s + [x]) {
      if y == x {
        assert (s + [x])[|s|] == y;
      } else {
        var i :| 0 <= i < |s| && s[i] == y;
        assert (s + [x])[i] == y;
      }
    }
  }

  /** What is left of the ring once the first k slots of the eviction order are gone. */
  function AfterEvicting(q: seq<Slot>, k: nat): seq<Slot>
    requires k <= |EvictionOrder(q)|
  {
    Without(q, IdSet(EvictionOrder(q)[..k]))
  }

  /** The sweep evicts exactly the shortest prefix of the eviction order that makes the rest fit. */
  ghost predicate ShortestPrefix(q: seq<Slot>, lim: Limits, victims: seq<string>) {
    var k := |victims|;
    && k <= |EvictionOrder(q)|
    && victims == EvictionOrder(q)[..k]
    && Fits(AfterEvicting(q, k), lim)
    && forall j :: 0 <= j < k ==> !Fits(AfterEvicting(q, j), lim)
  }

  lemma PrefixAcrossEviction(q: seq<Slot>, lim: Limits, rest: seq<string>)
    requires |q| > 0 && Distinct(q) && Need(q[0]) == 1 && !Fits(q, lim) && ShortestPrefix(Visit(q), lim, rest)
    ensures ShortestPrefix(q, lim, [q[0].id] + rest)
  {
    hide Fits, EvictionOrder, IdSet;
    var h, v := q[0].id, Visit(q);
    var order, order' := EvictionOrder(q), EvictionOrder(v);
    VisitKeepsOrder(q);
    forall j | 0 <= j <= |order'|
      ensures AfterEvicting(q, j + 1) == AfterEvicting(v, j)
    {
      assert order[..j + 1] == [h] + order'[..j];
      IdSetCons(h, order'[..j]);
      VisitKeepsLoad(q, IdSet(order'[..j]));
    }
    assert order[..|rest| + 1] == [h] + order'[..|rest|];
    EvictingNone(q);
    forall j | 0 <= j < |rest| + 1
      ensures !Fits(AfterEvicting(q, j), lim)
    {
      if j > 0 { assert AfterEvicting(q, (j - 1) + 1) == AfterEvicting(v, j - 1); }
    }
    assert AfterEvicting(q, |rest| + 1) == AfterEvicting(v, |rest|);
  }

  lemma EvictingNone(q: seq<Slot>)
    ensures AfterEvicting(q, 0) == q
  {
    WithoutNothing(q);
    assert IdSet(EvictionOrder(q)[..0]) == {};
  }

  lemma PrefixAcrossPass(q: seq<Slot>, lim: Limits, rest: seq<string>)
    requires |q| > 0 && Distinct(q) && Need(q[0]) != 1 && ShortestPrefix(Visit(q), lim, rest)
    ensures ShortestPrefix(q, lim, rest)
  {
    hide EvictionOrder, IdSet;
    VisitKeepsOrder(q);
    var order := EvictionOrder(q);
    assert order == EvictionOrder(Visit(q));
    forall j | 0 <= j <= |order|
      ensures Fits(AfterEvicting(q, j), lim) == Fits(AfterEvicting(Visit(q), j), lim)
    {
      VisitKeepsLoad(q, IdSet(order[..j]));
    }
  }

  lemma {:induction false} SweepEvictsShortestPrefix(q: seq<Slot>, lim: Limits)
    requires Distinct(q) && Fits(PinnedOnly(q), lim)
    ensures var k := |Sweep(q, lim).victims|;
            && k <= |EvictionOrder(q)|
            && Sweep(q, lim).victims == EvictionOrder(q)[..k]
            && Fits(AfterEvicting(q, k), lim)
            && forall j :: 0 <= j < k ==> !Fits(AfterEvicting(q, j), lim)
    decreases NeedSum(q), PinnedRun(q)
  {
    SweepTakesShortestPrefix(q, lim);
  }

  lemma {:induction false} SweepTakesShortestPrefix(q: seq<Slot>, lim: Limits)
    requires Distinct(q) && Fits(PinnedOnly(q), lim)
    ensures ShortestPrefix(q, lim, Sweep(q, lim).victims)
    decreases NeedSum(q), PinnedRun(q)
  {
    if Fits(q, lim) {
      EvictingNone(q);
    } else {
      hide ShortestPrefix, Distinct, EvictionOrder;
      if PinnedRun(q) == |q| { AllPinned(q); }
      VisitProgress(q);
      VisitDistinct(q);
      SweepTakesShortestPrefix(Visit(q), lim);
      var rest := Sweep(Visit(q), lim).victims;
      if Need(q[0]) == 1 {
        PrefixAcrossEviction(q, lim, rest);
      } else {
        PrefixAcrossPass(q, lim, rest);
      }
    }
  }

  // ---- what the ring looks like afterwards ----

  function AgedAll(q: seq<Slot>, visits: nat): seq<Slot> {
    if q == [] then [] else [AgedBy(q[0], visits)] + AgedAll(q[1..], visits)
  }

  lemma {:induction false} AgedAllAppend(a: seq<Slot>, b: seq<Slot>, visits: nat)
    ensures AgedAll(a + b, visits) == AgedAll(a, visits) + AgedAll(b, visits)
  {
    if a == [] {
      assert a + b == b;
    } else {
      assert (a + b)[1..] == a[1..] + b && (a + b)[0] == a[0];
      AgedAllAppend(a[1..], b, visits);
    }
  }

  lemma {:induction false} AgedAllZero(q: seq<Slot>)
    ensures AgedAll(q, 0) == q
  {
    if q != [] { AgedAllZero(q[1..]); }
  }

  /** Victims come from the ring, and none of them is pinned. */
  lemma {:induction false} VictimsComeFromRing(q: seq<Slot>, lim: Limits, x: string)
    requires Fits(PinnedOnly(q), lim)
    requires x in Sweep(q, lim).victims
    ensures exists s :: s in q && s.id == x && s.state != Pinned
    decreases NeedSum(q), PinnedRun(q)
  {
    if PinnedRun(q) == |q| { AllPinned(q); }
    VisitProgress(q);
    if Need(q[0]) == 1 && x == q[0].id {
      assert q[0] in q;
    } else {
      VictimsComeFromRing(Visit(q), lim, x);
      var s :| s in Visit(q) && s.id == x && s.state != Pinned;
      assert s in q[1..] || s == Aged(q[0]);
      assert if s in q[1..] then s in q else q[0] in q && q[0].id == x && q[0].state != Pinned;
    }
  }

  /** The swept ring fits and has lost nothing that was pinned. */
  lemma {:induction false} SweepFitsAndKeepsPins(q: seq<Slot>, lim: Limits)
    requires Fits(PinnedOnly(q), lim)
    ensures Fits(Sweep(q, lim).ring, lim)
    ensures |PinnedOnly(Sweep(q, lim).ring)| == |PinnedOnly(q)|
    ensures Bytes(PinnedOnly(Sweep(q, lim).ring)) == Bytes(PinnedOnly(q))
    decreases NeedSum(q), PinnedRun(q)
  {
    if !Fits(q, lim) {
      if PinnedRun(q) == |q| { AllPinned(q); }
      VisitProgress(q);
      SweepFitsAndKeepsPins(Visit(q), lim);
    }
  }

  // ---- how long until something goes ----

  /** Visits until the slot at distance j is evicted, if nothing else is evicted first. */
  function VisitsDue(q: seq<Slot>, j: nat): nat
    requires j < |q| && Need(q[j]) > 0
  {
    (Need(q[j]) - 1) * |q| + j + 1
  }

  lemma {:induction false} FirstUnpinned(q: seq<Slot>)
    requires PinnedRun(q) < |q|
    ensures Need(q[PinnedRun(q)]) > 0
  {
    if q[0].state == Pinned {
      FirstUnpinned(q[1..]);
      assert q[1..][PinnedRun(q[1..])] == q[PinnedRun(q)];
    }
  }

  function NextIndex(q: seq<Slot>, j: nat): nat
    requires j < |q|
  {
    if j == 0 then |q| - 1 else j - 1
  }

  lemma DueWithinThreeRounds(q: seq<Slot>, j: nat)
    requires j < |q| && Need(q[j]) > 0
    ensures 1 <= VisitsDue(q, j) <= 3 * |q|
  {
  }

  /** Every visit that evicts nothing brings each unpinned slot one visit closer, so within 3n visits
      something goes. */
  lemma VisitBringsCloser(q: seq<Slot>, j: nat)
    requires j < |q| && Need(q[j]) > 0 && Need(q[0]) != 1
    ensures Need(Visit(q)[NextIndex(q, j)]) > 0
    ensures VisitsDue(Visit(q), NextIndex(q, j)) == VisitsDue(q, j) - 1
  {
    var v := Visit(q);
    assert |v| == |q|;
    if j == 0 {
      assert v[|q| - 1] == Aged(q[0]);
    } else {
      assert v[j - 1] == q[j];
    }
  }

  /** Both sides of the last victim, aged by the visits they have had. */
  function Settled(q: seq<Slot>, gone: set<string>, j: nat): seq<Slot>
    requires j < |q| && Need(q[j]) > 0
  {
    AgedAll(Without(q[j + 1..], gone), Need(q[j]) - 1) + AgedAll(Without(q[..j], gone), Need(q[j]))
  }

  /** A survivor's visits are counted the same whether it is seen before or after its own visit. */
  lemma SettledAcrossVisit(q: seq<Slot>, gone: set<string>, j: nat)
    requires 0 < j < |q| && Need(q[j]) > 0 && Need(q[0]) != 1
    ensures Settled(q, gone, j) == Settled(Visit(q), gone, j - 1)
  {
    var h, t, n := q[0], q[1..], Need(q[j]);
    var v := Visit(q);
    assert v[j..] == q[j + 1..] + [Aged(h)];
    assert v[..j - 1] == q[1..j];
    assert q[..j] == [h] + q[1..j];
    WithoutAppend(q[j + 1..], [Aged(h)], gone);
    WithoutAppend([h], q[1..j], gone);
    AgedAllAppend(Without(q[j + 1..], gone), Without([Aged(h)], gone), n - 1);
    AgedAllAppend(Without([h], gone), Without(q[1..j], gone), n);
    assert Without([h], gone) == if h.id in gone then [] else [h];
    assert Without([Aged(h)], gone) == if h.id in gone then [] else [Aged(h)];
    assert AgedAll(Without([Aged(h)], gone), n - 1) == AgedAll(Without([h], gone), n);
    Associates(AgedAll(Without(q[j + 1..], gone), n - 1), AgedAll(Without([h], gone), n), AgedAll(Without(q[1..j], gone), n));
  }

  lemma SettledAcrossEviction(q: seq<Slot>, gone: set<string>, j: nat)
    requires 0 < j < |q| && Need(q[j]) > 0 && Need(q[0]) == 1 && Distinct(q)
    ensures Settled(q, gone + {q[0].id}, j) == Settled(Visit(q), gone, j - 1)
  {
    var h, t := q[0], q[1..];
    TailAvoidsHead(q);
    forall s | s in q[j + 1..] || s in q[1..j] ensures s.id != h.id { assert s in t; }
    WithoutAbsent(q[j + 1..], gone, h.id);
    WithoutAbsent(q[1..j], gone, h.id);
    var v := Visit(q);
    assert v == t && v[j - 1] == q[j];
    assert v[j - 1 + 1..] == q[j + 1..] && v[..j - 1] == q[1..j];
    assert q[..j] == [h] + q[1..j];
    WithoutAppend([h], q[1..j], gone + {h.id});
    assert Without([h], gone + {h.id}) == [];
    assert Without(q[..j], gone + {h.id}) == Without(v[..j - 1], gone);
    assert Without(q[j + 1..], gone + {h.id}) == Without(v[j - 1 + 1..], gone);
  }

  /** The slot under the hand is the last victim and goes now: the rest is untouched. */
  lemma SettledAtDueHead(q: seq<Slot>)
    requires |q| > 0 && Need(q[0]) == 1 && Distinct(q)
    ensures Settled(q, {q[0].id}, 0) == q[1..]
  {
    var t := q[1..];
    TailAvoidsHead(q);
    WithoutAbsent(t, {}, q[0].id);
    WithoutNothing(t);
    AgedAllZero(t);
    assert {} + {q[0].id} == {q[0].id};
  }

  /** The slot under the hand is the last victim but not yet due: the hand comes back to it once
      every other slot has had as many visits less one. */
  lemma SettledAtHead(q: seq<Slot>, gone: set<string>)
    requires |q| > 0 && Need(q[0]) > 1
    ensures Settled(q, gone, 0) == Settled(Visit(q), gone, |q| - 1)
  {
    var t := q[1..];
    var v := Visit(q);
    assert v[|t| + 1..] == [] && v[..|t|] == t && v[|t|] == Aged(q[0]);
  }

  lemma NoVictimsMeansFits(q: seq<Slot>, lim: Limits)
    requires Distinct(q) && Fits(PinnedOnly(q), lim)
    ensures Sweep(q, lim).victims == [] <==> Fits(q, lim)
  {
    SweepEvictsShortestPrefix(q, lim);
    WithoutNothing(q);
    assert IdSet(EvictionOrder(q)[..0]) == {};
  }

  lemma LastVictimAcrossEviction(q: seq<Slot>, lim: Limits, j: nat)
    requires Distinct(q) && Fits(PinnedOnly(q), lim) && !Fits(q, lim) && |q| > 0 && Need(q[0]) == 1
    requires Fits(PinnedOnly(Visit(q)), lim)
    requires var vs := [q[0].id] + Sweep(Visit(q), lim).victims; j < |q| && q[j].id == vs[|vs| - 1]
    ensures var rest := Sweep(Visit(q), lim).victims;
            (j == 0) == (rest == []) && (j > 0 ==> Visit(q)[j - 1].id == rest[|rest| - 1])
  {
    hide Sweep;
    var rest := Sweep(Visit(q), lim).victims;
    TailAvoidsHead(q);
    if rest != [] {
      VictimsComeFromRing(Visit(q), lim, rest[|rest| - 1]);
    }
  }

  /** The swept ring in closed form.  With the last victim at distance j from the hand, needing n
      visits, the slots after it come first, aged n - 1 times, then those before it, aged n times. */
  lemma {:induction false} SweepSettlesRing(q: seq<Slot>, lim: Limits, j: nat)
    requires Distinct(q) && Fits(PinnedOnly(q), lim)
    requires Sweep(q, lim).victims != []
    requires var vs := Sweep(q, lim).victims; j < |q| && q[j].id == vs[|vs| - 1]
    ensures Need(q[j]) > 0
    ensures Sweep(q, lim).ring == Settled(q, IdSet(Sweep(q, lim).victims), j)
    decreases NeedSum(q), PinnedRun(q)
  {
    hide Distinct, Settled;
    if PinnedRun(q) == |q| { AllPinned(q); }
    VisitProgress(q);
    VisitDistinct(q);
    var v := Visit(q);
    if Need(q[0]) == 1 {
      LastVictimAcrossEviction(q, lim, j);
      if j > 0 { SweepSettlesRing(v, lim, j - 1); }
      SettlesEvicting(q, lim, j);
    } else {
      var i := if j > 0 then j - 1 else |q| - 1;
      assert v[i].id == q[j].id;
      SweepSettlesRing(v, lim, i);
      SettlesPassing(q, IdSet(Sweep(v, lim).victims), j);
    }
  }

  lemma SettlesEvicting(q: seq<Slot>, lim: Limits, j: nat)
    requires Distinct(q) && Fits(PinnedOnly(q), lim) && !Fits(q, lim) && |q| > 0 && Need(q[0]) == 1
    requires Fits(PinnedOnly(Visit(q)), lim) && j < |q|
    requires (j == 0) == (Sweep(Visit(q), lim).victims == [])
    requires j > 0 ==> Need(Visit(q)[j - 1]) > 0 && Sweep(Visit(q), lim).ring == Settled(Visit(q), IdSet(Sweep(Visit(q), lim).victims), j - 1)
    ensures Need(q[j]) > 0
    ensures Sweep(Visit(q), lim).ring == Settled(q, IdSet([q[0].id] + Sweep(Visit(q), lim).victims), j)
  {
    hide Sweep, Settled, Distinct;
    var v, rest := Visit(q), Sweep(Visit(q), lim).victims;
    IdSetCons(q[0].id, rest);
    if j == 0 {
      VisitDistinct(q);
      NoVictimsMeansFits(v, lim);
      FittingStays(v, lim);
      assert IdSet(rest) == {} && IdSet([q[0].id] + rest) == {q[0].id};
      SettledAtDueHead(q);
    } else {
      SettledAcrossEviction(q, IdSet(rest), j);
    }
  }

  lemma FittingStays(q: seq<Slot>, lim: Limits)
    requires Fits(PinnedOnly(q), lim) && Fits(q, lim)
    ensures Sweep(q, lim).ring == q
  {
  }

  lemma SettlesPassing(q: seq<Slot>, gone: set<string>, j: nat)
    requires Distinct(q) && j < |q| && Need(q[0]) != 1
    requires var i := if j > 0 then j - 1 else |q| - 1; i < |Visit(q)| && Need(Visit(q)[i]) > 0
    ensures Need(q[j]) > 0
    ensures Settled(q, gone, j) == Settled(Visit(q), gone, if j > 0 then j - 1 else |q| - 1)
  {
    hide Settled, Distinct;
    if j > 0 {
      SettledAcrossVisit(q, gone, j);
    } else {
      SettledAtHead(q, gone);
    }
  }
}
