/** The resident tier as a value: which pages are held, in clock order, and where the hand stands.
    The counters kept by the hierarchy are sums over this value. */
module Residents {
  import L = Listing
  import C = ClockRing
  import opened Pages

  datatype Policy = Policy(
    maxResidentPages: int, maxResidentBytes: int, maxPinnedPages: int, maxPinnedBytes: int, maxPageBytes: int,
    maxGhostEntries: int, maxGhostBytes: int, maxShadowEntries: int, maxShadowBytes: int, shadowUseHorizon: nat)
  {
    /** Limits that can hold the resident and pinned invariants at all. */
    predicate Valid() {
      && maxResidentPages > 0 && maxResidentBytes > 0 && maxPinnedPages >= 0 && maxPinnedBytes >= 0
      && maxPageBytes > 0 && maxGhostEntries >= 0 && maxGhostBytes >= 0 && maxShadowEntries >= 0
      && maxShadowBytes >= 0
      && maxPinnedPages <= maxResidentPages && maxPinnedBytes <= maxResidentBytes
      && maxPageBytes <= maxResidentBytes
    }

    function Caps(): C.Limits {
      C.Limits(maxResidentPages, maxResidentBytes)
    }
  }

  datatype Entry = Entry(page: Page, state: C.ResidentState, ref: bool, realUses: nat, materialized: bool)

  datatype Residents = Residents(entries: map<string, Entry>, order: seq<string>, hand: nat)

  /** The three things counted along the order. */
  datatype Measure = AllBytes | PinBytes | PinCount

  function Weight(e: Entry, m: Measure): nat {
    match m
    case AllBytes => e.page.Size()
    case PinBytes => if e.state == C.Pinned then e.page.Size() else 0
    case PinCount => if e.state == C.Pinned then 1 else 0
  }

  function Weights(entries: map<string, Entry>, m: Measure): map<string, nat> {
    map id | id in entries :: Weight(entries[id], m)
  }

  ghost predicate WellFormed(r: Residents) {
    && L.Lists(r.order, r.entries.Keys)
    && (if r.order == [] then r.hand == 0 else r.hand < |r.order|)
    && (forall id :: id in r.entries ==> r.entries[id].page.id == id)
  }

  function Total(r: Residents, m: Measure): nat
    requires WellFormed(r)
  {
    L.Sum(r.order, Weights(r.entries, m))
  }

  /** Every cap on residents holds. */
  ghost predicate WithinCaps(r: Residents, policy: Policy)
    requires WellFormed(r)
  {
    && |r.order| <= policy.maxResidentPages && Total(r, AllBytes) <= policy.maxResidentBytes
    && PinnedWithinCaps(r, policy)
  }

  ghost predicate PinnedWithinCaps(r: Residents, policy: Policy)
    requires WellFormed(r)
  {
    Total(r, PinCount) <= policy.maxPinnedPages && Total(r, PinBytes) <= policy.maxPinnedBytes
  }

  // ---- elementary changes ----

  function Removed(r: Residents, id: string): Residents
    requires WellFormed(r)
  {
    if id !in r.entries then r
    else
      var i := L.IndexOf(r.order, id);
      Residents(r.entries - {id}, L.RemoveIndex(r.order, i), L.HandAfterRemoval(|r.order|, r.hand, i))
  }

  function Updated(r: Residents, id: string, e: Entry): Residents {
    r.(entries := r.entries[id := e])
  }

  function Inserted(r: Residents, e: Entry): Residents {
    r.(entries := r.entries[e.page.id := e], order := r.order + [e.page.id])
  }

  lemma RemovedWellFormed(r: Residents, id: string)
    requires WellFormed(r) && id in r.entries
    ensures WellFormed(Removed(r, id))
    ensures Removed(r, id).entries.Keys == r.entries.Keys - {id}
    ensures Removed(r, id).order == L.Without(r.order, id)
    ensures |Removed(r, id).order| == |r.order| - 1
  {
    L.WithoutLists(r.order, r.entries.Keys, id);
  }

  lemma RemovedTotal(r: Residents, id: string, m: Measure)
    requires WellFormed(r) && id in r.entries
    ensures WellFormed(Removed(r, id))
    ensures Total(Removed(r, id), m) == Total(r, m) - Weight(r.entries[id], m)
  {
    RemovedWellFormed(r, id);
    L.SumWithout(r.order, r.entries.Keys, id, Weights(r.entries, m), Weights(Removed(r, id).entries, m));
  }

  lemma RemovedAbsent(r: Residents, id: string)
    requires WellFormed(r) && id !in r.entries
    ensures Removed(r, id) == r
  {
  }

  /** Everything a removal does to the order, the hand and the counters. */
  lemma RemovalFacts(r: Residents, id: string)
    requires WellFormed(r) && id in r.entries
    ensures id in r.order && r.hand < |r.order|
    ensures var i := L.IndexOf(r.order, id);
            Removed(r, id) == Residents(r.entries - {id}, L.RemoveIndex(r.order, i), L.HandAfterRemoval(|r.order|, r.hand, i))
    ensures WellFormed(Removed(r, id))
    ensures forall m :: Total(Removed(r, id), m) == Total(r, m) - Weight(r.entries[id], m)
  {
    RemovedWellFormed(r, id);
    forall m ensures Total(Removed(r, id), m) == Total(r, m) - Weight(r.entries[id], m) {
      RemovedTotal(r, id, m);
    }
  }

  lemma UpdatedTotal(r: Residents, id: string, e: Entry, m: Measure)
    requires WellFormed(r) && id in r.entries && e.page.id == id
    ensures WellFormed(Updated(r, id, e)) && Updated(r, id, e).entries.Keys == r.entries.Keys
    ensures Total(Updated(r, id, e), m) == Total(r, m) - Weight(r.entries[id], m) + Weight(e, m)
  {
    hide Page.Size, L.Lists, L.Sum;
    assert Updated(r, id, e).entries.Keys == r.entries.Keys;
    L.SumUpdate(r.order, r.entries.Keys, id, Weights(r.entries, m), Weights(Updated(r, id, e).entries, m));
  }

  lemma InsertedTotal(r: Residents, e: Entry, m: Measure)
    requires WellFormed(r) && e.page.id !in r.entries
    ensures WellFormed(Inserted(r, e)) && Inserted(r, e).entries.Keys == r.entries.Keys + {e.page.id}
    ensures Total(Inserted(r, e), m) == Total(r, m) + Weight(e, m)
  {
    assert Inserted(r, e).entries.Keys == r.entries.Keys + {e.page.id};
    L.SumExtend(r.order, r.entries.Keys, e.page.id, Weights(r.entries, m), Weights(Inserted(r, e).entries, m));
  }

  /** Removing another page leaves the hand on its page exactly when the hand is not at the end of
      the order, or the removed page is ahead of a hand that cannot wrap; from the last position the
      hand is sent to the front instead. */
  lemma RemovalMovesHandOnlyFromTheEnd(r: Residents, id: string)
    requires WellFormed(r) && id in r.entries && r.order[r.hand] != id
    ensures var r' := Removed(r, id);
            && r'.hand < |r'.order|
            && (r'.order[r'.hand] == r.order[r.hand] <==> (r.hand + 1 < |r.order| || |r.order| == 2))
            && (r.hand + 1 == |r.order| ==> r'.hand == 0)
  {
    var i := L.IndexOf(r.order, id);
    var r' := Removed(r, id);
    var n := |r.order|;
    assert i != r.hand;
    if r.hand + 1 == n {
      assert r'.order[0] == r.order[if i == 0 then 1 else 0];
    }
  }

  // ---- the ring the hand walks ----

  function SlotOf(e: Entry): C.Slot {
    C.Slot(e.page.id, e.state, e.ref, e.page.Size())
  }

  function Slots(order: seq<string>, entries: map<string, Entry>): seq<C.Slot>
    requires forall id :: id in order ==> id in entries
  {
    if order == [] then [] else [SlotOf(entries[order[0]])] + Slots(order[1..], entries)
  }

  function Ring(r: Residents): seq<C.Slot>
    requires WellFormed(r)
  {
    L.TurnedMembers(r.order, r.hand);
    Slots(L.Turned(r.order, r.hand), r.entries)
  }

  lemma {:induction false} SlotsAppend(a: seq<string>, b: seq<string>, entries: map<string, Entry>)
    requires forall id :: id in a || id in b ==> id in entries
    ensures Slots(a + b, entries) == Slots(a, entries) + Slots(b, entries)
  {
    if a == [] {
      assert a + b == b;
    } else {
      assert (a + b)[1..] == a[1..] + b && (a + b)[0] == a[0];
      SlotsAppend(a[1..], b, entries);
    }
  }

  lemma {:induction false} SlotsAgree(order: seq<string>, e: map<string, Entry>, e': map<string, Entry>)
    requires forall id :: id in order ==> id in e && id in e' && SlotOf(e[id]) == SlotOf(e'[id])
    ensures Slots(order, e) == Slots(order, e')
  {
    if order != [] { SlotsAgree(order[1..], e, e'); }
  }

  lemma {:induction false} SlotsAt(order: seq<string>, entries: map<string, Entry>)
    requires forall id :: id in order ==> id in entries
    ensures |Slots(order, entries)| == |order|
    ensures forall i :: 0 <= i < |order| ==> Slots(order, entries)[i] == SlotOf(entries[order[i]])
  {
    if order != [] {
      SlotsAt(order[1..], entries);
      forall i | 0 <= i < |order| ensures Slots(order, entries)[i] == SlotOf(entries[order[i]]) {
        if i > 0 { assert order[i] == order[1..][i - 1]; }
      }
    }
  }

  lemma RingDistinct(r: Residents)
    requires WellFormed(r)
    ensures C.Distinct(Ring(r)) && |Ring(r)| == |r.order|
  {
    L.TurnedDistinct(r.order, r.hand);
    L.TurnedMembers(r.order, r.hand);
    SlotsAt(L.Turned(r.order, r.hand), r.entries);
  }

  /** A slot of the ring is the slot of the resident it names. */
  lemma RingMember(r: Residents, s: C.Slot)
    requires WellFormed(r) && s in Ring(r)
    ensures s.id in r.entries && s == SlotOf(r.entries[s.id])
  {
    var t := L.Turned(r.order, r.hand);
    L.TurnedMembers(r.order, r.hand);
    SlotsAt(t, r.entries);
    var i :| 0 <= i < |Ring(r)| && Ring(r)[i] == s;
    assert t[i] in r.order;
  }

  lemma ResidentInRing(r: Residents, id: string)
    requires WellFormed(r) && id in r.entries
    ensures SlotOf(r.entries[id]) in Ring(r)
  {
    var t := L.Turned(r.order, r.hand);
    L.TurnedMembers(r.order, r.hand);
    SlotsAt(t, r.entries);
    assert Ring(r)[L.IndexOf(t, id)] == SlotOf(r.entries[id]);
  }

  /** A ring measured the way the counters measure the order. */
  function Measured(q: seq<C.Slot>, m: Measure): nat {
    match m
    case AllBytes => C.Bytes(q)
    case PinBytes => C.Bytes(C.PinnedOnly(q))
    case PinCount => |C.PinnedOnly(q)|
  }

  lemma MeasuredAppend(a: seq<C.Slot>, b: seq<C.Slot>, m: Measure)
    ensures Measured(a + b, m) == Measured(a, m) + Measured(b, m)
  {
    C.PinnedOnlyAppend(a, b);
    match m
    case AllBytes => C.BytesAppend(a, b);
    case PinBytes => C.BytesAppend(C.PinnedOnly(a), C.PinnedOnly(b));
    case PinCount =>
  }

  lemma {:induction false} SlotsWeigh(order: seq<string>, entries: map<string, Entry>, m: Measure)
    requires forall id :: id in order ==> id in entries
    ensures Measured(Slots(order, entries), m) == L.Sum(order, Weights(entries, m))
  {
    if order != [] {
      SlotsWeigh(order[1..], entries, m);
      var h := SlotOf(entries[order[0]]);
      MeasuredAppend([h], Slots(order[1..], entries), m);
      assert C.PinnedOnly([h]) == if h.state == C.Pinned then [h] else [];
      assert C.Bytes([h]) == h.size;
    }
  }

  /** What the ring weighs is what the counters say. */
  lemma RingWeighs(r: Residents, m: Measure)
    requires WellFormed(r)
    ensures Measured(Ring(r), m) == Total(r, m)
  {
    hide Page.Size, L.Sum, Measured;
    var a, b := r.order[r.hand..], r.order[..r.hand];
    L.TurnedMembers(r.order, r.hand);
    SlotsWeigh(a + b, r.entries, m);
    assert r.order == b + a;
    L.SumAppend(a, b, Weights(r.entries, m));
    L.SumAppend(b, a, Weights(r.entries, m));
  }

  /** Leaving the slot under the hand aged and stepping on is a visit that evicts nothing. */
  lemma AdvanceIsVisit(r: Residents, e: Entry)
    requires WellFormed(r) && |r.order| > 0
    requires var u := r.entries[r.order[r.hand]];
             C.Need(SlotOf(u)) != 1 && SlotOf(e) == C.Aged(SlotOf(u)) && e.page.id == u.page.id
    ensures var r' := Updated(r, r.order[r.hand], e).(hand := L.Stepped(|r.order|, r.hand));
            WellFormed(r') && Ring(r') == C.Visit(Ring(r)) && Ring(r) != []
  {
    hide Page.Size, L.Sum;
    var id := r.order[r.hand];
    UpdatedTotal(r, id, e, AllBytes);
    var r' := Updated(r, id, e).(hand := L.Stepped(|r.order|, r.hand));
    var t := L.Turned(r.order, r.hand);
    L.TurnedMembers(r.order, r.hand);
    L.TurnedDistinct(r.order, r.hand);
    L.TurnedAdvance(r.order, r.hand);
    assert t[0] == id;
    SlotsAppend(t[1..], [id], r'.entries);
    assert Slots([id], r'.entries) == [SlotOf(e)];
    forall x | x in t[1..] ensures x in r.entries && x != id {
      assert x in t;
    }
    SlotsAgree(t[1..], r.entries, r'.entries);
  }

  /** Removing the page under the hand is a visit that evicts it. */
  lemma EvictIsVisit(r: Residents)
    requires WellFormed(r) && |r.order| > 0
    requires C.Need(SlotOf(r.entries[r.order[r.hand]])) == 1
    ensures var r' := Removed(r, r.order[r.hand]);
            WellFormed(r') && Ring(r) != [] && Ring(r') == C.Visit(Ring(r))
  {
    var id := r.order[r.hand];
    var r' := Removed(r, id);
    var t := L.Turned(r.order, r.hand);
    assert t[0] == id;
    RemovedWellFormed(r, id);
    assert L.IndexOf(r.order, id) == r.hand;
    L.TurnedRemoval(r.order, r.hand);
    L.TurnedMembers(r.order, r.hand);
    L.TurnedMembers(r'.order, r'.hand);
    SlotsAgree(t[1..], r.entries, r'.entries);
  }

  // ---- the whole sweep ----

  /** r' is r after one capacity sweep: the ring is the swept ring, the victims have left the order
      and nothing but state and reference bits has changed in the entries that stayed. */
  ghost predicate SweptTo(r: Residents, r': Residents, caps: C.Limits)
    requires WellFormed(r) && C.Fits(C.PinnedOnly(Ring(r)), caps)
  {
    var s := C.Sweep(Ring(r), caps);
    && WellFormed(r')
    && Ring(r') == s.ring
    && r'.entries.Keys == r.entries.Keys - C.IdSet(s.victims)
    && r'.order == L.Keep(r.order, r'.entries.Keys)
    && SamePages(r, r')
  }

  ghost predicate SamePages(r: Residents, r': Residents) {
    forall id :: id in r'.entries ==>
      && id in r.entries
      && r'.entries[id] == r.entries[id].(state := r'.entries[id].state, ref := r'.entries[id].ref)
  }

  lemma RingFixesHandAndBits(a: Residents, b: Residents)
    requires WellFormed(a) && WellFormed(b) && a.order == b.order && Ring(a) == Ring(b)
    ensures a.hand == b.hand
    ensures forall id :: id in a.order ==> SlotOf(a.entries[id]) == SlotOf(b.entries[id])
  {
    var ta, tb := L.Turned(a.order, a.hand), L.Turned(b.order, b.hand);
    L.TurnedMembers(a.order, a.hand);
    L.TurnedMembers(b.order, b.hand);
    SlotsAt(ta, a.entries);
    SlotsAt(tb, b.entries);
    forall i | 0 <= i < |ta|
      ensures ta[i] == tb[i] && SlotOf(a.entries[ta[i]]) == SlotOf(b.entries[ta[i]])
    {
      assert ta[i] in ta && tb[i] in tb;
      assert Ring(a)[i] == SlotOf(a.entries[ta[i]]);
      assert Ring(b)[i] == SlotOf(b.entries[tb[i]]);
    }
    if a.order != [] {
      assert ta[0] == a.order[a.hand] && tb[0] == b.order[b.hand];
    }
  }

  /** The sweep is determined: there is one tier it can leave. */
  lemma SweptToIsUnique(r: Residents, a: Residents, b: Residents, caps: C.Limits)
    requires WellFormed(r) && C.Fits(C.PinnedOnly(Ring(r)), caps)
    requires SweptTo(r, a, caps) && SweptTo(r, b, caps)
    ensures a == b
  {
    hide Page.Size, L.Keep, C.Sweep, C.Fits;
    RingFixesHandAndBits(a, b);
    assert a.entries.Keys == b.entries.Keys;
    forall id | id in a.entries ensures a.entries[id] == b.entries[id] {
      assert SlotOf(a.entries[id]) == SlotOf(b.entries[id]);
    }
  }
}
