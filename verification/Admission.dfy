/** Admission as a value: who may enter, what the entry looks like, and when there is room. */
module Admission {
  import L = Listing
  import C = ClockRing
  import opened Pages
  import opened Residents

  datatype Mode = Demand | ColdOnly | Pin | LegacyHot | LegacyWarm

  datatype Error = InvalidPage | PageTooLarge | TupleMismatch | PinnedCapacity | CapacityExceeded | NotResident

  datatype Option<T> = None | Some(value: T)

  /** A demand may replace a resident of another identity, but only a stale one. */
  predicate ReplacesStale(r: Residents, p: Page, mode: Mode) {
    && p.id in r.entries && r.entries[p.id].page.Tuple() != p.Tuple()
    && mode.Demand? && r.entries[p.id].page.stale
  }

  predicate IdentityAllowed(r: Residents, p: Page, mode: Mode) {
    p.id !in r.entries || r.entries[p.id].page.Tuple() == p.Tuple() || ReplacesStale(r, p, mode)
  }

  predicate WasPinned(r: Residents, id: string) {
    id in r.entries && r.entries[id].state == C.Pinned
  }

  predicate TargetPinned(r: Residents, p: Page, mode: Mode) {
    mode.Pin? || (WasPinned(r, p.id) && !ReplacesStale(r, p, mode))
  }

  function OldSize(r: Residents, id: string): nat {
    if id in r.entries then r.entries[id].page.Size() else 0
  }

  // ---- room ----

  function Unpinned(r: Residents): set<string> {
    set id | id in r.entries && r.entries[id].state != C.Pinned
  }

  /** What some of the residents weigh. */
  ghost function KeptTotal(r: Residents, keys: set<string>, m: Measure): nat
    requires WellFormed(r)
  {
    L.KeepMembers(r.order, keys);
    L.Sum(L.Keep(r.order, keys), Weights(r.entries, m))
  }

  ghost predicate Room(r: Residents, gone: set<string>, p: Page, pinned: bool, policy: Policy)
    requires WellFormed(r)
  {
    var kept := r.entries.Keys - {p.id} - gone;
    && |L.Keep(r.order, kept)| + 1 <= policy.maxResidentPages
    && KeptTotal(r, kept, AllBytes) + p.Size() <= policy.maxResidentBytes
    && KeptTotal(r, kept, PinCount) + (if pinned then 1 else 0) <= policy.maxPinnedPages
    && KeptTotal(r, kept, PinBytes) + (if pinned then p.Size() else 0) <= policy.maxPinnedBytes
  }

  /** Some choice of unpinned victims makes room for the page among the others. */
  ghost predicate Feasible(r: Residents, p: Page, pinned: bool, policy: Policy)
    requires WellFormed(r)
  {
    exists gone: set<string> :: gone <= Unpinned(r) && Room(r, gone, p, pinned, policy)
  }

  /** Pinned pages and bytes if the page were in place, as the counters give them. */
  function PinsAfter(r: Residents, p: Page, pinned: bool): nat
    requires WellFormed(r)
  {
    OthersPinned(r, p.id, PinCount) + (if pinned then 1 else 0)
  }

  function PinBytesAfter(r: Residents, p: Page, pinned: bool): nat
    requires WellFormed(r)
  {
    OthersPinned(r, p.id, PinBytes) + (if pinned then p.Size() else 0)
  }

  function OthersPinned(r: Residents, id: string, m: Measure): nat
    requires WellFormed(r)
  {
    if id in r.entries then
      L.SumAtLeast(r.order, id, Weights(r.entries, m));
      Total(r, m) - Weight(r.entries[id], m)
    else Total(r, m)
  }

  /** The pins of the page set alone. */
  predicate PinsFit(r: Residents, p: Page, pinned: bool, policy: Policy)
    requires WellFormed(r)
  {
    PinsAfter(r, p, pinned) <= policy.maxPinnedPages && PinBytesAfter(r, p, pinned) <= policy.maxPinnedBytes
  }

  /** The floor no eviction can go below: the pinned pages, and this page. */
  predicate FloorFits(r: Residents, p: Page, pinned: bool, policy: Policy)
    requires WellFormed(r)
  {
    && PinsAfter(r, p, pinned) + (if pinned then 0 else 1) <= policy.maxResidentPages
    && PinBytesAfter(r, p, pinned) + (if pinned then 0 else p.Size()) <= policy.maxResidentBytes
  }

  lemma OthersMasked(r: Residents, id: string, w: map<string, nat>, m: Measure)
    requires WellFormed(r) && r.entries.Keys <= w.Keys
    requires forall x :: x in r.entries ==> w[x] == if x == id then 0 else Weight(r.entries[x], m)
    ensures L.Sum(r.order, w) == OthersPinned(r, id, m)
  {
    if id in r.entries {
      L.SumUpdate(r.order, r.entries.Keys, id, Weights(r.entries, m), w);
    } else {
      L.SumAgrees(r.order, Weights(r.entries, m), w);
    }
  }

  /** With any unpinned victims gone, the pinned pages still weigh what the counters say. */
  lemma KeptPins(r: Residents, gone: set<string>, id: string, m: Measure)
    requires WellFormed(r) && gone <= Unpinned(r) && m != AllBytes
    ensures KeptTotal(r, r.entries.Keys - {id} - gone, m) == OthersPinned(r, id, m)
  {
    var keys := r.entries.Keys - {id} - gone;
    var masked := map x | x in r.entries :: if x in keys then Weight(r.entries[x], m) else 0;
    L.SumKeepIsMasked(r.order, keys, Weights(r.entries, m), masked);
    OthersMasked(r, id, masked, m);
  }

  /** With every unpinned page gone, what is left is exactly the pinned pages. */
  lemma FloorIsPinned(r: Residents, id: string)
    requires WellFormed(r)
    ensures var keys := r.entries.Keys - {id} - Unpinned(r);
            && |L.Keep(r.order, keys)| == OthersPinned(r, id, PinCount)
            && KeptTotal(r, keys, AllBytes) == OthersPinned(r, id, PinBytes)
  {
    FloorCount(r, id);
    FloorBytes(r, id);
  }

  lemma FloorCount(r: Residents, id: string)
    requires WellFormed(r)
    ensures |L.Keep(r.order, r.entries.Keys - {id} - Unpinned(r))| == OthersPinned(r, id, PinCount)
  {
    hide Page.Size, L.Sum, L.Keep;
    var keys := r.entries.Keys - {id} - Unpinned(r);
    var ones := map x | x in r.entries :: if x in keys then 1 else 0;
    L.CountKeepIsMasked(r.order, keys, ones);
    OthersMasked(r, id, ones, PinCount);
  }

  lemma FloorBytes(r: Residents, id: string)
    requires WellFormed(r)
    ensures KeptTotal(r, r.entries.Keys - {id} - Unpinned(r), AllBytes) == OthersPinned(r, id, PinBytes)
  {
    hide Page.Size, L.Sum, L.Keep;
    var keys := r.entries.Keys - {id} - Unpinned(r);
    var bytes := map x | x in r.entries :: if x in keys then r.entries[x].page.Size() else 0;
    L.SumKeepIsMasked(r.order, keys, Weights(r.entries, AllBytes), bytes);
    OthersMasked(r, id, bytes, PinBytes);
  }

  /** The counter arithmetic decides feasibility exactly: evicting everything unpinned is the best
      any victims can do. */
  lemma FloorDecidesFeasibility(r: Residents, p: Page, pinned: bool, policy: Policy)
    requires WellFormed(r)
    ensures Feasible(r, p, pinned, policy) <==> PinsFit(r, p, pinned, policy) && FloorFits(r, p, pinned, policy)
  {
    var all := Unpinned(r);
    FloorIsPinned(r, p.id);
    KeptPins(r, all, p.id, PinCount);
    KeptPins(r, all, p.id, PinBytes);
    if PinsFit(r, p, pinned, policy) && FloorFits(r, p, pinned, policy) {
      assert Room(r, all, p, pinned, policy);
    }
    if Feasible(r, p, pinned, policy) {
      var gone: set<string> :| gone <= Unpinned(r) && Room(r, gone, p, pinned, policy);
      KeptPins(r, gone, p.id, PinCount);
      KeptPins(r, gone, p.id, PinBytes);
      L.SumKeepMonotone(r.order, r.entries.Keys - {p.id} - all, r.entries.Keys - {p.id} - gone, Weights(r.entries, AllBytes));
    }
  }

  // ---- the entry ----

  /** The entry of a page that was not resident; a demand that hits its own ghost starts hot. */
  function NewEntry(p: Page, mode: Mode, refault: bool): Entry {
    match mode
    case Demand => Entry(p, if refault then C.Hot else C.Cold, true, 1, p.Materialized())
    case ColdOnly => Entry(p, C.Cold, false, 0, p.Materialized())
    case LegacyWarm => Entry(p, C.Cold, false, 0, p.Materialized())
    case Pin => Entry(p, C.Pinned, true, 0, p.Materialized())
    case LegacyHot => Entry(p, C.Hot, true, 0, p.Materialized())
  }

  predicate SecondUse(e: Entry) {
    e.state == C.Cold && e.realUses + 1 >= 2
  }

  /** The entry of a resident that is admitted again. */
  function Refreshed(e: Entry, p: Page, mode: Mode): Entry {
    var e := e.(page := p, materialized := p.Materialized());
    match mode
    case Demand => e.(page := p.(accessCount := p.accessCount + 1), realUses := e.realUses + 1, ref := true,
                      state := if SecondUse(e) then C.Hot else e.state)
    case ColdOnly => e
    case LegacyWarm => if e.state == C.Pinned then e else e.(state := C.Cold, ref := false)
    case Pin => e.(state := C.Pinned, ref := true)
    case LegacyHot => if e.state == C.Pinned then e.(ref := true) else e.(state := C.Hot, ref := true)
  }

  /** The resident tier with the page in place, before any eviction. */
  function Placed(r: Residents, p: Page, mode: Mode, refault: bool): Residents
    requires WellFormed(r)
  {
    var base := if ReplacesStale(r, p, mode) then Removed(r, p.id) else r;
    if p.id in base.entries then Updated(base, p.id, Refreshed(base.entries[p.id], p, mode))
    else Inserted(base, NewEntry(p, mode, refault))
  }

  lemma NewEntrySize(p: Page, mode: Mode, refault: bool)
    ensures NewEntry(p, mode, refault).page == p
    ensures forall e :: Refreshed(e, p, mode).page.id == p.id && Refreshed(e, p, mode).page.Size() == p.Size()
  {
  }

  lemma PlacedWellFormed(r: Residents, p: Page, mode: Mode, refault: bool)
    requires WellFormed(r)
    ensures WellFormed(Placed(r, p, mode, refault))
    ensures Placed(r, p, mode, refault).entries.Keys == r.entries.Keys + {p.id}
    ensures Placed(r, p, mode, refault).entries[p.id].page.Size() == p.Size()
  {
    hide Page.Size, L.Lists, L.Sum, L.RemoveIndex, WellFormed;
    NewEntrySize(p, mode, refault);
    if ReplacesStale(r, p, mode) {
      RemovedWellFormed(r, p.id);
      InsertedTotal(Removed(r, p.id), NewEntry(p, mode, refault), AllBytes);
    } else if p.id in r.entries {
      UpdatedTotal(r, p.id, Refreshed(r.entries[p.id], p, mode), AllBytes);
    } else {
      InsertedTotal(r, NewEntry(p, mode, refault), AllBytes);
    }
  }

  /** What the tier weighs with the page in place. */
  lemma PlacedTotal(r: Residents, p: Page, mode: Mode, refault: bool, m: Measure)
    requires WellFormed(r)
    ensures WellFormed(Placed(r, p, mode, refault))
    ensures Total(Placed(r, p, mode, refault), m)
         == OthersPinned(r, p.id, m) + Weight(Placed(r, p, mode, refault).entries[p.id], m)
    ensures WasPinned(Placed(r, p, mode, refault), p.id) == TargetPinned(r, p, mode)
  {
    hide Page.Size, L.Lists, L.Sum, L.RemoveIndex, WellFormed, Total;
    PlacedWellFormed(r, p, mode, refault);
    NewEntrySize(p, mode, refault);
    if ReplacesStale(r, p, mode) {
      RemovedTotal(r, p.id, m);
      InsertedTotal(Removed(r, p.id), NewEntry(p, mode, refault), m);
    } else if p.id in r.entries {
      UpdatedTotal(r, p.id, Refreshed(r.entries[p.id], p, mode), m);
    } else {
      InsertedTotal(r, NewEntry(p, mode, refault), m);
    }
  }

  /** When the pins fit, the sweep that follows has a floor to stand on. */
  lemma PlacedCanBeSwept(r: Residents, p: Page, mode: Mode, refault: bool, policy: Policy)
    requires WellFormed(r) && policy.Valid()
    requires PinsFit(r, p, TargetPinned(r, p, mode), policy)
    ensures WellFormed(Placed(r, p, mode, refault))
    ensures PinnedWithinCaps(Placed(r, p, mode, refault), policy)
    ensures C.Fits(C.PinnedOnly(Ring(Placed(r, p, mode, refault))), policy.Caps())
  {
    hide Page.Size, Placed, L.Lists, L.Sum, Total, Ring, OthersPinned;
    PlacedTotal(r, p, mode, refault, PinCount);
    PlacedTotal(r, p, mode, refault, PinBytes);
    PlacedWellFormed(r, p, mode, refault);
    RingWeighs(Placed(r, p, mode, refault), PinCount);
    RingWeighs(Placed(r, p, mode, refault), PinBytes);
  }
}
