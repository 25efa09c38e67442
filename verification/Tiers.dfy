/** The whole hierarchy as a value, and each of its operations as a step on that value.  What every
    operation keeps is one predicate over the residents, the ghosts and the shadows, and each step is
    shown to keep it; the object that updates its fields in place is proved against these steps. */
module Tiers {
  import L = Listing
  import C = ClockRing
  import opened Pages
  import opened Residents
  import opened Estimators
  import opened Admission

  datatype Tiers = Tiers(
    residents: Residents, ghosts: Ghosts, shadows: Shadows, tick: nat, useTick: nat, age: nat, refaultDistance: nat)

  ghost predicate ResidentsValid(r: Residents, policy: Policy) {
    && WellFormed(r) && WithinCaps(r, policy)
    && forall id :: id in r.entries ==> id != "" && r.entries[id].page.Size() <= policy.maxPageBytes
  }

  /** Everything the hierarchy promises about its tiers between operations. */
  ghost predicate TiersValid(t: Tiers, policy: Policy) {
    && policy.Valid()
    && ResidentsValid(t.residents, policy)
    && GhostsValid(t.ghosts, policy, t.age)
    && ShadowsValid(t.shadows, policy, t.useTick)
  }

  // ---- clocks ----

  function Ticked(t: Tiers): Tiers {
    t.(tick := t.tick + 1)
  }

  /** A real use or demand of a page: the use clock moves, old shadows expire, its own turn useful. */
  function Demanded(t: Tiers, p: Page, policy: Policy): Tiers {
    t.(useTick := t.useTick + 1, shadows := MarkedUseful(Expired(t.shadows, t.useTick + 1, policy), p))
  }

  // ---- eviction ----

  function VictimPages(r: Residents, victims: seq<string>): seq<Page>
    requires forall id :: id in victims ==> id in r.entries
  {
    if victims == [] then []
    else VictimPages(r, victims[..|victims| - 1]) + [r.entries[victims[|victims| - 1]].page]
  }

  /** The ghosts after some pages were evicted one after the other, and the eviction clock. */
  function Haunted(g: Ghosts, age: nat, pages: seq<Page>, tick: nat, useTick: nat, policy: Policy): (h: (Ghosts, nat))
    requires policy.Valid() && GhostsValid(g, policy, age)
    ensures GhostsValid(h.0, policy, h.1)
    ensures h.1 == age + |pages|
  {
    if pages == [] then (g, age)
    else
      var (g1, age1) := Haunted(g, age, pages[..|pages| - 1], tick, useTick, policy);
      GhostAddedValid(g1, pages[|pages| - 1], tick, useTick, age1, policy);
      (GhostAdded(g1, pages[|pages| - 1], tick, useTick, age1, policy), age1 + 1)
  }

  /** A visit that evicts nothing, on the entry under the hand. */
  function AgedEntry(e: Entry): Entry {
    if e.state == C.Pinned then e
    else if e.ref then e.(ref := false)
    else e.(state := C.Cold)
  }

  function UnderHand(r: Residents): (id: string)
    requires WellFormed(r) && |r.order| > 0
    ensures id in r.entries && r.hand < |r.order| && id == r.order[r.hand] && r.entries[id].page.id == id
  {
    assert r.order[r.hand] in r.order;
    r.order[r.hand]
  }

  function ScannedOver(r: Residents): Residents
    requires WellFormed(r) && |r.order| > 0
  {
    Updated(r, UnderHand(r), AgedEntry(r.entries[UnderHand(r)])).(hand := L.Stepped(|r.order|, r.hand))
  }

  predicate DueNow(r: Residents)
    requires WellFormed(r) && |r.order| > 0
  {
    r.entries[UnderHand(r)].state == C.Cold && !r.entries[UnderHand(r)].ref
  }

  function Scanned(r: Residents): Residents
    requires WellFormed(r) && |r.order| > 0
  {
    if DueNow(r) then Removed(r, UnderHand(r)) else ScannedOver(r)
  }

  /** One scan of the tier is one visit of the ring. */
  lemma ScanIsVisit(r: Residents)
    requires WellFormed(r) && |r.order| > 0
    ensures WellFormed(Scanned(r)) && Ring(r) != [] && Ring(Scanned(r)) == C.Visit(Ring(r))
    ensures DueNow(r) <==> C.Need(Ring(r)[0]) == 1
    ensures Ring(r)[0] == SlotOf(r.entries[UnderHand(r)])
  {
    var t := L.Turned(r.order, r.hand);
    L.TurnedMembers(r.order, r.hand);
    SlotsAt(t, r.entries);
    assert t[0] == UnderHand(r);
    if DueNow(r) {
      EvictIsVisit(r);
    } else {
      AdvanceIsVisit(r, AgedEntry(r.entries[UnderHand(r)]));
    }
  }

  /** Part way through a sweep: r is what r0 has become after the pages in gone were evicted. */
  ghost predicate SweepingFrom(r0: Residents, r: Residents, gone: seq<string>, caps: C.Limits) {
    && WellFormed(r0) && WellFormed(r)
    && C.Fits(C.PinnedOnly(Ring(r0)), caps) && C.Fits(C.PinnedOnly(Ring(r)), caps)
    && C.Sweep(Ring(r0), caps) == C.SweepResult(C.Sweep(Ring(r), caps).ring, gone + C.Sweep(Ring(r), caps).victims)
    && LeftBehind(r0, r, gone)
  }

  ghost predicate LeftBehind(r0: Residents, r: Residents, gone: seq<string>) {
    && r.entries.Keys == r0.entries.Keys - C.IdSet(gone)
    && r.order == L.Keep(r0.order, r.entries.Keys)
    && SamePages(r0, r)
  }

  lemma SweepBegins(r: Residents, caps: C.Limits)
    requires WellFormed(r) && C.Fits(C.PinnedOnly(Ring(r)), caps)
    ensures SweepingFrom(r, r, [], caps)
  {
    L.KeepAll(r.order, r.entries.Keys);
    assert C.IdSet([]) == {};
    assert [] + C.Sweep(Ring(r), caps).victims == C.Sweep(Ring(r), caps).victims;
  }

  lemma ScanLeavesBehind(r0: Residents, r: Residents, gone: seq<string>)
    requires WellFormed(r0) && WellFormed(r) && |r.order| > 0 && LeftBehind(r0, r, gone)
    ensures WellFormed(Scanned(r))
    ensures LeftBehind(r0, Scanned(r), if DueNow(r) then gone + [UnderHand(r)] else gone)
  {
    hide L.Lists, L.Sum, L.Without, L.Keep;
    var id := UnderHand(r);
    if DueNow(r) {
      RemovalFacts(r, id);
      RemovedWellFormed(r, id);
      C.IdSetSnoc(gone, id);
      L.KeepThenWithout(r0.order, r0.entries.Keys, r.entries.Keys, id);
    } else {
      UpdatedTotal(r, id, AgedEntry(r.entries[id]), AllBytes);
    }
  }

  lemma SweepScans(r0: Residents, r: Residents, gone: seq<string>, caps: C.Limits)
    requires SweepingFrom(r0, r, gone, caps) && !C.Fits(Ring(r), caps)
    ensures |r.order| > 0 && C.PinnedRun(Ring(r)) < |Ring(r)|
    ensures WellFormed(Scanned(r)) && Ring(Scanned(r)) == C.Visit(Ring(r))
    ensures SweepingFrom(r0, Scanned(r), if DueNow(r) then gone + [UnderHand(r)] else gone, caps)
  {
    hide LeftBehind, L.Lists, Scanned, L.Turned;
    var q := Ring(r);
    RingDistinct(r);
    if C.PinnedRun(q) == |q| { C.AllPinned(q); }
    ScanIsVisit(r);
    ScanLeavesBehind(r0, r, gone);
    C.VisitProgress(q);
    var rest := C.Sweep(C.Visit(q), caps);
    if DueNow(r) {
      assert gone + ([q[0].id] + rest.victims) == (gone + [q[0].id]) + rest.victims;
      assert q[0].id == UnderHand(r);
    }
  }

  /** The ghosts so far are those of the pages evicted so far. */
  ghost predicate HauntedBy(r0: Residents, gone: seq<string>, g0: Ghosts, age0: nat, g: Ghosts, age: nat,
                            tick: nat, useTick: nat, policy: Policy)
  {
    && policy.Valid() && GhostsValid(g0, policy, age0)
    && (forall id :: id in gone ==> id in r0.entries)
    && (g, age) == Haunted(g0, age0, VictimPages(r0, gone), tick, useTick, policy)
  }

  lemma HauntNone(r0: Residents, g: Ghosts, age: nat, tick: nat, useTick: nat, policy: Policy)
    requires policy.Valid() && GhostsValid(g, policy, age)
    ensures HauntedBy(r0, [], g, age, g, age, tick, useTick, policy)
  {
  }

  /** The page under the hand is still the page it was when the sweep began. */
  lemma SweptFromStart(r0: Residents, r: Residents, gone: seq<string>, caps: C.Limits)
    requires SweepingFrom(r0, r, gone, caps) && |r.order| > 0
    ensures UnderHand(r) in r0.entries && r.entries[UnderHand(r)].page == r0.entries[UnderHand(r)].page
  {
  }

  lemma HauntOne(r0: Residents, gone: seq<string>, id: string, g0: Ghosts, age0: nat, g: Ghosts, age: nat,
                 tick: nat, useTick: nat, policy: Policy)
    requires HauntedBy(r0, gone, g0, age0, g, age, tick, useTick, policy) && id in r0.entries
    ensures GhostsWellFormed(g)
    ensures HauntedBy(r0, gone + [id], g0, age0,
                      GhostAdded(g, r0.entries[id].page, tick, useTick, age, policy), age + 1, tick, useTick, policy)
  {
    hide GhostsValid, GhostAdded, GhostsWellFormed;
    var more := gone + [id];
    assert more[..|more| - 1] == gone && more[|more| - 1] == id;
    var pages := VictimPages(r0, gone);
    assert VictimPages(r0, more) == pages + [r0.entries[id].page];
    assert (pages + [r0.entries[id].page])[..|pages|] == pages;
    ValidGhostsAreWellFormed(g, policy, age);
  }

  lemma ValidGhostsAreWellFormed(g: Ghosts, policy: Policy, age: nat)
    requires GhostsValid(g, policy, age)
    ensures GhostsWellFormed(g)
  {
  }

  lemma {:induction false} SweepEnds(r0: Residents, r: Residents, gone: seq<string>, caps: C.Limits)
    requires SweepingFrom(r0, r, gone, caps) && C.Fits(Ring(r), caps)
    ensures SweptTo(r0, r, caps) && C.Sweep(Ring(r0), caps).victims == gone
  {
    assert gone + [] == gone;
  }

  lemma VictimsAreResident(r: Residents, caps: C.Limits)
    requires WellFormed(r) && C.Fits(C.PinnedOnly(Ring(r)), caps)
    ensures forall id :: id in C.Sweep(Ring(r), caps).victims ==> id in r.entries && r.entries[id].state != C.Pinned
  {
    forall id | id in C.Sweep(Ring(r), caps).victims ensures id in r.entries && r.entries[id].state != C.Pinned {
      VictimIsResident(r, caps, id);
    }
  }

  lemma VictimIsResident(r: Residents, caps: C.Limits, id: string)
    requires WellFormed(r) && C.Fits(C.PinnedOnly(Ring(r)), caps) && id in C.Sweep(Ring(r), caps).victims
    ensures id in r.entries && r.entries[id].state != C.Pinned
  {
    C.VictimsComeFromRing(Ring(r), caps, id);
    var s :| s in Ring(r) && s.id == id && s.state != C.Pinned;
    RingMember(r, s);
  }

  /** A sweep leaves a tier within its caps, evicts no pinned page, and evicts the shortest prefix of
      the eviction order that will do. */
  lemma SweptTierFits(r: Residents, r': Residents, policy: Policy)
    requires WellFormed(r) && policy.Valid() && PinnedWithinCaps(r, policy)
    requires C.Fits(C.PinnedOnly(Ring(r)), policy.Caps())
    requires SweptTo(r, r', policy.Caps())
    ensures WithinCaps(r', policy)
    ensures forall id :: WasPinned(r, id) ==> WasPinned(r', id)
  {
    C.SweepFitsAndKeepsPins(Ring(r), policy.Caps());
    RingWeighs(r, PinCount);
    RingWeighs(r, PinBytes);
    RingWeighs(r', AllBytes);
    RingWeighs(r', PinCount);
    RingWeighs(r', PinBytes);
    RingDistinct(r');
    VictimsAreResident(r, policy.Caps());
    forall id | WasPinned(r, id) ensures WasPinned(r', id) {
      SweptPinsStay(r, r', policy.Caps(), id);
    }
  }

  lemma SlotOfPinned(q: seq<C.Slot>, caps: C.Limits, s: C.Slot)
    requires C.Fits(C.PinnedOnly(q), caps) && s in q && s.state == C.Pinned
    ensures s in C.Sweep(q, caps).ring
    decreases C.NeedSum(q), C.PinnedRun(q)
  {
    if !C.Fits(q, caps) {
      if C.PinnedRun(q) == |q| { C.AllPinned(q); }
      C.VisitProgress(q);
      assert s in C.Visit(q) by {
        if s == q[0] { assert C.Visit(q)[|q| - 1] == s; } else { assert s in q[1..]; }
      }
      SlotOfPinned(C.Visit(q), caps, s);
    }
  }

  lemma SweptPinsStay(r: Residents, r': Residents, caps: C.Limits, id: string)
    requires WellFormed(r) && C.Fits(C.PinnedOnly(Ring(r)), caps) && SweptTo(r, r', caps)
    requires WasPinned(r, id)
    ensures WasPinned(r', id)
  {
    var s := SlotOf(r.entries[id]);
    ResidentInRing(r, id);
    SlotOfPinned(Ring(r), caps, s);
    RingMember(r', s);
  }

  // ---- admission ----

  /** A demand that finds exactly its own ghost. */
  predicate Refaults(t: Tiers, p: Page, mode: Mode) {
    && mode.Demand? && p.id !in t.residents.entries
    && p.id in t.ghosts.entries && t.ghosts.entries[p.id].page.Tuple() == p.Tuple()
  }

  /** Ghost hints that survive an admission: another identity's hint goes, a demand consumes its own;
      the exact hint stays under a page that was admitted any other way. */
  function GhostsBeforeSweep(t: Tiers, p: Page, mode: Mode): Ghosts {
    var g := t.ghosts;
    if ReplacesStale(t.residents, p, mode) then GhostDropped(g, p.id)
    else if p.id in t.residents.entries || p.id !in g.entries then g
    else if g.entries[p.id].page.Tuple() != p.Tuple() || mode.Demand? then GhostDropped(g, p.id)
    else g
  }

  function ShadowsAfterAdmission(t: Tiers, p: Page, mode: Mode): Shadows {
    if ReplacesStale(t.residents, p, mode) then Retired(t.shadows, KeysOfOthers(t.shadows, p.id), AsCensored)
    else if p.id in t.residents.entries then t.shadows
    else Retired(t.shadows, KeysNotMismatching(t.shadows, p), AsCensored)
  }

  predicate Promotes(t: Tiers, p: Page, mode: Mode) {
    && mode.Demand? && p.id in t.residents.entries && !ReplacesStale(t.residents, p, mode)
    && SecondUse(t.residents.entries[p.id])
  }

  function AgeBeforeSweep(t: Tiers, p: Page, mode: Mode): nat {
    t.age + (if Refaults(t, p, mode) || Promotes(t, p, mode) then 1 else 0)
  }

  /** A page that was not resident put in place, with the hints that contradict it dropped. */
  function PlacedNew(t: Tiers, p: Page, mode: Mode): Tiers
    requires p.id !in t.residents.entries
    requires forall id :: id in t.ghosts.entries ==> t.ghosts.entries[id].evictionAge <= t.age
  {
    t.(residents := Inserted(t.residents, NewEntry(p, mode, Refaults(t, p, mode))),
       ghosts := GhostsBeforeSweep(t, p, mode), shadows := ShadowsAfterAdmission(t, p, mode),
       age := AgeBeforeSweep(t, p, mode), refaultDistance := RefaultDistanceAfter(t, p, mode))
  }

  /** Why an admission is refused, in the order the checks are made; None when it is not. */
  function Refusal(t: Tiers, p: Page, mode: Mode, policy: Policy): Option<Error>
    requires WellFormed(t.residents)
  {
    var r, pinned := t.residents, TargetPinned(t.residents, p, mode);
    if p.id == "" then Some(InvalidPage)
    else if p.Size() > policy.maxPageBytes then Some(PageTooLarge)
    else if !IdentityAllowed(r, p, mode) then Some(TupleMismatch)
    else if !PinsFit(r, p, pinned, policy) then Some(PinnedCapacity)
    else if !FloorFits(r, p, pinned, policy) then Some(CapacityExceeded)
    else None
  }

  lemma GhostsBeforeSweepValid(t: Tiers, p: Page, mode: Mode, policy: Policy)
    requires TiersValid(t, policy)
    ensures GhostsValid(GhostsBeforeSweep(t, p, mode), policy, AgeBeforeSweep(t, p, mode))
    ensures policy.Valid()
  {
    GhostsKeptWellFormed(t.ghosts, t.ghosts.entries.Keys - {p.id});
  }

  /** The hierarchy with an accepted page in place, before any eviction. */
  function BeforeSweep(t: Tiers, p: Page, mode: Mode): Tiers
    requires WellFormed(t.residents)
    requires p.id in t.ghosts.entries ==> t.ghosts.entries[p.id].evictionAge <= t.age
  {
    t.(residents := Placed(t.residents, p, mode, Refaults(t, p, mode)),
       ghosts := GhostsBeforeSweep(t, p, mode), shadows := ShadowsAfterAdmission(t, p, mode),
       age := AgeBeforeSweep(t, p, mode), refaultDistance := RefaultDistanceAfter(t, p, mode))
  }

  /** t' is t after a capacity sweep: its residents are the swept ones, and its ghosts remember the
      victims in the order they went. */
  ghost predicate CapacitySwept(t: Tiers, t': Tiers, policy: Policy) {
    && WellFormed(t.residents) && C.Fits(C.PinnedOnly(Ring(t.residents)), policy.Caps())
    && SweptTo(t.residents, t'.residents, policy.Caps())
    && HauntedBy(t.residents, C.Sweep(Ring(t.residents), policy.Caps()).victims, t.ghosts, t.age,
                 t'.ghosts, t'.age, t.tick, t.useTick, policy)
    && t' == t.(residents := t'.residents, ghosts := t'.ghosts, age := t'.age)
  }

  /** t' is t after the page was accepted: placed, its metadata settled, and the tier swept. */
  ghost predicate AdmittedTo(t: Tiers, t': Tiers, p: Page, mode: Mode, policy: Policy)
    requires TiersValid(t, policy)
  {
    CapacitySwept(BeforeSweep(t, p, mode), t', policy)
  }

  function RefaultDistanceAfter(t: Tiers, p: Page, mode: Mode): nat
    requires p.id in t.ghosts.entries ==> t.ghosts.entries[p.id].evictionAge <= t.age
  {
    t.refaultDistance + (if Refaults(t, p, mode) then Distance(t, p.id) else 0)
  }

  /** Evictions between a page's own eviction and now; the unsigned subtraction cannot wrap. */
  function Distance(t: Tiers, id: string): nat
    requires id in t.ghosts.entries && t.ghosts.entries[id].evictionAge <= t.age
  {
    t.age - t.ghosts.entries[id].evictionAge
  }

  lemma ReadyToPlace(t: Tiers, policy: Policy)
    requires TiersValid(t, policy)
    ensures policy.Valid() && WellFormed(t.residents)
    ensures forall id :: id in t.ghosts.entries ==> t.ghosts.entries[id].evictionAge <= t.age
  {
  }

  /** The sweep that follows an accepted page can run. */
  lemma ReadyToSweep(t: Tiers, p: Page, mode: Mode, policy: Policy)
    requires TiersValid(t, policy) && Refusal(t, p, mode, policy) == None
    ensures IdentityAllowed(t.residents, p, mode)
    ensures var b := BeforeSweep(t, p, mode);
            && WellFormed(b.residents) && C.Fits(C.PinnedOnly(Ring(b.residents)), policy.Caps())
            && PinnedWithinCaps(b.residents, policy) && GhostsValid(b.ghosts, policy, b.age)
  {
    hide GhostsValid, ShadowsValid, WithinCaps, L.Lists, GhostsBeforeSweep;
    PlacedCanBeSwept(t.residents, p, mode, Refaults(t, p, mode), policy);
    GhostsBeforeSweepValid(t, p, mode, policy);
  }

  lemma HauntedByIsValid(r0: Residents, gone: seq<string>, g0: Ghosts, age0: nat, g: Ghosts, age: nat,
                         tick: nat, useTick: nat, policy: Policy)
    requires HauntedBy(r0, gone, g0, age0, g, age, tick, useTick, policy)
    ensures GhostsValid(g, policy, age)
  {
  }

  lemma AdmissionShadowsValid(t: Tiers, p: Page, mode: Mode, policy: Policy)
    requires ShadowsValid(t.shadows, policy, t.useTick)
    ensures ShadowsValid(ShadowsAfterAdmission(t, p, mode), policy, t.useTick)
  {
    RetiredValid(t.shadows, KeysOfOthers(t.shadows, p.id), AsCensored, policy, t.useTick);
    RetiredValid(t.shadows, KeysNotMismatching(t.shadows, p), AsCensored, policy, t.useTick);
  }

  lemma AdmittedResidentsValid(t: Tiers, r': Residents, p: Page, mode: Mode, policy: Policy)
    requires TiersValid(t, policy) && Refusal(t, p, mode, policy) == None
    requires WellFormed(BeforeSweep(t, p, mode).residents)
    requires C.Fits(C.PinnedOnly(Ring(BeforeSweep(t, p, mode).residents)), policy.Caps())
    requires SweptTo(BeforeSweep(t, p, mode).residents, r', policy.Caps())
    ensures ResidentsValid(r', policy)
  {
    hide GhostsValid, ShadowsValid, SweptTo, L.Lists, WithinCaps, Placed, PinnedWithinCaps, C.Fits;
    ReadyToPlace(t, policy);
    var placed := BeforeSweep(t, p, mode).residents;
    ReadyToSweep(t, p, mode, policy);
    SweptTierFits(placed, r', policy);
    SweptSamePages(placed, r', policy.Caps());
    PlacedSmall(t, p, mode, policy);
  }

  lemma SweptSamePages(r: Residents, r': Residents, caps: C.Limits)
    requires WellFormed(r) && C.Fits(C.PinnedOnly(Ring(r)), caps) && SweptTo(r, r', caps)
    ensures WellFormed(r') && SamePages(r, r')
  {
  }

  lemma AdmittedValid(t: Tiers, t': Tiers, p: Page, mode: Mode, policy: Policy)
    requires TiersValid(t, policy) && Refusal(t, p, mode, policy) == None
    requires AdmittedTo(t, t', p, mode, policy)
    ensures TiersValid(t', policy)
  {
    hide GhostsValid, ShadowsValid, SweptTo, HauntedBy, ShadowsAfterAdmission, WithinCaps;
    ReadyToPlace(t, policy);
    var b := BeforeSweep(t, p, mode);
    AdmittedResidentsValid(t, t'.residents, p, mode, policy);
    HauntedByIsValid(b.residents, C.Sweep(Ring(b.residents), policy.Caps()).victims, b.ghosts, b.age,
                     t'.ghosts, t'.age, t.tick, t.useTick, policy);
    AdmissionShadowsValid(t, p, mode, policy);
  }

  lemma PlacedSmall(t: Tiers, p: Page, mode: Mode, policy: Policy)
    requires TiersValid(t, policy) && p.id != "" && p.Size() <= policy.maxPageBytes
    ensures WellFormed(Placed(t.residents, p, mode, Refaults(t, p, mode)))
    ensures forall id :: id in Placed(t.residents, p, mode, Refaults(t, p, mode)).entries ==>
              id != "" && Placed(t.residents, p, mode, Refaults(t, p, mode)).entries[id].page.Size() <= policy.maxPageBytes
  {
    hide Page.Size, Placed, L.Lists, WithinCaps, GhostsValid, ShadowsValid;
    PlacedWellFormed(t.residents, p, mode, Refaults(t, p, mode));
    PlacedLeavesOthers(t.residents, p, mode, Refaults(t, p, mode));
  }

  // ---- uses ----

  predicate Servable(t: Tiers, id: string) {
    && id in t.residents.entries
    && t.residents.entries[id].page.Usable() && t.residents.entries[id].materialized
  }

  /** A resident that is really used: its reference bit is set and a second use makes it hot. */
  function UsedEntry(e: Entry): Entry {
    e.(page := e.page.(accessCount := e.page.accessCount + 1), realUses := e.realUses + 1, ref := true,
       state := if SecondUse(e) then C.Hot else e.state)
  }

  function Used(t: Tiers, id: string, policy: Policy): Tiers
    requires id in t.residents.entries
  {
    var e := t.residents.entries[id];
    var d := Demanded(t, e.page, policy);
    d.(residents := Updated(t.residents, id, UsedEntry(e)), age := t.age + (if SecondUse(e) then 1 else 0))
  }

  // ---- removal and refresh ----

  /** Every trace of an id is removed without a ghost; waiting shadows are censored. */
  function ShotDown(t: Tiers, id: string): Tiers
    requires WellFormed(t.residents)
  {
    t.(residents := Removed(t.residents, id), ghosts := GhostDropped(t.ghosts, id),
       shadows := Retired(t.shadows, KeysOfOthers(t.shadows, id), AsCensored))
  }

  /** What an authoritative demand clears before it is admitted: only other identities of its id. */
  function AuthorityCleared(t: Tiers, p: Page): Tiers
    requires WellFormed(t.residents)
  {
    var r := if p.id in t.residents.entries && t.residents.entries[p.id].page.Tuple() != p.Tuple()
             then Removed(t.residents, p.id) else t.residents;
    var g := if p.id in t.ghosts.entries && t.ghosts.entries[p.id].page.Tuple() != p.Tuple()
             then GhostDropped(t.ghosts, p.id) else t.ghosts;
    t.(residents := r, ghosts := g, shadows := Retired(t.shadows, KeysNotMismatching(t.shadows, p), AsCensored))
  }

  /** The entry without its body: it may not be served before it is admitted again. */
  function BodyCleared(e: Entry): Entry {
    e.(page := e.page.(stale := false, invalidated := false, staleRevision := 0, body := "", summary := "", refs := []),
       materialized := false)
  }

  datatype Coherence = Coherence(
    stale: bool, invalidated: bool, staleRevision: nat, branch: string, commit: string, paths: seq<string>, scopeEpoch: nat)

  /** A resident refreshed from authority.  Going from stale to active clears the body. */
  function Refresh(e: Entry, c: Coherence): Entry {
    var scoped := e.page.(branch := c.branch, commit := c.commit, paths := c.paths, scopeEpoch := c.scopeEpoch);
    if e.page.stale && !c.stale then BodyCleared(e.(page := scoped))
    else e.(page := scoped.(stale := c.stale, invalidated := false, staleRevision := c.staleRevision))
  }

  /** The refreshed page must still be within the page, resident and pinned byte caps. */
  predicate RefreshFits(r: Residents, id: string, next: Page, policy: Policy)
    requires WellFormed(r) && id in r.entries
  {
    && next.Size() <= policy.maxPageBytes
    && Total(r, AllBytes) - r.entries[id].page.Size() + next.Size() <= policy.maxResidentBytes
    && (r.entries[id].state == C.Pinned ==>
          Total(r, PinBytes) - r.entries[id].page.Size() + next.Size() <= policy.maxPinnedBytes)
  }

  /** One reconciled verdict.  It is ignored when the identity it was computed for is gone. */
  function ReconciledOne(t: Tiers, tuple: PageTuple, c: Coherence, policy: Policy): Tiers
    requires WellFormed(t.residents)
  {
    var id := tuple.id;
    if id !in t.residents.entries || t.residents.entries[id].page.Tuple() != tuple then t
    else if c.invalidated then ShotDown(t, id)
    else
      var e := t.residents.entries[id];
      var next := Refresh(e, c);
      if !RefreshFits(t.residents, id, next.page, policy) then
        t.(residents := Removed(t.residents, id), ghosts := GhostDropped(t.ghosts, id))
      else
        t.(residents := Updated(t.residents, id, next),
           ghosts := if e.page.stale && !c.stale then GhostDropped(t.ghosts, id) else t.ghosts)
  }

  // ---- every step keeps the tiers valid ----

  lemma DemandedShadowsValid(s: Shadows, useTick: nat, p: Page, policy: Policy)
    requires ShadowsValid(s, policy, useTick)
    ensures ShadowsValid(MarkedUseful(Expired(s, useTick + 1, policy), p), policy, useTick + 1)
  {
    hide L.Lists, L.Sum, L.Keep, Page.Size, MarkedUseful, ShadowsWellFormed, Pending;
    var keep := YoungKeys(s, useTick + 1, policy);
    RetiredWellFormed(s, keep, AsUnused);
    RetiredConserves(s, keep, AsUnused);
    MarkedUsefulValid(Expired(s, useTick + 1, policy), p, policy, useTick + 1);
  }

  lemma DemandedValid(t: Tiers, p: Page, policy: Policy)
    requires TiersValid(t, policy)
    ensures TiersValid(Demanded(t, p, policy), policy)
  {
    hide ShadowsValid, GhostsValid, ResidentsValid, MarkedUseful, Expired;
    DemandedShadowsValid(t.shadows, t.useTick, p, policy);
  }

  lemma RemovalValid(t: Tiers, id: string, policy: Policy)
    requires TiersValid(t, policy)
    ensures TiersValid(t.(residents := Removed(t.residents, id)), policy)
  {
    if id in t.residents.entries {
      RemovedWellFormed(t.residents, id);
      RemovedTotal(t.residents, id, AllBytes);
      RemovedTotal(t.residents, id, PinCount);
      RemovedTotal(t.residents, id, PinBytes);
    }
  }

  lemma GhostDropValid(t: Tiers, id: string, policy: Policy)
    requires TiersValid(t, policy)
    ensures TiersValid(t.(ghosts := GhostDropped(t.ghosts, id)), policy)
  {
    hide ShadowsValid, GhostsValid, ResidentsValid;
    GhostDropKeepsValid(t.ghosts, t.age, id, policy);
  }

  lemma GhostDropKeepsValid(g: Ghosts, age: nat, id: string, policy: Policy)
    requires GhostsValid(g, policy, age)
    ensures GhostsValid(GhostDropped(g, id), policy, age)
  {
    GhostsKeptWellFormed(g, g.entries.Keys - {id});
  }

  lemma CensorValid(t: Tiers, keep: set<ShadowKey>, policy: Policy)
    requires TiersValid(t, policy)
    ensures TiersValid(t.(shadows := Retired(t.shadows, keep, AsCensored)), policy)
  {
    RetiredValid(t.shadows, keep, AsCensored, policy, t.useTick);
  }

  lemma ShotDownValid(t: Tiers, id: string, policy: Policy)
    requires TiersValid(t, policy)
    ensures TiersValid(ShotDown(t, id), policy)
  {
    RemovalValid(t, id, policy);
    GhostDropValid(t, id, policy);
    CensorValid(t, KeysOfOthers(t.shadows, id), policy);
  }

  lemma AuthorityClearedValid(t: Tiers, p: Page, policy: Policy)
    requires TiersValid(t, policy)
    ensures TiersValid(AuthorityCleared(t, p), policy)
  {
    RemovalValid(t, p.id, policy);
    GhostDropValid(t, p.id, policy);
    CensorValid(t, KeysNotMismatching(t.shadows, p), policy);
  }

  /** Replacing an entry by one of the same id, no larger than allowed and pinned as before. */
  lemma EntryChangeValid(r: Residents, id: string, e: Entry, policy: Policy)
    requires ResidentsValid(r, policy) && id in r.entries && e.page.id == id
    requires RefreshFits(r, id, e.page, policy)
    requires (e.state == C.Pinned) == (r.entries[id].state == C.Pinned)
    ensures ResidentsValid(Updated(r, id, e), policy)
  {
    hide L.Lists, L.Sum;
    UpdatedTotal(r, id, e, AllBytes);
    UpdatedTotal(r, id, e, PinCount);
    UpdatedTotal(r, id, e, PinBytes);
  }

  lemma GhostsAgeWell(g: Ghosts, policy: Policy, age: nat, age': nat)
    requires GhostsValid(g, policy, age) && age <= age'
    ensures GhostsValid(g, policy, age')
  {
  }

  lemma UsedEntryFits(r: Residents, id: string, policy: Policy)
    requires ResidentsValid(r, policy) && id in r.entries
    ensures RefreshFits(r, id, UsedEntry(r.entries[id]).page, policy) && r.entries[id].page.id == id
  {
  }

  lemma UsedValid(t: Tiers, id: string, policy: Policy)
    requires TiersValid(t, policy) && id in t.residents.entries
    ensures TiersValid(Used(t, id, policy), policy)
  {
    hide ShadowsValid, GhostsValid, ResidentsValid, RefreshFits, MarkedUseful, Expired;
    var e := t.residents.entries[id];
    DemandedValid(t, e.page, policy);
    GhostsAgeWell(t.ghosts, policy, t.age, t.age + 1);
    UsedEntryFits(t.residents, id, policy);
    EntryChangeValid(t.residents, id, UsedEntry(e), policy);
  }

  lemma ReconciledOneValid(t: Tiers, tuple: PageTuple, c: Coherence, policy: Policy)
    requires TiersValid(t, policy)
    ensures TiersValid(ReconciledOne(t, tuple, c, policy), policy)
  {
    hide ShadowsValid, GhostsValid, RefreshFits, WithinCaps, L.Lists, Removed, GhostDropped, Retired;
    var id := tuple.id;
    ShotDownValid(t, id, policy);
    RemovalValid(t, id, policy);
    GhostDropValid(t, id, policy);
    if id in t.residents.entries && RefreshFits(t.residents, id, Refresh(t.residents.entries[id], c).page, policy) {
      EntryChangeValid(t.residents, id, Refresh(t.residents.entries[id], c), policy);
    }
  }

  // ---- admitting over a stale resident ----

  lemma StaleReplacement(t: Tiers, p: Page)
    requires WellFormed(t.residents) && ReplacesStale(t.residents, p, Demand)
    requires forall id :: id in t.ghosts.entries ==> t.ghosts.entries[id].evictionAge <= t.age
    ensures var t1 := ShotDown(t, p.id);
            && p.id !in t1.residents.entries
            && (forall id :: id in t1.ghosts.entries ==> t1.ghosts.entries[id].evictionAge <= t1.age)
            && PlacedNew(t1, p, Demand) == BeforeSweep(t, p, Demand)
  {
    hide L.Lists;
    var t1 := ShotDown(t, p.id);
    RemovalFacts(t.residents, p.id);
    var a := KeysOfOthers(t.shadows, p.id);
    assert t1.shadows.entries.Keys == a;
    var b := KeysNotMismatching(t1.shadows, p);
    assert b == a;
    RetireTwice(t.shadows, a, b, AsCensored);
    assert a * b == a;
  }

  // ---- what may be served ----

  /** A body that may be served is the one its last admission installed, and nothing has marked it
      stale since. */
  ghost predicate BodiesCurrent(r: Residents, installed: map<string, Page>, tainted: set<string>) {
    forall id :: id in r.entries && r.entries[id].materialized ==>
      && id in installed
      && r.entries[id].page.body == installed[id].body && r.entries[id].page.summary == installed[id].summary
      && (id in tainted ==> r.entries[id].page.stale)
  }

  function TaintedBy(tainted: set<string>, p: Page): set<string> {
    if p.stale then tainted + {p.id} else tainted - {p.id}
  }

  lemma AdmittedBodiesCurrent(t: Tiers, t': Tiers, p: Page, mode: Mode, policy: Policy,
                              installed: map<string, Page>, tainted: set<string>)
    requires TiersValid(t, policy) && AdmittedTo(t, t', p, mode, policy)
    requires BodiesCurrent(t.residents, installed, tainted)
    ensures BodiesCurrent(t'.residents, installed[p.id := p], TaintedBy(tainted, p))
  {
    hide GhostsValid, ShadowsValid, SweptTo, WithinCaps, HauntedBy, C.Fits, Placed, BodiesCurrent;
    ReadyToPlace(t, policy);
    var placed := BeforeSweep(t, p, mode).residents;
    PlacedBodiesCurrent(t.residents, p, mode, Refaults(t, p, mode), installed, tainted);
    SweptSamePages(placed, t'.residents, policy.Caps());
    SamePagesBodiesCurrent(placed, t'.residents, installed[p.id := p], TaintedBy(tainted, p));
  }

  lemma SamePagesBodiesCurrent(r: Residents, r': Residents, installed: map<string, Page>, tainted: set<string>)
    requires SamePages(r, r') && BodiesCurrent(r, installed, tainted)
    ensures BodiesCurrent(r', installed, tainted)
  {
  }

  lemma PlacedBodiesCurrent(r: Residents, p: Page, mode: Mode, refault: bool, installed: map<string, Page>, tainted: set<string>)
    requires WellFormed(r) && BodiesCurrent(r, installed, tainted)
    ensures BodiesCurrent(Placed(r, p, mode, refault), installed[p.id := p], TaintedBy(tainted, p))
  {
    hide Placed;
    PlacedLeavesOthers(r, p, mode, refault);
    PlacedBody(r, p, mode, refault);
  }

  lemma PlacedLeavesOthers(r: Residents, p: Page, mode: Mode, refault: bool)
    requires WellFormed(r)
    ensures var r' := Placed(r, p, mode, refault);
            forall id :: id in r'.entries && id != p.id ==> id in r.entries && r'.entries[id] == r.entries[id]
  {
    hide L.Lists, L.RemoveIndex, Refreshed, NewEntry;
    NewEntryIsOfPage(p, mode, refault);
  }

  lemma NewEntryIsOfPage(p: Page, mode: Mode, refault: bool)
    ensures NewEntry(p, mode, refault).page == p
  {
  }

  lemma PlacedBody(r: Residents, p: Page, mode: Mode, refault: bool)
    requires WellFormed(r)
    ensures var r' := Placed(r, p, mode, refault);
            && p.id in r'.entries
            && var page := r'.entries[p.id].page; page.body == p.body && page.summary == p.summary && page.stale == p.stale
  {
    hide L.Lists, L.RemoveIndex;
    NewEntryIsOfPage(p, mode, refault);
  }

  // ---- pins, accesses and revalidation: one entry changes ----

  function PinnedEntry(e: Entry): Entry {
    e.(state := C.Pinned, ref := true)
  }

  function UnpinnedEntry(e: Entry): Entry {
    e.(state := C.Hot, ref := true)
  }

  function TouchedEntry(e: Entry): Entry {
    e.(page := e.page.(accessCount := e.page.accessCount + 1), ref := true)
  }

  function WithEntry(t: Tiers, id: string, e: Entry): Tiers {
    t.(residents := Updated(t.residents, id, e))
  }

  predicate RoomForPin(t: Tiers, id: string, policy: Policy)
    requires WellFormed(t.residents) && id in t.residents.entries
  {
    && Total(t.residents, PinCount) + 1 <= policy.maxPinnedPages
    && Total(t.residents, PinBytes) + t.residents.entries[id].page.Size() <= policy.maxPinnedBytes
  }

  /** Changing an entry keeps the hierarchy valid when the pinned caps still hold and the page has
      not outgrown its old self. */
  lemma WithEntryValid(t: Tiers, id: string, e: Entry, policy: Policy)
    requires TiersValid(t, policy) && id in t.residents.entries
    requires e.page.id == id && e.page.Size() <= t.residents.entries[id].page.Size()
    requires e.state == C.Pinned && t.residents.entries[id].state != C.Pinned ==> RoomForPin(t, id, policy)
    ensures TiersValid(WithEntry(t, id, e), policy)
  {
    hide GhostsValid, ShadowsValid, L.Lists, L.Sum;
    UpdatedTotal(t.residents, id, e, AllBytes);
    UpdatedTotal(t.residents, id, e, PinCount);
    UpdatedTotal(t.residents, id, e, PinBytes);
  }

  lemma BodyClearedSize(e: Entry)
    ensures BodyCleared(e).page.Size() <= e.page.Size() && BodyCleared(e).page.id == e.page.id
  {
  }

  /** An entry change that leaves body and staleness alone, or unmaterializes the entry. */
  lemma WithEntryBodiesCurrent(r: Residents, id: string, e: Entry, installed: map<string, Page>, tainted: set<string>)
    requires BodiesCurrent(r, installed, tainted) && id in r.entries
    requires e.materialized ==>
               && r.entries[id].materialized && e.page.body == r.entries[id].page.body
               && e.page.summary == r.entries[id].page.summary && e.page.stale == r.entries[id].page.stale
    ensures BodiesCurrent(Updated(r, id, e), installed, tainted)
  {
  }

  lemma RemovedBodiesCurrent(r: Residents, id: string, installed: map<string, Page>, tainted: set<string>)
    requires WellFormed(r) && BodiesCurrent(r, installed, tainted)
    ensures BodiesCurrent(Removed(r, id), installed, tainted)
  {
  }

  // ---- estimators ----

  function GhostsPurged(t: Tiers): Tiers {
    t.(ghosts := Ghosts(map[], []))
  }

  function ShadowsCensored(t: Tiers): Tiers {
    t.(shadows := Retired(t.shadows, {}, AsCensored))
  }

  /** Observing a semantic candidate touches the shadows only. */
  function ObservedTiers(t: Tiers, p: Page, ordinal: int, policy: Policy): Tiers
    requires ShadowsWellFormed(t.shadows) && p.Bodyless()
  {
    t.(shadows := Observed(t.shadows, p, ordinal, t.useTick, policy).0)
  }

  lemma ObservedTiersValid(t: Tiers, p: Page, ordinal: int, policy: Policy)
    requires TiersValid(t, policy) && p.Bodyless()
    ensures ShadowsWellFormed(t.shadows) && TiersValid(ObservedTiers(t, p, ordinal, policy), policy)
    ensures Expired(t.shadows, t.useTick, policy) == t.shadows
  {
    hide GhostsValid, ResidentsValid, Observed;
    ObservedValid(t.shadows, p, ordinal, t.useTick, policy);
    FreshExpiresNothing(t.shadows, t.useTick, policy);
  }

  lemma GhostsPurgedValid(t: Tiers, policy: Policy)
    requires TiersValid(t, policy)
    ensures TiersValid(GhostsPurged(t), policy)
  {
    hide ShadowsValid, ResidentsValid;
  }

  lemma FreshExpiresNothing(s: Shadows, useTick: nat, policy: Policy)
    requires ShadowsValid(s, policy, useTick)
    ensures Expired(s, useTick, policy) == s
  {
    assert YoungKeys(s, useTick, policy) == s.entries.Keys;
    RetireNone(s, AsUnused);
  }

  // ---- reconciling many pages ----

  datatype Verdict = Verdict(tuple: PageTuple, coherence: Coherence)

  ghost function ReconciledAll(t: Tiers, verdicts: seq<Verdict>, policy: Policy): (r: Tiers)
    requires TiersValid(t, policy)
    ensures TiersValid(r, policy)
  {
    if verdicts == [] then t
    else
      var before := ReconciledAll(t, verdicts[..|verdicts| - 1], policy);
      var v := verdicts[|verdicts| - 1];
      ReconciledOneValid(before, v.tuple, v.coherence, policy);
      ReconciledOne(before, v.tuple, v.coherence, policy)
  }

  /** Marking a resident stale taints its body until it is admitted again. */
  function TaintedAfter(t: Tiers, v: Verdict, tainted: set<string>): set<string> {
    if v.tuple.id in t.residents.entries && t.residents.entries[v.tuple.id].page.Tuple() == v.tuple && v.coherence.stale
    then tainted + {v.tuple.id} else tainted
  }

  /** The ids marked stale by a whole reconciliation, each judged on the tiers as they are by then. */
  ghost function TaintedAll(t: Tiers, verdicts: seq<Verdict>, policy: Policy, tainted: set<string>): set<string>
    requires TiersValid(t, policy)
  {
    if verdicts == [] then tainted
    else
      var front, last := verdicts[..|verdicts| - 1], verdicts[|verdicts| - 1];
      TaintedAfter(ReconciledAll(t, front, policy), last, TaintedAll(t, front, policy, tainted))
  }

  lemma ReconciledBodiesCurrent(t: Tiers, v: Verdict, policy: Policy, installed: map<string, Page>, tainted: set<string>)
    requires WellFormed(t.residents) && BodiesCurrent(t.residents, installed, tainted)
    ensures BodiesCurrent(ReconciledOne(t, v.tuple, v.coherence, policy).residents, installed, TaintedAfter(t, v, tainted))
  {
    hide L.Lists, RefreshFits, Removed;
    RemovedBodiesCurrent(t.residents, v.tuple.id, installed, tainted);
    RemovedIsGone(t.residents, v.tuple.id);
  }

  lemma ShotDownBodiesCurrent(t: Tiers, id: string, installed: map<string, Page>, tainted: set<string>)
    requires WellFormed(t.residents) && BodiesCurrent(t.residents, installed, tainted)
    ensures BodiesCurrent(ShotDown(t, id).residents, installed, tainted)
    ensures forall p: Page :: p.id == id ==> BodiesCurrent(AuthorityCleared(t, p).residents, installed, tainted)
  {
    RemovedBodiesCurrent(t.residents, id, installed, tainted);
  }

  lemma RemovedIsGone(r: Residents, id: string)
    requires WellFormed(r)
    ensures id !in Removed(r, id).entries
  {
  }
}
