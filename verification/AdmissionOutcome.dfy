/** What an admission comes to: when it is refused, what it evicts, and that both are determined. */
module AdmissionOutcome {
  import L = Listing
  import C = ClockRing
  import opened Pages
  import opened Residents
  import opened Estimators
  import opened Admission
  import opened Tiers

  /** The checks made before anything changes are exact: an admission goes through if and only if the
      page is well formed and small enough, its identity may enter, and some choice of unpinned victims
      makes room for it. */
  lemma AdmittedExactlyWhenFeasible(t: Tiers, p: Page, mode: Mode, policy: Policy)
    requires WellFormed(t.residents)
    ensures Refusal(t, p, mode, policy) == None <==>
              && p.id != "" && p.Size() <= policy.maxPageBytes && IdentityAllowed(t.residents, p, mode)
              && Feasible(t.residents, p, TargetPinned(t.residents, p, mode), policy)
    ensures Refusal(t, p, mode, policy) in {Some(PinnedCapacity), Some(CapacityExceeded)} <==>
              && p.id != "" && p.Size() <= policy.maxPageBytes && IdentityAllowed(t.residents, p, mode)
              && !Feasible(t.residents, p, TargetPinned(t.residents, p, mode), policy)
  {
    hide L.Lists, PinsFit, FloorFits;
    FloorDecidesFeasibility(t.residents, p, TargetPinned(t.residents, p, mode), policy);
  }

  /** How far down the eviction order the sweep after an admission goes. */
  ghost function Depth(t: Tiers, p: Page, mode: Mode, policy: Policy): nat
    requires TiersValid(t, policy) && Refusal(t, p, mode, policy) == None
  {
    ReadyToSweep(t, p, mode, policy);
    |C.Sweep(Ring(BeforeSweep(t, p, mode).residents), policy.Caps()).victims|
  }

  /** An accepted page is put in place, and then exactly the shortest prefix of the eviction order that
      makes the rest fit goes; the page itself is in that order like any other unless it is pinned. */
  lemma AdmissionEvictsShortestPrefix(t: Tiers, t': Tiers, p: Page, mode: Mode, policy: Policy)
    requires TiersValid(t, policy) && Refusal(t, p, mode, policy) == None && AdmittedTo(t, t', p, mode, policy)
    ensures WellFormed(BeforeSweep(t, p, mode).residents)
    ensures var placed := BeforeSweep(t, p, mode).residents; var q := Ring(placed); var k := Depth(t, p, mode, policy);
            && placed.entries.Keys == t.residents.entries.Keys + {p.id}
            && k <= |C.EvictionOrder(q)|
            && t'.residents.entries.Keys == placed.entries.Keys - C.IdSet(C.EvictionOrder(q)[..k])
            && C.Fits(C.AfterEvicting(q, k), policy.Caps())
            && (forall j :: 0 <= j < k ==> !C.Fits(C.AfterEvicting(q, j), policy.Caps()))
    ensures p.id in t'.residents.entries <==>
            p.id !in C.IdSet(C.EvictionOrder(Ring(BeforeSweep(t, p, mode).residents))[..Depth(t, p, mode, policy)])
    ensures forall id :: id != p.id && WasPinned(t.residents, id) ==> WasPinned(t'.residents, id)
    ensures TargetPinned(t.residents, p, mode) ==> WasPinned(t'.residents, p.id)
  {
    hide GhostsValid, ShadowsValid, WithinCaps, L.Lists, HauntedBy, Placed, GhostsBeforeSweep, ShadowsAfterAdmission, PinsFit, FloorFits, L.Keep;
    ReadyToSweep(t, p, mode, policy);
    ReadyToPlace(t, policy);
    var placed := BeforeSweep(t, p, mode).residents;
    RingDistinct(placed);
    C.SweepEvictsShortestPrefix(Ring(placed), policy.Caps());
    PlacedWellFormed(t.residents, p, mode, Refaults(t, p, mode));
    SweptTierFits(placed, t'.residents, policy);
    PlacedTotal(t.residents, p, mode, Refaults(t, p, mode), AllBytes);
    PlacedLeavesOthers(t.residents, p, mode, Refaults(t, p, mode));
  }

  /** The hierarchy after an accepted admission is determined: residents, hand, ghosts and clocks. */
  lemma AdmissionIsDetermined(t: Tiers, a: Tiers, b: Tiers, p: Page, mode: Mode, policy: Policy)
    requires TiersValid(t, policy) && AdmittedTo(t, a, p, mode, policy) && AdmittedTo(t, b, p, mode, policy)
    ensures a == b
  {
    hide SweptTo, C.Fits, Placed, GhostsValid, ShadowsValid, WithinCaps, WellFormed;
    ReadyToPlace(t, policy);
    var before := BeforeSweep(t, p, mode);
    assert WellFormed(before.residents) && C.Fits(C.PinnedOnly(Ring(before.residents)), policy.Caps());
    SweptToIsUnique(before.residents, a.residents, b.residents, policy.Caps());
  }

  /** From any point of a sweep there is a tier it leaves. */
  lemma {:induction false} SweepReaches(r0: Residents, r: Residents, gone: seq<string>, caps: C.Limits) returns (r': Residents)
    requires SweepingFrom(r0, r, gone, caps)
    ensures SweptTo(r0, r', caps)
    decreases C.NeedSum(Ring(r)), C.PinnedRun(Ring(r))
  {
    hide SweepingFrom, SweptTo, C.Fits, C.Sweep, C.NeedSum, C.PinnedRun, C.Visit, Scanned, Ring;
    SweepingShape(r0, r, gone, caps);
    if C.Fits(Ring(r), caps) {
      SweepEnds(r0, r, gone, caps);
      r' := r;
    } else {
      SweepScans(r0, r, gone, caps);
      C.VisitProgress(Ring(r));
      r' := SweepReaches(r0, Scanned(r), if DueNow(r) then gone + [UnderHand(r)] else gone, caps);
    }
  }

  lemma SweepingShape(r0: Residents, r: Residents, gone: seq<string>, caps: C.Limits)
    requires SweepingFrom(r0, r, gone, caps)
    ensures WellFormed(r0) && WellFormed(r) && C.Fits(C.PinnedOnly(Ring(r0)), caps)
  {
  }

  /** Every admission that is not refused has an outcome, and by the above only one. */
  lemma AdmissionHasOutcome(t: Tiers, p: Page, mode: Mode, policy: Policy) returns (t': Tiers)
    requires TiersValid(t, policy) && Refusal(t, p, mode, policy) == None
    ensures AdmittedTo(t, t', p, mode, policy)
  {
    hide TiersValid, GhostsValid, SweptTo, C.Sweep, C.Fits, Ring, WellFormed, Placed, GhostsBeforeSweep, ShadowsAfterAdmission, Haunted;
    ReadyToPlace(t, policy);
    ReadyToSweep(t, p, mode, policy);
    var b, caps := BeforeSweep(t, p, mode), policy.Caps();
    SweepBegins(b.residents, caps);
    var r' := SweepReaches(b.residents, b.residents, [], caps);
    VictimsAreResident(b.residents, caps);
    var (g, age) := Haunted(b.ghosts, b.age, VictimPages(b.residents, C.Sweep(Ring(b.residents), caps).victims), b.tick, b.useTick, policy);
    t' := b.(residents := r', ghosts := g, age := age);
  }

  // ---- an accepted page need not stay ----

  const OnePage := Policy(1, 100, 0, 0, 100, 0, 0, 0, 0, 0)

  function Plain(id: string): Page {
    Page(id, 0, "", "", "", 0, "", "", "", "", "", "x", [], [], 0, 0, false, false)
  }

  /** One hot resident, used since the hand last passed it. */
  const Hot := Tiers(
    Residents(map["a" := Entry(Plain("a"), C.Hot, true, 2, true)], ["a"], 0),
    Ghosts(map[], []), Shadows(map[], [], 0, 0, 0, 0), 0, 0, 0, 0)

  lemma PlainSize(id: string)
    ensures Plain(id).Size() == |id| + 1
  {
    assert Lengths([]) == 0;
  }

  lemma OneWeighs(r: Residents, m: Measure)
    requires |r.order| == 1 && r.order[0] in r.entries
    ensures L.Sum(r.order, Weights(r.entries, m)) == Weight(r.entries[r.order[0]], m)
  {
    assert r.order[1..] == [];
  }

  lemma HotResidentsValid()
    ensures ResidentsValid(Hot.residents, OnePage)
    ensures Total(Hot.residents, PinCount) == 0 && Total(Hot.residents, PinBytes) == 0
  {
    hide L.Sum, Weights;
    var r := Hot.residents;
    PlainSize("a");
    assert L.Lists(r.order, r.entries.Keys);
    OneWeighs(r, AllBytes);
    OneWeighs(r, PinBytes);
    OneWeighs(r, PinCount);
  }

  lemma HotIsValid()
    ensures TiersValid(Hot, OnePage) && Refusal(Hot, Plain("b"), ColdOnly, OnePage) == None
  {
    hide ResidentsValid, L.Sum, Page.Size;
    PlainSize("b");
    HotResidentsValid();
    EmptyEstimators();
    assert WellFormed(Hot.residents) by { ValidIsWellFormed(); }
    assert OthersPinned(Hot.residents, "b", PinCount) == 0 && OthersPinned(Hot.residents, "b", PinBytes) == 0;
  }

  lemma ValidIsWellFormed()
    requires ResidentsValid(Hot.residents, OnePage)
    ensures WellFormed(Hot.residents)
  {
  }

  lemma EmptyEstimators()
    ensures GhostsValid(Ghosts(map[], []), OnePage, 0) && ShadowsValid(Shadows(map[], [], 0, 0, 0, 0), OnePage, 0)
  {
    var g, s := Ghosts(map[], []), Shadows(map[], [], 0, 0, 0, 0);
    assert g.entries.Keys == {} && s.entries.Keys == {};
  }

  const SlotA := C.Slot("a", C.Hot, true, 2)
  const SlotB := C.Slot("b", C.Cold, false, 2)

  lemma NeedingOfTwo(a: C.Slot, b: C.Slot, n: nat)
    ensures C.NeedingIds([a, b], n) == (if C.Need(a) == n then [a.id] else []) + (if C.Need(b) == n then [b.id] else [])
  {
    assert [a, b][1..] == [b] && [b][1..] == [];
    assert C.NeedingIds([b], n) == if C.Need(b) == n then [b.id] else [];
  }

  lemma OrderOfTwo()
    ensures C.EvictionOrder([SlotA, SlotB]) == ["b", "a"]
  {
    hide C.NeedingIds;
    NeedingOfTwo(SlotA, SlotB, 1);
    NeedingOfTwo(SlotA, SlotB, 2);
    NeedingOfTwo(SlotA, SlotB, 3);
  }

  lemma TwoSlots(r: Residents)
    requires WellFormed(r) && r.order == ["a", "b"] && r.hand == 0
    requires r.entries == map["a" := Entry(Plain("a"), C.Hot, true, 2, true), "b" := Entry(Plain("b"), C.Cold, false, 0, true)]
    ensures Ring(r) == [SlotA, SlotB]
  {
    hide Page.Size;
    PlainSize("a");
    PlainSize("b");
    assert L.Turned(r.order, 0) == ["a", "b"];
    SlotsAt(["a", "b"], r.entries);
  }

  lemma BothDoNotFit()
    ensures C.EvictionOrder([SlotA, SlotB]) == ["b", "a"]
    ensures !C.Fits(C.AfterEvicting([SlotA, SlotB], 0), OnePage.Caps()) && C.Fits(C.AfterEvicting([SlotA, SlotB], 1), OnePage.Caps())
  {
    hide C.EvictionOrder;
    var q := [SlotA, SlotB];
    OrderOfTwo();
    var order := C.EvictionOrder(q);
    assert order[..0] == [] && C.IdSet([]) == {};
    C.WithoutNothing(q);
    assert order[..1] == ["b"];
    OneId("b");
    assert q[1..] == [SlotB] && [SlotB][1..] == [] && [SlotA][1..] == [];
    assert C.Without([SlotB], {"b"}) == [];
    assert C.Without(q, {"b"}) == [SlotA];
    assert C.AfterEvicting(q, 1) == [SlotA] && C.AfterEvicting(q, 0) == q;
    assert C.Bytes([SlotA]) == 2;
  }

  lemma OneId(id: string)
    ensures C.IdSet([id]) == {id}
  {
    assert [id][0] == id;
  }

  lemma PlacedOverHot()
    requires TiersValid(Hot, OnePage)
    ensures var r := BeforeSweep(Hot, Plain("b"), ColdOnly).residents;
            r.order == ["a", "b"] && r.hand == 0
            && r.entries == map["a" := Entry(Plain("a"), C.Hot, true, 2, true), "b" := Entry(Plain("b"), C.Cold, false, 0, true)]
  {
    ReadyToPlace(Hot, OnePage);
    hide TiersValid, GhostsBeforeSweep, ShadowsAfterAdmission;
    assert ["a"] + ["b"] == ["a", "b"];
  }

  /** A cold page accepted into a cache of one page, over a hot one, is itself what the sweep evicts. */
  lemma AcceptedButEvicted(t': Tiers)
    requires TiersValid(Hot, OnePage) && AdmittedTo(Hot, t', Plain("b"), ColdOnly, OnePage)
    ensures Refusal(Hot, Plain("b"), ColdOnly, OnePage) == None
    ensures "b" !in t'.residents.entries
  {
    HotIsValid();
    hide TiersValid, AdmittedTo, BeforeSweep, C.EvictionOrder, C.AfterEvicting, C.Fits, Ring, C.IdSet;
    AdmissionEvictsShortestPrefix(Hot, t', Plain("b"), ColdOnly, OnePage);
    PlacedOverHot();
    var placed := BeforeSweep(Hot, Plain("b"), ColdOnly).residents;
    TwoSlots(placed);
    BothDoNotFit();
    var k := Depth(Hot, Plain("b"), ColdOnly, OnePage);
    var order := C.EvictionOrder([SlotA, SlotB]);
    assert k == 1;
    assert order[..1] == ["b"];
    OneId("b");
  }

  /** So it goes: the admission has an outcome, and the page is not in it. */
  lemma AcceptedPageGoes() returns (t': Tiers)
    ensures TiersValid(Hot, OnePage) && Refusal(Hot, Plain("b"), ColdOnly, OnePage) == None
    ensures AdmittedTo(Hot, t', Plain("b"), ColdOnly, OnePage) && "b" !in t'.residents.entries
  {
    HotIsValid();
    hide TiersValid, AdmittedTo, Refusal;
    t' := AdmissionHasOutcome(Hot, Plain("b"), ColdOnly, OnePage);
    AcceptedButEvicted(t');
  }
}
